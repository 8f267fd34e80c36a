/**
 * The poller's step: what one probe of one server does to that server's
 * record, and what one pass over all records does to the cache. The network
 * probe and the favicon file write are inputs (an `Observation`); the
 * scheduling loop, its sleep and the probe's timeout and concurrency cap are
 * not modelled.
 */
module Updater {
  import opened Wrappers
  import opened Strings
  import opened Appstate

  /** What a successful probe reports, by protocol edition. */
  datatype ServerData =
    | Java(players: PlayersInfo, favicon: Option<string>)
    | Bedrock

  /** The outcome of pinging a server's address. */
  datatype ProbeResult =
    | Failure(reason: string)
    | Success(online: bool, data: ServerData)

  /** Everything the outside world decides during one update of one server:
      the probe's outcome and whether decoding and writing the favicon file
      would succeed if it were attempted. */
  datatype Observation = Observation(probe: ProbeResult, saveSucceeds: bool)

  /** A request to decode `payload` and write it to the file at `path`. */
  datatype SaveRequest = SaveRequest(path: string, payload: string)

  /** The result of one update. `stateChanged` is the "state changed" trace
      event, `save` the favicon file write that was attempted. `Panicked`
      stands for the `todo!()` on Bedrock data, which ends the poller; its
      record holds whatever was written before the panic. */
  datatype UpdateOutcome =
    | Updated(next: ServerStatus, stateChanged: bool, save: Option<SaveRequest>)
    | Panicked(partial: ServerStatus)
  {
    /** The record as it stands after the update, finished or not. */
    function Record(): ServerStatus {
      if Updated? then next else partial
    }
  }

  /** Rust's `Path::join` on Unix: an absolute `name` replaces `dir`; otherwise a
      separator is inserted unless `dir` is empty or already ends in one. */
  function JoinPath(dir: string, name: string): (p: string)
    ensures |name| > 0 && name[0] == '/' ==> p == name
    ensures |p| >= |name| && p[|p| - |name|..] == name
    // A relative name goes inside `dir`: `dir`, at most one separator, `name`,
    // and what comes before `name` is empty or ends in a separator.
    ensures (|name| == 0 || name[0] != '/') ==>
      && |dir| <= |p| - |name| <= |dir| + 1
      && p[..|dir|] == dir
      && (|p| > |name| ==> p[|p| - |name| - 1] == '/')
    // The separator is inserted exactly when `dir` is non-empty and does not end in one.
    ensures (|name| == 0 || name[0] != '/') ==>
      (|p| == |dir| + |name| + 1 <==> |dir| > 0 && dir[|dir| - 1] != '/')
  {
    if |name| > 0 && name[0] == '/' then name
    else if |dir| == 0 || dir[|dir| - 1] == '/' then dir + name
    else dir + "/" + name
  }

  /** Where the favicon of server `id` is saved under directory `dir`. */
  function FaviconFile(dir: string, id: string): string {
    JoinPath(dir, id + ".png")
  }

  /** For a plain directory and an id that is not an absolute path, the
      favicon file is `<dir>/<id>.png`. */
  lemma FaviconFilePlain(dir: string, id: string)
    requires |dir| > 0 && dir[|dir| - 1] != '/'
    requires |id| == 0 || id[0] != '/'
    ensures FaviconFile(dir, id) == dir + "/" + id + ".png"
  {
  }

  /** Servers whose ids are not absolute paths never share a favicon file. */
  lemma FaviconFileDistinct(dir: string, a: string, b: string)
    requires |a| == 0 || a[0] != '/'
    requires |b| == 0 || b[0] != '/'
    requires FaviconFile(dir, a) == FaviconFile(dir, b)
    ensures a == b
  {
    var na, nb := a + ".png", b + ".png";
    assert na[0] != '/' by {
      if |a| > 0 { assert na[0] == a[0]; } else { assert na[0] == '.'; }
    }
    assert nb[0] != '/' by {
      if |b| > 0 { assert nb[0] == b[0]; } else { assert nb[0] == '.'; }
    }
    var p := FaviconFile(dir, a);
    assert |na| == |nb|;
    var prefix := p[..|p| - |na|];
    assert na == p[|p| - |na|..] == nb;
    assert a == na[..|a|] == nb[..|b|] == b;
  }

  /** The base64 part of a favicon data URL: the second comma-separated
      field, or the whole string when there is no comma. */
  function SecondFieldOrAll(s: string): string {
    var fields := Split(s, ',');
    if |fields| >= 2 then fields[1] else s
  }

  /** Without a comma the whole string is taken. */
  lemma SecondFieldWithoutComma(s: string)
    requires ',' !in s
    ensures SecondFieldOrAll(s) == s
  {
    SplitWithoutSeparator(s, ',');
  }

  /** With a comma, what lies between the first comma and the next one (or the
      end) is taken. */
  lemma SecondFieldWithComma(prefix: string, field: string, rest: string)
    requires ',' !in prefix && ',' !in field
    requires |rest| == 0 || rest[0] == ','
    ensures SecondFieldOrAll(prefix + "," + field + rest) == field
  {
    var t := field + rest;
    assert prefix + "," + field + rest == prefix + [','] + t;
    SplitLeadingField(prefix, t, ',');
    SplitFreePrefix(field, rest, ',');
    if |rest| == 0 {
      assert Split(rest, ',')[0] == "";
    } else {
      assert Split(rest, ',') == [""] + Split(rest[1..], ',');
    }
    assert field + "" == field;
  }

  /** The text handed to the base64 decoder: the second field of the favicon
      string (or all of it) with every line break deleted. */
  function FaviconPayload(favicon: string): (payload: string)
    ensures '\n' !in payload
    ensures multiset(payload) == multiset(SecondFieldOrAll(favicon))['\n' := 0]
  {
    RemoveKeepsOthers(SecondFieldOrAll(favicon), '\n');
    Remove(SecondFieldOrAll(favicon), '\n')
  }

  /** Line breaks are deleted in place: the payload of a field split into two
      pieces is the payload of the first piece followed by that of the second,
      so the order of the base64 text is kept. */
  lemma FaviconPayloadKeepsOrder(favicon: string, a: string, b: string)
    requires SecondFieldOrAll(favicon) == a + b
    ensures FaviconPayload(favicon) == Remove(a, '\n') + Remove(b, '\n')
  {
    RemoveConcat(a, b, '\n');
  }

  /** The state a successful, non-Bedrock-online probe reports. */
  function ReportedState(online: bool, data: ServerData): ServerState
    requires !(online && data.Bedrock?)
  {
    if online then Online(data.players) else Offline
  }

  /** Whether the favicon step runs at all: no path recorded yet and a save
      directory configured. */
  predicate WantsFavicon(s: ServerStatus, faviconDir: Option<string>) {
    s.faviconPath.None? && faviconDir.Some?
  }

  /** One update of one server's record from one observation. */
  function UpdateServerStatus(s: ServerStatus, faviconDir: Option<string>, obs: Observation): (r: UpdateOutcome)
    // Static data is never touched.
    ensures r.Record().config == s.config && r.Record().address == s.address
    // The `todo!()` panics: Bedrock data when online, or when the favicon step runs.
    ensures r.Panicked? <==>
      obs.probe.Success? && obs.probe.data.Bedrock? && (obs.probe.online || WantsFavicon(s, faviconDir))
    ensures r.Panicked? ==> r.partial.faviconPath == s.faviconPath
    ensures r.Panicked? && obs.probe.online ==> r.partial == s
    ensures r.Panicked? && !obs.probe.online ==> r.partial.state == Offline
    // A failed probe: Unreachable, nothing else changes, no change event, no save.
    ensures obs.probe.Failure? ==>
      r == Updated(s.(state := Unreachable), false, None)
    // A successful probe: the reported state, and an event exactly when it differs.
    ensures r.Updated? && obs.probe.Success? ==>
      && r.next.state == (if obs.probe.online then Online(obs.probe.data.players) else Offline)
      && (r.stateChanged <==> s.state != r.next.state)
    // A save is attempted exactly when the path is unset, a directory is set
    // and the probe carried favicon data; it targets the server's own file.
    ensures r.Updated? ==>
      (r.save.Some? <==>
        WantsFavicon(s, faviconDir) && obs.probe.Success? && obs.probe.data.Java? && obs.probe.data.favicon.Some?)
    ensures r.Updated? && r.save.Some? ==>
      r.save.value == SaveRequest(FaviconFile(faviconDir.value, s.config.id), FaviconPayload(obs.probe.data.favicon.value))
    // The path is recorded only after a successful save, and never overwritten.
    ensures r.Updated? ==>
      r.next.faviconPath == (if r.save.Some? && obs.saveSucceeds then Some(r.save.value.path) else s.faviconPath)
  {
    match obs.probe
    case Failure(_) => Updated(s.(state := Unreachable), false, None)
    case Success(online, data) =>
      if online && data.Bedrock? then Panicked(s)
      else
        var newState := ReportedState(online, data);
        var changed := s.state != newState;
        var s1 := if changed then s.(state := newState) else s;
        if !WantsFavicon(s1, faviconDir) then Updated(s1, changed, None)
        else if data.Bedrock? then Panicked(s1)
        else
          var path := FaviconFile(faviconDir.value, s.config.id);
          match data.favicon
          case None => Updated(s1, changed, None)
          case Some(f) =>
            var request := SaveRequest(path, FaviconPayload(f));
            if obs.saveSucceeds then Updated(s1.(faviconPath := Some(path)), changed, Some(request))
            else Updated(s1, changed, Some(request))
  }

  /** A second update with the same observation changes nothing and reports
      no state change: updates are idempotent. */
  lemma UpdateIdempotent(s: ServerStatus, faviconDir: Option<string>, obs: Observation)
    requires UpdateServerStatus(s, faviconDir, obs).Updated?
    ensures var once := UpdateServerStatus(s, faviconDir, obs).next;
      && UpdateServerStatus(once, faviconDir, obs).Updated?
      && UpdateServerStatus(once, faviconDir, obs).next == once
      && !UpdateServerStatus(once, faviconDir, obs).stateChanged
  {
  }

  /** A failed save leaves the path unset, so a later update whose save
      succeeds records the path after all. */
  lemma FailedSaveIsRetried(s: ServerStatus, faviconDir: Option<string>, obs: Observation)
    requires WantsFavicon(s, faviconDir)
    requires obs.probe.Success? && obs.probe.data.Java? && obs.probe.data.favicon.Some?
    requires !obs.saveSucceeds
    ensures var first := UpdateServerStatus(s, faviconDir, obs);
      && first.Updated? && first.save.Some? && first.next.faviconPath == None
      && UpdateServerStatus(first.next, faviconDir, obs.(saveSucceeds := true)).Record().faviconPath
         == Some(FaviconFile(faviconDir.value, s.config.id))
  {
  }

  /** The record after a run of updates, stopping at a panic, and the number
      of favicon files written along the way. */
  function Replay(s: ServerStatus, faviconDir: Option<string>, history: seq<Observation>): (r: (ServerStatus, nat))
    ensures r.0.config == s.config && r.0.address == s.address
    decreases |history|
  {
    if |history| == 0 then (s, 0)
    else
      match UpdateServerStatus(s, faviconDir, history[0])
      case Panicked(partial) => (partial, 0)
      case Updated(next, _, save) =>
        var written := if save.Some? && history[0].saveSucceeds then 1 else 0;
        var rest := Replay(next, faviconDir, history[1..]);
        (rest.0, written + rest.1)
  }

  /** Over any run of updates the favicon path only ever goes from unset to the
      server's own file, is never changed once set, and at most one favicon
      file is written. */
  lemma {:induction false} FaviconWriteOnce(s: ServerStatus, faviconDir: Option<string>, history: seq<Observation>)
    ensures var r := Replay(s, faviconDir, history);
      && (s.faviconPath.Some? ==> r.0.faviconPath == s.faviconPath && r.1 == 0)
      && (s.faviconPath.None? ==>
            (r.0.faviconPath.None? && r.1 == 0) ||
            (faviconDir.Some? && r.0.faviconPath == Some(FaviconFile(faviconDir.value, s.config.id)) && r.1 <= 1))
    decreases |history|
  {
    if |history| > 0 {
      var o := UpdateServerStatus(s, faviconDir, history[0]);
      if o.Updated? {
        FaviconWriteOnce(o.next, faviconDir, history[1..]);
      }
    }
  }

  /** The outcome of one pass over the cache: every record updated, or the
      pass (and with it the poller) ended by a panic while updating `culprit`. */
  datatype IterationOutcome =
    | Completed(servers: map<string, ServerStatus>)
    | Aborted(servers: map<string, ServerStatus>, culprit: string)

  /** The position of `x` in `order`, which holds it. */
  function IndexOf(order: seq<string>, x: string): (i: nat)
    requires x in order
    ensures i < |order| && order[i] == x
    ensures forall j | 0 <= j < i :: order[j] != x
  {
    if order[0] == x then 0 else 1 + IndexOf(order[1..], x)
  }

  predicate NoDuplicates(order: seq<string>) {
    forall i, j | 0 <= i < j < |order| :: order[i] != order[j]
  }

  /** What a pass does to one record, given its id. */
  type Visitor = (string, ServerStatus) -> UpdateOutcome

  /** The poller's visitor: update the record from its server's observation. */
  function Step(faviconDir: Option<string>, env: string -> Observation): Visitor {
    (id: string, s: ServerStatus) => UpdateServerStatus(s, faviconDir, env(id))
  }

  /** The records a pass leaves behind when every update finishes: each record
      in `ids` replaced by its update, every other record as it was. */
  function UpdatedAll(servers: map<string, ServerStatus>, ids: set<string>, visit: Visitor): map<string, ServerStatus>
  {
    map id | id in servers :: if id in ids then visit(id, servers[id]).Record() else servers[id]
  }

  /** Visits the records named in `order`, one after another, stopping at the
      first panic. What happens to one record does not affect the others. */
  function Sweep(servers: map<string, ServerStatus>, order: seq<string>, visit: Visitor): (r: IterationOutcome)
    requires forall i | 0 <= i < |order| :: order[i] in servers
    ensures r.servers.Keys == servers.Keys
    ensures r.Aborted? ==> r.culprit in order
    decreases |order|
  {
    if |order| == 0 then Completed(servers)
    else
      var id := order[0];
      match visit(id, servers[id])
      case Panicked(partial) => Aborted(servers[id := partial], id)
      case Updated(next, _, _) => Sweep(servers[id := next], order[1..], visit)
  }

  /** Whether every update of a pass over `order` finishes. */
  predicate AllFinish(servers: map<string, ServerStatus>, order: seq<string>, visit: Visitor)
  {
    forall i | 0 <= i < |order| ::
      order[i] in servers && visit(order[i], servers[order[i]]).Updated?
  }

  function Elements(order: seq<string>): set<string> {
    set i | 0 <= i < |order| :: order[i]
  }

  lemma ElementsCons(order: seq<string>)
    requires |order| > 0
    ensures Elements(order) == Elements(order[1..]) + {order[0]}
  {
  }

  /** Updating one record first and then the records in `ids` is updating the
      records in `ids` and that one. */
  lemma UpdatedAllCons(servers: map<string, ServerStatus>, id: string, ids: set<string>,
                       visit: Visitor)
    requires id in servers && id !in ids
    ensures var next := visit(id, servers[id]).Record();
      UpdatedAll(servers[id := next], ids, visit) == UpdatedAll(servers, ids + {id}, visit)
  {
  }

  /** A record the first update does not touch is seen unchanged by the rest
      of the pass. */
  lemma AllFinishCons(servers: map<string, ServerStatus>, order: seq<string>,
                      visit: Visitor)
    requires |order| > 0
    requires forall i | 0 <= i < |order| :: order[i] in servers
    requires NoDuplicates(order)
    ensures var o := visit(order[0], servers[order[0]]);
      AllFinish(servers, order, visit) <==>
        o.Updated? && AllFinish(servers[order[0] := o.next], order[1..], visit)
  {
  }

  /** A pass completes exactly when no update panics, and then every record it
      visits is updated once and every other record is left as it was. */
  lemma {:induction false} SweepCompleted(servers: map<string, ServerStatus>, order: seq<string>,
                                          visit: Visitor)
    requires forall i | 0 <= i < |order| :: order[i] in servers
    requires NoDuplicates(order)
    ensures Sweep(servers, order, visit).Completed? <==> AllFinish(servers, order, visit)
    ensures Sweep(servers, order, visit).Completed? ==>
      Sweep(servers, order, visit).servers == UpdatedAll(servers, Elements(order), visit)
    decreases |order|
  {
    if |order| == 0 {
      assert Elements(order) == {};
      assert UpdatedAll(servers, {}, visit) == servers;
    } else {
      var id := order[0];
      var o := visit(id, servers[id]);
      AllFinishCons(servers, order, visit);
      if o.Updated? {
        var rest := order[1..];
        assert forall i | 0 <= i < |rest| :: rest[i] == order[i + 1] && rest[i] != id;
        SweepCompleted(servers[id := o.next], rest, visit);
        ElementsCons(order);
        UpdatedAllCons(servers, id, Elements(rest), visit);
      }
    }
  }

  /** A pass that panics does so on the first record whose update panics: the
      records before it are updated, the culprit keeps what was written before
      the panic, and the records after it are untouched. */
  lemma {:induction false} SweepAborted(servers: map<string, ServerStatus>, order: seq<string>,
                                        visit: Visitor)
    requires forall i | 0 <= i < |order| :: order[i] in servers
    requires NoDuplicates(order)
    requires Sweep(servers, order, visit).Aborted?
    ensures var r := Sweep(servers, order, visit);
      && visit(r.culprit, servers[r.culprit]).Panicked?
      && AllFinish(servers, order[..IndexOf(order, r.culprit)], visit)
      && r.servers == UpdatedAll(servers, Elements(order[..IndexOf(order, r.culprit) + 1]), visit)
    decreases |order|
  {
    var r := Sweep(servers, order, visit);
    var id := order[0];
    var o := visit(id, servers[id]);
    if o.Panicked? {
      assert r.culprit == id && IndexOf(order, id) == 0;
      assert Elements(order[..1]) == {id};
      assert r.servers == UpdatedAll(servers, {id}, visit);
    } else {
      var servers' := servers[id := o.next];
      var rest := order[1..];
      assert forall i | 0 <= i < |rest| :: rest[i] == order[i + 1] && rest[i] != id;
      assert r == Sweep(servers', rest, visit);
      SweepAborted(servers', rest, visit);
      var k := IndexOf(rest, r.culprit);
      assert IndexOf(order, r.culprit) == k + 1 by {
        assert r.culprit != id;
      }
      assert visit(r.culprit, servers[r.culprit]).Panicked? by {
        assert servers'[r.culprit] == servers[r.culprit];
      }
      assert AllFinish(servers, order[..k + 1], visit) by {
        AbortedPrefixFinishes(servers, order, k, visit);
      }
      assert r.servers == UpdatedAll(servers, Elements(order[..k + 2]), visit) by {
        var prefix := order[..k + 2];
        assert prefix[0] == id && prefix[1..] == rest[..k + 1];
        ElementsCons(prefix);
        assert id !in Elements(rest[..k + 1]);
        UpdatedAllCons(servers, id, Elements(rest[..k + 1]), visit);
      }
    }
  }

  /** If the first update finishes and the rest of a prefix finishes on the
      updated cache, the whole prefix finishes. */
  lemma AbortedPrefixFinishes(servers: map<string, ServerStatus>, order: seq<string>, k: nat,
                              visit: Visitor)
    requires k < |order|
    requires forall i | 0 <= i < |order| :: order[i] in servers
    requires NoDuplicates(order)
    requires visit(order[0], servers[order[0]]).Updated?
    requires AllFinish(servers[order[0] := visit(order[0], servers[order[0]]).next],
                       order[1..][..k], visit)
    ensures AllFinish(servers, order[..k + 1], visit)
  {
  }

  /** One pass of the poller over the whole cache, visiting the records in
      `order`, the (unspecified) iteration order of the map, which lists
      every id once. */
  function RunIteration(app: AppState, order: seq<string>, faviconDir: Option<string>,
                        env: string -> Observation): (r: IterationOutcome)
    requires NoDuplicates(order) && Elements(order) == app.servers.Keys
    ensures r.servers.Keys == app.servers.Keys
    // The pass completes exactly when no server's update panics ...
    ensures r.Completed? <==>
      forall id | id in app.servers :: UpdateServerStatus(app.servers[id], faviconDir, env(id)).Updated?
    // ... and then every record has been updated exactly once.
    ensures r.Completed? ==>
      forall id | id in app.servers :: r.servers[id] == UpdateServerStatus(app.servers[id], faviconDir, env(id)).next
    // Static data never changes and a recorded favicon path is kept.
    ensures forall id | id in app.servers ::
      && r.servers[id].config == app.servers[id].config
      && r.servers[id].address == app.servers[id].address
      && (app.servers[id].faviconPath.Some? ==> r.servers[id].faviconPath == app.servers[id].faviconPath)
  {
    PassFinishes(app, order, faviconDir, env);
    PassKeepsStaticData(app, order, faviconDir, env);
    Sweep(app.servers, order, Step(faviconDir, env))
  }

  /** The poller's pass completes exactly when no update panics, and then
      holds every record's update. */
  lemma PassFinishes(app: AppState, order: seq<string>, faviconDir: Option<string>, env: string -> Observation)
    requires NoDuplicates(order) && Elements(order) == app.servers.Keys
    ensures var r := Sweep(app.servers, order, Step(faviconDir, env));
      && (r.Completed? <==>
            forall id | id in app.servers :: UpdateServerStatus(app.servers[id], faviconDir, env(id)).Updated?)
      && (r.Completed? ==>
            forall id | id in app.servers :: r.servers[id] == UpdateServerStatus(app.servers[id], faviconDir, env(id)).next)
  {
    var visit := Step(faviconDir, env);
    assert forall i | 0 <= i < |order| :: order[i] in Elements(order);
    SweepCompleted(app.servers, order, visit);
    AllFinishCoversKeys(app.servers, order, visit);
    assert forall id | id in app.servers :: visit(id, app.servers[id]) == UpdateServerStatus(app.servers[id], faviconDir, env(id));
  }

  /** A pass, finished or not, leaves every record's static data and any
      recorded favicon path as they were. */
  lemma PassKeepsStaticData(app: AppState, order: seq<string>, faviconDir: Option<string>, env: string -> Observation)
    requires NoDuplicates(order) && Elements(order) == app.servers.Keys
    ensures var r := Sweep(app.servers, order, Step(faviconDir, env));
      forall id | id in app.servers ::
        && r.servers[id].config == app.servers[id].config
        && r.servers[id].address == app.servers[id].address
        && (app.servers[id].faviconPath.Some? ==> r.servers[id].faviconPath == app.servers[id].faviconPath)
  {
    var visit := Step(faviconDir, env);
    var r := Sweep(app.servers, order, visit);
    assert forall i | 0 <= i < |order| :: order[i] in Elements(order);
    SweepCompleted(app.servers, order, visit);
    var ids: set<string>;
    if r.Completed? {
      ids := Elements(order);
    } else {
      SweepAborted(app.servers, order, visit);
      ids := Elements(order[..IndexOf(order, r.culprit) + 1]);
    }
    assert r.servers == UpdatedAll(app.servers, ids, visit);
    UpdatedAllKeepsStaticData(app.servers, ids, faviconDir, env);
  }

  /** Updating any set of records keeps their static data and recorded paths. */
  lemma UpdatedAllKeepsStaticData(servers: map<string, ServerStatus>, ids: set<string>,
                                  faviconDir: Option<string>, env: string -> Observation)
    ensures var m := UpdatedAll(servers, ids, Step(faviconDir, env));
      forall id | id in servers ::
        && m[id].config == servers[id].config
        && m[id].address == servers[id].address
        && (servers[id].faviconPath.Some? ==> m[id].faviconPath == servers[id].faviconPath)
  {
    var visit := Step(faviconDir, env);
    forall id | id in servers && id in ids
      ensures var o := visit(id, servers[id]);
        && o.Record().config == servers[id].config
        && o.Record().address == servers[id].address
        && (servers[id].faviconPath.Some? ==> o.Record().faviconPath == servers[id].faviconPath)
    {
      assert visit(id, servers[id]) == UpdateServerStatus(servers[id], faviconDir, env(id));
    }
  }

  /** For an order listing every id, all updates finishing along the order is
      all updates finishing. */
  lemma AllFinishCoversKeys(servers: map<string, ServerStatus>, order: seq<string>, visit: Visitor)
    requires Elements(order) == servers.Keys
    ensures AllFinish(servers, order, visit) <==> forall id | id in servers :: visit(id, servers[id]).Updated?
  {
  }

  /** The iteration order of the map does not matter. */
  lemma IterationOrderIrrelevant(app: AppState, order1: seq<string>, order2: seq<string>,
                                 faviconDir: Option<string>, env: string -> Observation)
    requires NoDuplicates(order1) && Elements(order1) == app.servers.Keys
    requires NoDuplicates(order2) && Elements(order2) == app.servers.Keys
    requires RunIteration(app, order1, faviconDir, env).Completed?
    ensures RunIteration(app, order1, faviconDir, env) == RunIteration(app, order2, faviconDir, env)
  {
    var r1, r2 := RunIteration(app, order1, faviconDir, env), RunIteration(app, order2, faviconDir, env);
    assert r1.servers == r2.servers;
  }

  /** Failed probes and failed favicon saves never stop a pass: as long as no
      probe returns Bedrock data, every server is updated. */
  lemma FailuresDoNotStopIteration(app: AppState, order: seq<string>, faviconDir: Option<string>,
                                   env: string -> Observation)
    requires NoDuplicates(order) && Elements(order) == app.servers.Keys
    requires forall id | id in app.servers :: !(env(id).probe.Success? && env(id).probe.data.Bedrock?)
    ensures RunIteration(app, order, faviconDir, env).Completed?
  {
  }
}
