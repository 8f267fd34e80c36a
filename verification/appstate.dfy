/**
 * The status cache: one record per configured server holding its last
 * observed state, the path of its saved favicon and its static data. In the
 * program each mutable field sits behind its own lock; here a record is a
 * plain value and an update produces a new one.
 */
module Appstate {
  import opened Wrappers
  import opened Strings
  import Config

  /** Rust's `u32`. */
  type u32 = x: int | 0 <= x < 0x1_0000_0000

  datatype PlayersInfo = PlayersInfo(online: u32, max: u32)

  /** The last known state of a server. Equality is structural, as with the
      derived `PartialEq`. */
  datatype ServerState = Online(players: PlayersInfo) | Offline | Unreachable

  datatype ServerStatus = ServerStatus(
    state: ServerState,
    faviconPath: Option<string>,
    config: Config.ServerConfig,
    address: string)

  datatype AppState = AppState(config: Config.Config, servers: map<string, ServerStatus>)

  /** The state a server has before it was ever probed. */
  function DefaultState(): (s: ServerState)
    ensures !s.Online? && !s.Offline?
  {
    Unreachable
  }

  /** Two online states are equal exactly when both player counts agree. */
  lemma OnlineEquality(p: PlayersInfo, q: PlayersInfo)
    ensures Online(p) == Online(q) <==> p.online == q.online && p.max == q.max
  {
  }

  /** The `host:port` address the probe is sent to. The port is printed in
      decimal, so the host can be read back from in front of the last colon
      and the port from behind it. */
  function Address(cfg: Config.ServerConfig): (a: string)
    ensures |a| > |cfg.host| + 1
    ensures a[..|cfg.host|] == cfg.host && a[|cfg.host|] == ':'
    ensures AllDigits(a[|cfg.host| + 1..])
    ensures ParseDecimal(a[|cfg.host| + 1..]) == cfg.port
    ensures a[|cfg.host| + 1] == '0' ==> cfg.port == 0 && |a| == |cfg.host| + 2
  {
    var digits := Decimal(cfg.port);
    var a := cfg.host + ":" + digits;
    assert a[|cfg.host| + 1..] == digits;
    ParseDecimalOfDecimal(cfg.port);
    a
  }

  /** Two configurations share an address only if they share host and port. */
  lemma AddressDeterminesEndpoint(c: Config.ServerConfig, d: Config.ServerConfig)
    requires Address(c) == Address(d)
    ensures c.host == d.host && c.port == d.port
  {
  }

  /** The record a configured server starts with. */
  function InitialStatus(cfg: Config.ServerConfig): (s: ServerStatus)
    ensures s.state == DefaultState() && s.faviconPath == None
    ensures s.config == cfg && s.address == Address(cfg)
  {
    ServerStatus(DefaultState(), None, cfg, Address(cfg))
  }

  /** The position of the last configured server with the given id, or -1
      when there is none. */
  function LastIndexOf(servers: seq<Config.ServerConfig>, id: string): (i: int)
    ensures -1 <= i < |servers|
    ensures i >= 0 ==> servers[i].id == id
    ensures forall j | i < j < |servers| :: servers[j].id != id
  {
    if |servers| == 0 then -1
    else if servers[|servers| - 1].id == id then |servers| - 1
    else LastIndexOf(servers[..|servers| - 1], id)
  }

  /** The status map collected from the configured servers in order. As with
      collecting into a `HashMap`, a later server overwrites an earlier one
      with the same id. */
  function BuildServers(servers: seq<Config.ServerConfig>): (m: map<string, ServerStatus>)
    ensures m.Keys == Config.Ids(servers)
    ensures forall k | k in m ::
      0 <= LastIndexOf(servers, k) && m[k] == InitialStatus(servers[LastIndexOf(servers, k)])
    decreases |servers|
  {
    if |servers| == 0 then map[]
    else
      var init := servers[..|servers| - 1];
      var last := servers[|servers| - 1];
      assert Config.Ids(servers) == Config.Ids(init) + {last.id} by {
        assert forall i | 0 <= i < |init| :: init[i] == servers[i];
      }
      BuildServers(init)[last.id := InitialStatus(last)]
  }

  /** The application state built from a configuration: the configuration
      itself, unchanged, and one fresh record per configured id. */
  function FromConfig(config: Config.Config): (app: AppState)
    ensures app.config == config
    ensures app.servers.Keys == Config.Ids(config.servers)
    ensures forall k | k in app.servers ::
      && app.servers[k].state == Unreachable
      && app.servers[k].faviconPath == None
      && app.servers[k].config.id == k
      && app.servers[k].config in config.servers
      && app.servers[k].address == Address(app.servers[k].config)
  {
    AppState(config, BuildServers(config.servers))
  }

  /** With distinct ids every configured server has its own record, holding
      that server. */
  lemma FromConfigBijection(config: Config.Config)
    requires Config.DistinctIds(config.servers)
    ensures forall i | 0 <= i < |config.servers| ::
      FromConfig(config).servers[config.servers[i].id].config == config.servers[i]
  {
    var servers := config.servers;
    forall i | 0 <= i < |servers|
      ensures FromConfig(config).servers[servers[i].id].config == servers[i]
    {
      assert servers[i].id in Config.Ids(servers);
      assert LastIndexOf(servers, servers[i].id) == i;
    }
  }

  /** With distinct ids the cache has exactly as many records as there are
      configured servers. */
  lemma FromConfigSize(config: Config.Config)
    requires Config.DistinctIds(config.servers)
    ensures |FromConfig(config).servers| == |config.servers|
  {
    DistinctIdsCount(config.servers);
  }

  /** Distinct ids are as many as the servers. */
  lemma {:induction false} DistinctIdsCount(servers: seq<Config.ServerConfig>)
    requires Config.DistinctIds(servers)
    ensures |Config.Ids(servers)| == |servers|
    decreases |servers|
  {
    if |servers| > 0 {
      var init := servers[..|servers| - 1];
      var last := servers[|servers| - 1];
      DistinctIdsCount(init);
      assert Config.Ids(servers) == Config.Ids(init) + {last.id} by {
        assert forall i | 0 <= i < |init| :: init[i] == servers[i];
      }
      assert last.id !in Config.Ids(init);
    }
  }
}
