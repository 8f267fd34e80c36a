/**
 * One concrete pass of the poller, end to end: two configured servers, the
 * first answers online with 5 of 20 players, the second times out.
 */
module Scenario {
  import opened Wrappers
  import opened Appstate
  import opened Updater
  import opened Service
  import Config

  const A: Config.ServerConfig := Config.ServerConfig("Server A", "a", "h1", 25565)
  const B: Config.ServerConfig := Config.ServerConfig("Server B", "b", "h2", 25566)
  const Initial: AppState := FromConfig(Config.Config([A, B], 9235))

  /** What the network answers: `a` is up, `b` does not answer in time. */
  function Env(id: string): Observation {
    if id == "a" then Observation(Success(true, Java(PlayersInfo(5, 20), None)), false)
    else Observation(Failure("timed out"), false)
  }

  lemma InitialKeys()
    ensures Initial.servers.Keys == {"a", "b"}
  {
    var servers := [A, B];
    assert servers[0].id == "a" && servers[1].id == "b";
    assert Config.Ids(servers) == {"a", "b"};
  }

  lemma OrderCoversKeys()
    ensures NoDuplicates(["a", "b"]) && Elements(["a", "b"]) == Initial.servers.Keys
  {
    var order := ["a", "b"];
    assert order[0] == "a" && order[1] == "b" && order[0] != order[1];
    assert Elements(order) == {"a", "b"};
    InitialKeys();
  }

  /** The pass over `a` then `b` completes, `a` reads online with 5 of 20 and `b` unreachable. */
  lemma PassResult()
    ensures NoDuplicates(["a", "b"]) && Elements(["a", "b"]) == Initial.servers.Keys
    ensures var r := RunIteration(Initial, ["a", "b"], None, Env);
      && r.Completed?
      && r.servers.Keys == {"a", "b"}
      && r.servers["a"].state == Online(PlayersInfo(5, 20))
      && r.servers["b"].state == Unreachable
  {
    var order := ["a", "b"];
    OrderCoversKeys();
    InitialKeys();
    FailuresDoNotStopIteration(Initial, order, None, Env);
    var r := RunIteration(Initial, order, None, Env);
    assert r.servers["a"] == UpdateServerStatus(Initial.servers["a"], None, Env("a")).next;
    assert r.servers["b"] == UpdateServerStatus(Initial.servers["b"], None, Env("b")).next;
    StepA(Initial.servers["a"]);
    StepB(Initial.servers["b"]);
  }

  lemma StepA(s: ServerStatus)
    ensures UpdateServerStatus(s, None, Env("a")).Updated?
    ensures UpdateServerStatus(s, None, Env("a")).next.state == Online(PlayersInfo(5, 20))
  {
  }

  lemma StepB(s: ServerStatus)
    ensures UpdateServerStatus(s, None, Env("b")).Updated?
    ensures UpdateServerStatus(s, None, Env("b")).next.state == Unreachable
  {
    assert Env("b").probe.Failure? by { assert "b"[0] != "a"[0]; }
  }

  lemma TwoServersOnePass()
    ensures var order := ["a", "b"];
      && NoDuplicates(order) && Elements(order) == Initial.servers.Keys
      && var r := RunIteration(Initial, order, None, Env);
      && r.Completed?
      && var after := Initial.(servers := r.servers);
      && GetServerStatus(after, "a") == Response(OK, StateJson(Online(PlayersInfo(5, 20))))
      && GetServerStatus(after, "b") == Response(OK, StateJson(Unreachable))
      && GetServerStatusReturnCode(after, "a").code == OK
      && GetServerStatusReturnCode(after, "b").code == BAD_GATEWAY
  {
    PassResult();
  }
}
