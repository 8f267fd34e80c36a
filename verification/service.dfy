/**
 * The read-only status API over the cache. Responses are an HTTP status code
 * and a body; the JSON encoding of a state is kept abstract.
 */
module Service {
  import opened Appstate
  import Config

  const OK: int := 200
  const NOT_FOUND: int := 404
  const BAD_GATEWAY: int := 502
  const SERVICE_UNAVAILABLE: int := 503

  datatype Body =
    | ServerList(servers: seq<Config.ServerConfig>)
    | StateJson(state: ServerState)
    | Text(text: string)

  datatype Response = Response(code: int, body: Body)

  const NotFoundPrefix: string := "{\"error\": \"Server "
  const NotFoundSuffix: string := " not found!\"}"

  /** The JSON error body for an unknown id; it quotes the id verbatim. */
  function NotFoundBody(id: string): (b: string)
    ensures |b| == |NotFoundPrefix| + |id| + |NotFoundSuffix|
    ensures b[|NotFoundPrefix|..|NotFoundPrefix| + |id|] == id
  {
    NotFoundPrefix + id + NotFoundSuffix
  }

  /** Different ids get different error bodies. */
  lemma NotFoundBodyInjective(a: string, b: string)
    requires NotFoundBody(a) == NotFoundBody(b)
    ensures a == b
  {
  }

  /** `GET /api/servers`: the configured servers. */
  function GetServers(app: AppState): (r: Response)
    ensures r.code == OK && r.body.ServerList?
  {
    Response(OK, ServerList(app.config.servers))
  }

  /** The server list is the configuration's, whatever the live records say. */
  lemma GetServersIgnoresLiveState(app: AppState, servers: map<string, ServerStatus>)
    ensures GetServers(app.(servers := servers)) == GetServers(app)
    ensures GetServers(app).body.servers == app.config.servers
  {
  }

  /** `GET /api/servers/{id}/status`: the current state of a known server, or
      404 for an unknown id. */
  function GetServerStatus(app: AppState, id: string): (r: Response)
    ensures r.code == OK <==> id in app.servers
    ensures r.code == OK || r.code == NOT_FOUND
    ensures id in app.servers ==> r.body == StateJson(app.servers[id].state)
    ensures id !in app.servers ==> r.body == Text(NotFoundBody(id))
  {
    if id in app.servers then Response(OK, StateJson(app.servers[id].state))
    else Response(NOT_FOUND, Text(NotFoundBody(id)))
  }

  /** The status code standing for a state: ok, service unavailable or bad
      gateway, one per kind of state. */
  function StatusCode(state: ServerState): (code: int)
    ensures code == OK <==> state.Online?
    ensures code == SERVICE_UNAVAILABLE <==> state.Offline?
    ensures code == BAD_GATEWAY <==> state.Unreachable?
  {
    match state
    case Online(_) => OK
    case Offline => SERVICE_UNAVAILABLE
    case Unreachable => BAD_GATEWAY
  }

  /** `GET /api/servers/{id}/code`: the state of a known server as a status
      code with an empty body, or 404 for an unknown id. */
  function GetServerStatusReturnCode(app: AppState, id: string): (r: Response)
    ensures r.code == NOT_FOUND <==> id !in app.servers
    ensures id in app.servers ==> r.code == StatusCode(app.servers[id].state) && r.body == Text("")
    ensures id !in app.servers ==> r.body == Text(NotFoundBody(id))
  {
    if id in app.servers then Response(StatusCode(app.servers[id].state), Text(""))
    else Response(NOT_FOUND, Text(NotFoundBody(id)))
  }

  /** Both per-server endpoints agree on which ids are unknown, and answer
      them identically. */
  lemma UnknownIdAgreement(app: AppState, id: string)
    ensures GetServerStatus(app, id).code == NOT_FOUND <==> GetServerStatusReturnCode(app, id).code == NOT_FOUND
    ensures id !in app.servers ==> GetServerStatus(app, id) == GetServerStatusReturnCode(app, id)
  {
  }

  /** Before the first probe every configured server reads as Unreachable,
      with code bad gateway. */
  lemma InitiallyUnreachable(config: Config.Config, id: string)
    requires id in Config.Ids(config.servers)
    ensures GetServerStatus(FromConfig(config), id) == Response(OK, StateJson(Unreachable))
    ensures GetServerStatusReturnCode(FromConfig(config), id).code == BAD_GATEWAY
  {
  }
}
