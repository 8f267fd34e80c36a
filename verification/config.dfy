/**
 * The static configuration the status checker is started with. Loading it
 * from disk and serde's port defaulting are not part of this model; the
 * loader's output is taken as given.
 */
module Config {

  /** Rust's `u16`. */
  type u16 = x: int | 0 <= x < 0x1_0000

  /** One monitored game server. */
  datatype ServerConfig = ServerConfig(name: string, id: string, host: string, port: u16)

  /** The whole configuration: the monitored servers, in file order, and the API port. */
  datatype Config = Config(servers: seq<ServerConfig>, port: u16)

  /** The ids of the configured servers. */
  function Ids(servers: seq<ServerConfig>): set<string> {
    set i | 0 <= i < |servers| :: servers[i].id
  }

  /** No two configured servers share an id. */
  predicate DistinctIds(servers: seq<ServerConfig>) {
    forall i, j | 0 <= i < j < |servers| :: servers[i].id != servers[j].id
  }
}
