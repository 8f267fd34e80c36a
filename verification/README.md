# Minecraft server status checker — a Dafny model of its polling core

The status checker probes a fixed list of game servers, keeps the last
observation of each in a status cache, and serves that cache through a small
read-only HTTP API. This project models, as pure functions over immutable
datatypes:

- the status cache and how it is built from the configuration
  (`appstate.dfy`, module `Appstate`; configuration types in `config.dfy`);
- the poller's per-server update step, the favicon payload preprocessing and
  one pass of the poller over the whole cache (`updater.dfy`, module `Updater`);
- the status query endpoints (`service.dfy`, module `Service`);
- command-line argument validation (`args.dfy`, module `Args`);
- the string operations these rely on: `str::split`, deletion of a
  character, decimal printing (`strings.dfy`), and `Option`/`Result`
  (`wrappers.dfy`);
- one concrete end-to-end pass with two servers (`scenario.dfy`).

The world outside the program is an input. One probe of one server, plus
whether decoding and writing its favicon would succeed, is an
`Updater.Observation`. A pass gets one observation per server id
(`env: string -> Observation`). It also gets the map's iteration order, which
Rust does not specify, as any duplicate-free sequence of all ids.

Behaviour of the code that a reader might not expect, and which the model
keeps:

- The favicon file is `Path::join(dir, id + ".png")`. Under Unix semantics an
  id that starts with `/` replaces the directory. No separator is inserted
  when the directory is empty or already ends in `/`. `<dir>/<id>.png` holds
  only for a plain directory and a relative id (`Updater.FaviconFilePlain`).
- Collecting the configured servers into a `HashMap` lets a later server
  overwrite an earlier one with the same id. An entry therefore holds the
  last configured server with its id.
- Bedrock data reaches a `todo!()` panic. This happens when the server is
  online (before anything is written). It also happens when the favicon step
  runs, and by then the new state has already been written. The model gives
  this a distinct outcome (`Panicked` and `Aborted`) that ends the pass. It
  is never mapped to `Unreachable`.
- `update_server_status` always returns `Ok`. Probe and save failures are
  absorbed inside it, so the `warn!` branch of the loop is never taken.
- The loop awaits each server in turn, so within one pass the probes run one
  after another.
- The configuration struct as written has no favicon directory, polling
  interval or timeout, yet the poller reads them. The favicon directory is
  therefore an explicit parameter of the update and the pass.

## Model

| member | source | states |
|---|---|---|
| Appstate.DefaultState | src/api/appstate.rs:38-42 | the default server state is neither Online nor Offline, i.e. Unreachable |
| Appstate.OnlineEquality | src/api/appstate.rs:25-36 | two Online states are equal exactly when both player counts are equal (derived structural equality) |
| Appstate.Address | src/api/appstate.rs:51 | the address is the host, a colon, then decimal digits without leading zeros that read back as the port |
| Appstate.AddressDeterminesEndpoint | src/api/appstate.rs:51 | two configurations with the same address have the same host and port |
| Appstate.InitialStatus | src/api/appstate.rs:47-52 | a fresh record is Unreachable, has no favicon path, holds its configuration and that configuration's address |
| Appstate.BuildServers | src/api/appstate.rs:46-53 | the key set is the set of configured ids; each entry is the fresh record of the last configured server with that id |
| Appstate.FromConfig | src/api/appstate.rs:44-58 | the app state keeps the configuration unchanged; keys equal the configured ids; every entry starts Unreachable with no favicon, holds a configured server whose id is its key, and has that server's address |
| Appstate.FromConfigBijection | src/api/appstate.rs:46-53 | with distinct ids every configured server has its own entry, holding that server |
| Appstate.FromConfigSize | src/api/appstate.rs:46-53 | with distinct ids there are exactly as many entries as configured servers |
| Strings.Split | src/updater/mod.rs:102 | at least one field, and no field contains the separator |
| Strings.SplitFieldCount | src/updater/mod.rs:102 | there is one more field than there are separators |
| Strings.JoinSplit | src/updater/mod.rs:102 | joining the fields with the separator gives back the original string |
| Strings.SplitJoin | src/updater/mod.rs:102 | splitting a join of separator-free fields gives back the fields |
| Strings.Remove | src/updater/mod.rs:103 | the result has no occurrence of the deleted character |
| Strings.RemoveKeepsOthers | src/updater/mod.rs:103 | every other character occurs exactly as often as before |
| Strings.RemoveConcat | src/updater/mod.rs:103 | deletion distributes over concatenation, so order is kept |
| Strings.RemoveIdempotent | src/updater/mod.rs:103 | deleting a second time changes nothing |
| Strings.Decimal | src/api/appstate.rs:51 | the port is printed as decimal digits without leading zeros |
| Strings.ParseDecimalOfDecimal | src/api/appstate.rs:51 | the printed port reads back as the port |
| Updater.JoinPath | src/updater/mod.rs:71 | path joining: an absolute name replaces the directory; a relative name follows the directory, with a separator inserted exactly when the directory is non-empty and does not already end in one |
| Updater.FaviconFilePlain | src/updater/mod.rs:71 | for a plain directory and a relative id the favicon file is `<dir>/<id>.png` |
| Updater.FaviconFileDistinct | src/updater/mod.rs:71 | servers with relative ids never share a favicon file |
| Updater.SecondFieldWithoutComma | src/updater/mod.rs:102 | without a comma the whole favicon string is taken |
| Updater.SecondFieldWithComma | src/updater/mod.rs:102 | with a comma, the text between the first comma and the next comma (or the end) is taken |
| Updater.FaviconPayload | src/updater/mod.rs:101-103 | the decoder input has no line break and otherwise the characters of the selected field |
| Updater.FaviconPayloadKeepsOrder | src/updater/mod.rs:103 | deleting line breaks keeps the order of the remaining text: the payload of a concatenation is the concatenation of the payloads |
| Updater.UpdateServerStatus | src/updater/mod.rs:41-99 | failure gives Unreachable and changes nothing else; success gives Online with the reported counts or Offline, and reports a change exactly when the state differs; a save is attempted exactly when no path is set, a directory is configured and favicon data came, at the server's own file; the path is set only after a successful save and never overwritten; Bedrock data panics exactly where the code reaches `todo!()` |
| Updater.UpdateIdempotent | src/updater/mod.rs:64-67 | applying the same observation a second time changes nothing and reports no state change |
| Updater.FailedSaveIsRetried | src/updater/mod.rs:84-92 | a failed save leaves the path unset, and a later successful save records the server's favicon file |
| Updater.FaviconWriteOnce | src/updater/mod.rs:69-87 | over any run of updates the path only moves from unset to the server's own file, never changes once set, and at most one favicon file is written |
| Updater.Sweep | src/updater/mod.rs:30-34 | a pass keeps the key set, and a panic is blamed on a visited server |
| Updater.SweepCompleted | src/updater/mod.rs:30-34 | a pass completes exactly when no update panics, and then each visited record is updated once and the others are untouched |
| Updater.SweepAborted | src/updater/mod.rs:30-34 | a pass that panics stops at the first panicking update: earlier records updated, the culprit as written before the panic, later ones untouched |
| Updater.RunIteration | src/updater/mod.rs:28-34 | a pass over the whole cache keeps its keys, static data and recorded favicon paths; it completes exactly when no update panics, and then every record is updated exactly once |
| Updater.IterationOrderIrrelevant | src/updater/mod.rs:30 | a completed pass gives the same cache whatever the map's iteration order |
| Updater.FailuresDoNotStopIteration | src/updater/mod.rs:30-34 | probe failures and failed favicon saves never stop a pass; only Bedrock data can |
| Service.NotFoundBody | src/api/service.rs:15 | the error body quotes the requested id verbatim |
| Service.NotFoundBodyInjective | src/api/service.rs:36 | different ids get different error bodies |
| Service.GetServers | src/api/service.rs:7-9 | the server list endpoint answers 200 with a list of servers |
| Service.GetServersIgnoresLiveState | src/api/service.rs:8 | the list is exactly the configured servers, whatever the live records |
| Service.GetServerStatus | src/api/service.rs:11-17 | 200 exactly for a known id, carrying that entry's current state; otherwise 404 with the error body for the id |
| Service.StatusCode | src/api/service.rs:29-33 | 200 exactly for Online, 503 exactly for Offline, 502 exactly for Unreachable |
| Service.GetServerStatusReturnCode | src/api/service.rs:27-38 | 404 exactly for an unknown id, with the error body; otherwise the state's code with an empty body |
| Service.UnknownIdAgreement | src/api/service.rs:14-16 | both per-server endpoints agree on unknown ids and answer them identically |
| Service.InitiallyUnreachable | src/api/appstate.rs:48 | before any probe every configured server reads as Unreachable with code 502 |
| Scenario.TwoServersOnePass | src/updater/mod.rs:41-67 | with two servers, one answering online with 5 of 20 players and one timing out, one pass reports Online(5, 20) with code 200 and Unreachable with code 502 |
| Args.ParseArgs | src/utility/args.rs:9-26 | fewer than two arguments is "not enough", more than two is "too many", exactly two succeeds with the last argument as the configuration path |
| Args.ProgramNameIgnored | src/utility/args.rs:24 | the program name never influences the result |
| Args.ErrorMessagesDistinct | src/utility/args.rs:15-20 | the two failures carry different messages |

## Left out

- The spawned task, the endless loop and the sleep between passes: they are
  non-terminating scheduling. One pass is modelled (`Updater.RunIteration`).
- The network client, its timeout and its limit of ten parallel probes: they
  are a foreign client and concurrency. A probe is an input (`Observation`);
  a timeout is simply a `Failure`.
- The read/write locks around each record: records are plain values updated
  in one step, so freedom from torn reads cannot be stated.
- Base64 decoding and the file write: library code and file I/O. Whether they
  succeed is the observation's `saveSucceeds`. The model keeps the path and
  the decoder input they would be given (`SaveRequest`).
- The `as u32` casts of the player counts: the source type lives in a crate
  that is not part of this model. The counts arrive as `u32`.
- Logging: the "state changed" trace is kept as the `stateChanged` flag, and
  every other log line is dropped.
- JSON serialisation of a state (`server_state_to_json`) is serde's job. A
  state body is kept abstract (`Service.StateJson`).
- Routing, CORS and the TCP listener (`src/api/mod.rs`), configuration loading
  and serde port defaults (`src/config/mod.rs`), and startup (`src/main.rs`)
  are plumbing. They are not part of this model.
- `PathBuf` values are modelled as strings. The path is built from UTF-8
  strings, so `to_str().unwrap()` cannot fail.
