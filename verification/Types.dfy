/** The configuration data that the engine's operations pass around. */
module Types {
  import opened Common

  const DEFAULT_VERSION := "1.0.2"

  datatype Json =
    | Null
    | Bool(b: bool)
    | Num(n: int)
    | Str(s: string)
    | Arr(items: seq<Json>)
    | Obj(fields: map<string, Json>)

  datatype ServerConfig = ServerConfig(
    transport: string,
    command: string,
    args: Option<seq<string>>,
    env: Option<map<string, string>>,
    url: string,
    headers: Option<map<string, string>>,
    metadata: Option<map<string, Json>>)

  /** The part of the engine's own metadata that the modelled operations read or set. */
  datatype Internal = Internal(
    enabled: bool,
    source: string,
    syncTargets: seq<string>,
    excludeFromTargets: seq<string>,
    projectPath: string,
    projectSpecific: bool)

  datatype Server = Server(config: ServerConfig, internal: Internal)

  datatype Settings = Settings(maxBackups: int, others: Json)

  /** A nil map of servers or metadata reads like an empty one; where writing to it matters, it is an option of its own. */
  datatype Config = Config(
    version: string,
    servers: map<string, Server>,
    settings: Settings,
    metadata: map<string, Json>)
}
