/** Reading MCP files. */
module McpConfig {
  // Which section wins, and substitution in every field.

  import opened Common
  import opened Types
  import opened Text
  import opened Substitution

  /** Inputs are only passed on, so they stay in their JSON form. */
  datatype McpWrapper = McpWrapper(inputs: seq<Json>, servers: Option<map<string, ServerConfig>>)

  datatype McpFile = McpFile(
    mcp: Option<McpWrapper>,
    mcpServers: Option<map<string, ServerConfig>>,
    servers: Option<map<string, ServerConfig>>)

  /** Every value of the new map is a substitution of the old value under the same key. */
  ghost predicate MapSubstituted(before: Option<Table>, after: Option<Table>, inputs: Table, env: Table, os: Table) {
    match before
    case None => after == None
    case Some(m) =>
      && after.Some? && after.value.Keys == m.Keys
      && forall k :: k in m ==> IsSubstitution(m[k], after.value[k], inputs, env, os)
  }

  ghost predicate ArgsSubstituted(before: Option<seq<string>>, after: Option<seq<string>>, inputs: Table, env: Table, os: Table) {
    match before
    case None => after == None
    case Some(xs) =>
      && after.Some? && |after.value| == |xs|
      && forall i :: 0 <= i < |xs| ==> IsSubstitution(xs[i], after.value[i], inputs, env, os)
  }

  /** Five fields are substituted; the transport and the metadata are not. */
  ghost predicate ServerSubstituted(before: ServerConfig, after: ServerConfig, inputs: Table, env: Table, os: Table) {
    && after.transport == before.transport && after.metadata == before.metadata
    && IsSubstitution(before.command, after.command, inputs, env, os)
    && IsSubstitution(before.url, after.url, inputs, env, os)
    && ArgsSubstituted(before.args, after.args, inputs, env, os)
    && MapSubstituted(before.env, after.env, inputs, env, os)
    && MapSubstituted(before.headers, after.headers, inputs, env, os)
  }

  method SubstituteMap(m: Table, inputs: Table, env: Table, os: Table) returns (r: Table)
    ensures MapSubstituted(Some(m), Some(r), inputs, env, os)
  {
    r := map[];
    var pending := m.Keys;
    while pending != {}
      invariant pending <= m.Keys && r.Keys == m.Keys - pending
      invariant forall k :: k in r ==> IsSubstitution(m[k], r[k], inputs, env, os)
      decreases |pending|
    {
      var key :| key in pending;
      var value := SubstituteString(m[key], inputs, env, os);
      r := r[key := value];
      pending := pending - {key};
    }
  }

  method SubstituteVariables(config: ServerConfig, inputs: Table, env: Table, os: Table) returns (r: ServerConfig)
    ensures ServerSubstituted(config, r, inputs, env, os)
  {
    r := config;
    if r.env.Some? {
      var newEnv := SubstituteMap(config.env.value, inputs, env, os);
      r := r.(env := Some(newEnv));
    }
    if r.args.Some? {
      var args := config.args.value;
      var newArgs := [];
      for i := 0 to |args|
        invariant |newArgs| == i
        invariant forall k :: 0 <= k < i ==> IsSubstitution(args[k], newArgs[k], inputs, env, os)
      {
        var arg := SubstituteString(args[i], inputs, env, os);
        newArgs := newArgs + [arg];
      }
      r := r.(args := Some(newArgs));
    }
    if r.headers.Some? {
      var newHeaders := SubstituteMap(config.headers.value, inputs, env, os);
      r := r.(headers := Some(newHeaders));
    }
    var url := SubstituteString(r.url, inputs, env, os);
    var command := SubstituteString(r.command, inputs, env, os);
    r := r.(url := url, command := command);
  }

  /** mcp.servers before mcpServers before servers; the first section present wins, even if empty. */
  function ChosenServers(m: McpFile): map<string, ServerConfig> {
    if m.mcp.Some? && m.mcp.value.servers.Some? then m.mcp.value.servers.value
    else if m.mcpServers.Some? then m.mcpServers.value
    else if m.servers.Some? then m.servers.value
    else map[]
  }

  /** Declared inputs are kept, if the section they belong to is the one chosen. */
  function KeptInputs(m: McpFile): map<string, Json> {
    if m.mcp.Some? && m.mcp.value.servers.Some? && m.mcp.value.inputs != [] then map["inputs" := Arr(m.mcp.value.inputs)] else map[]
  }

  /** The server entry made from one parsed configuration. */
  ghost predicate Converted(before: ServerConfig, after: Server, substituteEnvVars: bool, os: Table) {
    && after.internal == Internal(true, "mcp-config", [], [], "", false)
    && (if substituteEnvVars then ServerSubstituted(before, after.config, map[], map[], os) else after.config == before)
  }

  method ConvertServer(server: ServerConfig, substituteEnvVars: bool, os: Table) returns (r: Server)
    ensures Converted(server, r, substituteEnvVars, os)
  {
    var final := server;
    if substituteEnvVars {
      final := SubstituteVariables(server, map[], map[], os);
    }
    r := Server(final, Internal(true, "mcp-config", [], [], "", false));
  }

  /** The same names, each server converted. */
  ghost predicate AllConverted(before: map<string, ServerConfig>, after: map<string, Server>, substituteEnvVars: bool, os: Table) {
    after.Keys == before.Keys && forall name :: name in after ==> Converted(before[name], after[name], substituteEnvVars, os)
  }

  /** The first of the three sections that is there is taken, even if it is empty; inputs are kept only with the first. */
  method ToConfig(m: McpFile, substituteEnvVars: bool, os: Table) returns (config: Config)
    ensures config.version == "1.0.2"
    ensures m.mcp.Some? && m.mcp.value.servers.Some? ==>
      && AllConverted(m.mcp.value.servers.value, config.servers, substituteEnvVars, os)
      && config.metadata == if m.mcp.value.inputs == [] then map[] else map["inputs" := Arr(m.mcp.value.inputs)]
    ensures !(m.mcp.Some? && m.mcp.value.servers.Some?) ==> config.metadata == map[]
    ensures !(m.mcp.Some? && m.mcp.value.servers.Some?) && m.mcpServers.Some? ==>
      AllConverted(m.mcpServers.value, config.servers, substituteEnvVars, os)
    ensures !(m.mcp.Some? && m.mcp.value.servers.Some?) && m.mcpServers.None? ==>
      AllConverted(if m.servers.Some? then m.servers.value else map[], config.servers, substituteEnvVars, os)
  {
    var chosen := ChosenServers(m);
    var servers: map<string, Server> := map[];
    var pending := chosen.Keys;
    while pending != {}
      invariant pending <= chosen.Keys && servers.Keys == chosen.Keys - pending
      invariant forall name :: name in servers ==> Converted(chosen[name], servers[name], substituteEnvVars, os)
      decreases |pending|
    {
      var name :| name in pending;
      var server := ConvertServer(chosen[name], substituteEnvVars, os);
      servers := servers[name := server];
      pending := pending - {name};
    }
    config := Config(DEFAULT_VERSION, servers, Settings(0, Null), KeptInputs(m));
  }

  /** On import, input references and unset variables survive as they were written. */
  lemma {:induction false} ImportKeepsReferences(tokens: seq<Token>, r: string, os: Table)
    requires WellFormed(tokens)
    requires forall t :: t in tokens && t.Placeholder? ==> INPUT_PREFIX <= t.name || Getenv(os, t.name) == ""
    requires IsSubstitution(Render(tokens), r, map[], map[], os)
    ensures r == Render(tokens)
  {
    var none: Table := map[];
    var inputOrder, envOrder :| IsOrdering(inputOrder, none.Keys) && IsOrdering(envOrder, none.Keys) &&
      r == Chain(Render(tokens), none, none, os, inputOrder, envOrder);
    ChainIsLookup(tokens, map[], map[], os, inputOrder, envOrder);
    NothingResolved(tokens, os);
  }

  lemma {:induction false} NothingResolved(tokens: seq<Token>, os: Table)
    requires forall t :: t in tokens && t.Placeholder? ==> INPUT_PREFIX <= t.name || Getenv(os, t.name) == ""
    ensures Expand(tokens, map[], map[], os) == Render(tokens)
    decreases |tokens|
  {
    if tokens != [] {
      assert tokens[0] in tokens;
      assert forall t :: t in tokens[1..] ==> t in tokens;
      NothingResolved(tokens[1..], os);
    }
  }
}
