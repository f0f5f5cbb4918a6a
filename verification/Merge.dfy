/** Merging configurations. */
module Merge {
  // The last one wins, with a record of every conflict.

  import opened Common
  import opened Types
  import opened Text

  datatype Conflict = Conflict(server: string, source: string, overriddenBy: string)

  /** The merge result; the engine's own metadata keys are kept apart from those copied. */
  datatype Merged = Merged(
    version: string,
    settings: Settings,
    servers: map<string, Server>,
    conflicts: seq<Conflict>,
    metadata: map<string, Json>,
    sourceCount: nat,
    totalServers: nat)

  function SourceName(index: nat): string {
    "config-" + Decimal(index + 1)
  }

  lemma SourceNameInjective(i: nat, j: nat)
    requires SourceName(i) == SourceName(j)
    ensures i == j
  {
    assert SourceName(i) == "config" + "-" + Decimal(i + 1);
    assert SourceName(j) == "config" + "-" + Decimal(j + 1);
    NumberedNameInjective("config", i + 1, "config", j + 1);
  }

  predicate Names(config: Option<Config>, name: string) {
    config.Some? && name in config.value.servers
  }

  /** How many servers the non-nil configurations have together. */
  function ServerTotal(configs: seq<Option<Config>>): nat {
    if configs == [] then 0
    else
      var last := configs[|configs| - 1];
      ServerTotal(configs[..|configs| - 1]) + if last.Some? then |last.value.servers| else 0
  }

  /** The indices of the configurations that name a server, in order. */
  function Namers(configs: seq<Option<Config>>, name: string): seq<nat> {
    if configs == [] then []
    else
      var n := |configs| - 1;
      Namers(configs[..n], name) + if Names(configs[n], name) then [n] else []
  }

  /** The records about one server, in the order they were made. */
  function RecordsFor(conflicts: seq<Conflict>, name: string): seq<Conflict> {
    if conflicts == [] then []
    else
      var last := conflicts[|conflicts| - 1];
      RecordsFor(conflicts[..|conflicts| - 1], name) + if last.server == name then [last] else []
  }

  /** The records that a list of namers should have left: each hands over to the next. */
  function Handovers(name: string, namers: seq<nat>): seq<Conflict> {
    if |namers| < 2 then []
    else
      var n := |namers|;
      Handovers(name, namers[..n - 1]) + [Conflict(name, SourceName(namers[n - 2]), SourceName(namers[n - 1]))]
  }

  /** What is known about one name after some of the configurations. */
  ghost predicate NameMerged(name: string, namers: seq<nat>, configs: seq<Option<Config>>,
                             servers: map<string, Server>, sources: map<string, string>, conflicts: seq<Conflict>) {
    && RecordsFor(conflicts, name) == Handovers(name, namers)
    && (name in servers <==> namers != [])
    && (name in sources <==> namers != [])
    && (namers != [] ==>
          var last := namers[|namers| - 1];
          last < |configs| && Names(configs[last], name) &&
          servers[name] == configs[last].value.servers[name] && sources[name] == SourceName(last))
  }

  /** The namers before configuration `n`, and `n` itself once the name is done there. */
  ghost function NamersSoFar(configs: seq<Option<Config>>, n: nat, done: set<string>, name: string): seq<nat>
    requires n <= |configs|
  {
    Namers(configs[..n], name) + if name in done then [n] else []
  }

  /** The state of the merge part-way through configuration `n`, whose names in `done` have been visited. */
  ghost predicate Merging(configs: seq<Option<Config>>, n: nat, done: set<string>,
                          servers: map<string, Server>, sources: map<string, string>, conflicts: seq<Conflict>)
    requires n <= |configs|
  {
    forall name :: NameMerged(name, NamersSoFar(configs, n, done, name), configs, servers, sources, conflicts)
  }

  lemma RecordsForOther(conflicts: seq<Conflict>, c: Conflict, name: string)
    ensures RecordsFor(conflicts + [c], name) == RecordsFor(conflicts, name) + if c.server == name then [c] else []
  {
    assert (conflicts + [c])[..|conflicts|] == conflicts;
  }

  lemma HandoverNext(name: string, namers: seq<nat>, n: nat)
    ensures Handovers(name, namers + [n]) ==
            Handovers(name, namers) + if namers == [] then [] else [Conflict(name, SourceName(namers[|namers| - 1]), SourceName(n))]
  {
    assert (namers + [n])[..|namers|] == namers;
  }

  /** One iteration of the inner loop: a conflict record if the server exists, then the overwrite. */
  lemma VisitServer(configs: seq<Option<Config>>, n: nat, done: set<string>, servers: map<string, Server>,
                    sources: map<string, string>, conflicts: seq<Conflict>, name: string)
    requires n < |configs| && Names(configs[n], name) && name !in done
    requires Merging(configs, n, done, servers, sources, conflicts)
    ensures (name in servers <==> name in sources)
    ensures var conflicts' := if name in servers then conflicts + [Conflict(name, sources[name], SourceName(n))] else conflicts;
            Merging(configs, n, done + {name}, servers[name := configs[n].value.servers[name]], sources[name := SourceName(n)], conflicts')
  {
    var namers := NamersSoFar(configs, n, done, name);
    assert NameMerged(name, namers, configs, servers, sources, conflicts);
    var servers', sources' := servers[name := configs[n].value.servers[name]], sources[name := SourceName(n)];
    var conflicts' := if name in servers then conflicts + [Conflict(name, sources[name], SourceName(n))] else conflicts;
    HandoverNext(name, namers, n);
    assert NamersSoFar(configs, n, done + {name}, name) == namers + [n];
    forall other ensures NameMerged(other, NamersSoFar(configs, n, done + {name}, other), configs, servers', sources', conflicts') {
      if name in servers {
        RecordsForOther(conflicts, Conflict(name, sources[name], SourceName(n)), other);
      }
      if other != name {
        OtherUnchanged(configs, n, done, servers, sources, conflicts, servers', sources', conflicts', name, other);
      }
    }
  }

  lemma OtherUnchanged(configs: seq<Option<Config>>, n: nat, done: set<string>, servers: map<string, Server>, sources: map<string, string>,
                       conflicts: seq<Conflict>, servers': map<string, Server>, sources': map<string, string>, conflicts': seq<Conflict>,
                       name: string, other: string)
    requires n <= |configs| && other != name && Merging(configs, n, done, servers, sources, conflicts)
    requires other in servers' <==> other in servers
    requires other in sources' <==> other in sources
    requires other in servers ==> servers'[other] == servers[other]
    requires other in sources ==> sources'[other] == sources[other]
    requires RecordsFor(conflicts', other) == RecordsFor(conflicts, other)
    ensures NameMerged(other, NamersSoFar(configs, n, done + {name}, other), configs, servers', sources', conflicts')
  {
    assert NameMerged(other, NamersSoFar(configs, n, done, other), configs, servers, sources, conflicts);
    assert NamersSoFar(configs, n, done + {name}, other) == NamersSoFar(configs, n, done, other);
  }

  /** Moving on to the next configuration, once all names of this one are done. */
  lemma NextConfig(configs: seq<Option<Config>>, n: nat, done: set<string>, servers: map<string, Server>,
                   sources: map<string, string>, conflicts: seq<Conflict>)
    requires n < |configs| && done == (if configs[n].Some? then configs[n].value.servers.Keys else {})
    requires Merging(configs, n, done, servers, sources, conflicts)
    ensures Merging(configs, n + 1, {}, servers, sources, conflicts)
  {
    var next, none: set<string> := n + 1, {};
    forall name ensures NameMerged(name, NamersSoFar(configs, next, none, name), configs, servers, sources, conflicts) {
      assert configs[..next][..n] == configs[..n];
      assert NamersSoFar(configs, next, none, name) == NamersSoFar(configs, n, done, name);
      assert NameMerged(name, NamersSoFar(configs, n, done, name), configs, servers, sources, conflicts);
    }
  }

  ghost predicate IsMerge(configs: seq<Option<Config>>, m: Merged) {
    && (forall name :: name in m.servers <==> Namers(configs, name) != [])
    && (forall name :: name in m.servers ==>
          var namers := Namers(configs, name);
          var last := namers[|namers| - 1];
          last < |configs| && Names(configs[last], name) && m.servers[name] == configs[last].value.servers[name])
    && (forall name :: RecordsFor(m.conflicts, name) == Handovers(name, Namers(configs, name)))
    && |m.conflicts| + |m.servers| == ServerTotal(configs)
    && m.sourceCount == |configs| && m.totalServers == |m.servers|
  }

  ghost predicate Versioned(config: Option<Config>) {
    config.Some? && config.value.version != ""
  }

  /** The version and settings come from the first configuration with a version. */
  ghost predicate HeaderFrom(configs: seq<Option<Config>>, version: string, settings: Settings) {
    && (forall i :: 0 <= i < |configs| && Versioned(configs[i]) && (forall j :: 0 <= j < i ==> !Versioned(configs[j])) ==>
          version == configs[i].value.version && settings == configs[i].value.settings)
    && ((forall i :: 0 <= i < |configs| ==> !Versioned(configs[i])) ==>
          version == DEFAULT_VERSION && settings == Settings(0, Null))
  }

  method PickHeader(configs: seq<Option<Config>>) returns (version: string, settings: Settings)
    ensures HeaderFrom(configs, version, settings)
  {
    version, settings := DEFAULT_VERSION, Settings(0, Null);
    for i := 0 to |configs|
      invariant forall j :: 0 <= j < i ==> !Versioned(configs[j])
    {
      if configs[i].Some? && configs[i].value.version != "" {
        return configs[i].value.version, configs[i].value.settings;
      }
    }
  }

  /** Copied metadata: every entry but `conflicts`, later configurations over earlier ones. */
  function MetadataOf(configs: seq<Option<Config>>): map<string, Json> {
    if configs == [] then map[]
    else
      var last := configs[|configs| - 1];
      MetadataOf(configs[..|configs| - 1]) + if last.Some? then last.value.metadata - {"conflicts"} else map[]
  }

  lemma UpdatedSize<V>(m: map<string, V>, key: string, value: V)
    ensures |m[key := value]| == |m| + if key in m then 0 else 1
  {
    var keys := m[key := value].Keys;
    assert keys == m.Keys + {key};
    assert |m[key := value]| == |keys| && |m| == |m.Keys|;
  }

  /** The inner loop: the servers of configuration `n`, in any order. */
  method MergeServers(ghost configs: seq<Option<Config>>, config: Config, n: nat, servers0: map<string, Server>,
                      sources0: map<string, string>, conflicts0: seq<Conflict>)
    returns (servers: map<string, Server>, sources: map<string, string>, conflicts: seq<Conflict>)
    requires n < |configs| && configs[n] == Some(config)
    requires Merging(configs, n, {}, servers0, sources0, conflicts0)
    ensures Merging(configs, n + 1, {}, servers, sources, conflicts)
    ensures |conflicts| + |servers| == |conflicts0| + |servers0| + |config.servers|
  {
    servers, sources, conflicts := servers0, sources0, conflicts0;
    ghost var done: set<string> := {};
    var pending := config.servers.Keys;
    while pending != {}
      invariant pending <= config.servers.Keys && done == config.servers.Keys - pending
      invariant Merging(configs, n, done, servers, sources, conflicts)
      invariant |conflicts| + |servers| == |conflicts0| + |servers0| + |done|
      decreases |pending|
    {
      var name :| name in pending;
      VisitServer(configs, n, done, servers, sources, conflicts, name);
      UpdatedSize(servers, name, config.servers[name]);
      if name in servers {
        conflicts := conflicts + [Conflict(name, sources[name], SourceName(n))];
      }
      servers := servers[name := config.servers[name]];
      sources := sources[name := SourceName(n)];
      done := done + {name};
      pending := pending - {name};
    }
    NextConfig(configs, n, done, servers, sources, conflicts);
  }

  /** `None` is the error for an empty argument list; a nil configuration is `None` in the list. */
  method MergeConfigs(configs: seq<Option<Config>>) returns (merged: Option<Merged>)
    ensures merged.None? <==> configs == []
    ensures merged.Some? ==>
      && IsMerge(configs, merged.value)
      && HeaderFrom(configs, merged.value.version, merged.value.settings)
      && ((forall i :: 0 <= i < |configs| ==> configs[i].None?) ==> merged.value.version == "1.0.2" && merged.value.servers == map[])
      && merged.value.metadata == MetadataOf(configs)
  {
    if |configs| == 0 {
      return None;
    }
    var version, settings := PickHeader(configs);
    var servers: map<string, Server>, sources: map<string, string> := map[], map[];
    var conflicts: seq<Conflict>, metadata: map<string, Json> := [], map[];
    assert Merging(configs, 0, {}, servers, sources, conflicts);
    for n := 0 to |configs|
      invariant Merging(configs, n, {}, servers, sources, conflicts)
      invariant |conflicts| + |servers| == ServerTotal(configs[..n])
      invariant metadata == MetadataOf(configs[..n])
    {
      TotalsNext(configs, n);
      if configs[n].Some? {
        servers, sources, conflicts := MergeServers(configs, configs[n].value, n, servers, sources, conflicts);
        metadata := metadata + (configs[n].value.metadata - {"conflicts"});
      } else {
        NextConfig(configs, n, {}, servers, sources, conflicts);
      }
    }
    merged := Some(Merged(version, settings, servers, conflicts, metadata, |configs|, |servers|));
    assert configs[..|configs|] == configs;
    MergingDone(configs, merged.value, sources);
  }

  lemma TotalsNext(configs: seq<Option<Config>>, n: nat)
    requires n < |configs|
    ensures ServerTotal(configs[..n + 1]) == ServerTotal(configs[..n]) + if configs[n].Some? then |configs[n].value.servers| else 0
    ensures MetadataOf(configs[..n + 1]) ==
            if configs[n].Some? then MetadataOf(configs[..n]) + (configs[n].value.metadata - {"conflicts"}) else MetadataOf(configs[..n])
  {
    assert configs[..n + 1][..n] == configs[..n];
    assert MetadataOf(configs[..n]) + map[] == MetadataOf(configs[..n]);
  }

  lemma MergingDone(configs: seq<Option<Config>>, m: Merged, sources: map<string, string>)
    requires Merging(configs, |configs|, {}, m.servers, sources, m.conflicts)
    requires |m.conflicts| + |m.servers| == ServerTotal(configs)
    requires m.sourceCount == |configs| && m.totalServers == |m.servers|
    ensures IsMerge(configs, m)
  {
    forall name ensures NameMerged(name, Namers(configs, name), configs, m.servers, sources, m.conflicts) {
      AllNamers(configs, name);
      assert NameMerged(name, NamersSoFar(configs, |configs|, {}, name), configs, m.servers, sources, m.conflicts);
    }
  }

  lemma AllNamers(configs: seq<Option<Config>>, name: string)
    ensures NamersSoFar(configs, |configs|, {}, name) == Namers(configs, name)
  {
    assert configs[..|configs|] == configs && Namers(configs, name) + [] == Namers(configs, name);
  }

  // ---- Consequences ----

  /** The namers are exactly the configurations that name the server, in increasing order. */
  lemma {:induction false} NamersExact(configs: seq<Option<Config>>, name: string)
    ensures forall i :: i in Namers(configs, name) <==> 0 <= i < |configs| && Names(configs[i], name)
    ensures forall i, j :: 0 <= i < j < |Namers(configs, name)| ==> Namers(configs, name)[i] < Namers(configs, name)[j]
    decreases |configs|
  {
    if configs != [] {
      var n := |configs| - 1;
      NamersExact(configs[..n], name);
      var before := Namers(configs[..n], name);
      assert forall k :: 0 <= k < |before| ==> before[k] in before;
    }
  }

  /** The winner is the last configuration that names the server. */
  lemma LastOneWins(configs: seq<Option<Config>>, m: Merged, name: string, i: nat)
    requires IsMerge(configs, m)
    requires i < |configs| && configs[i].Some? && name in configs[i].value.servers
    requires forall j :: i < j < |configs| && configs[j].Some? ==> name !in configs[j].value.servers
    ensures name in m.servers && m.servers[name] == configs[i].value.servers[name]
  {
    NamersExact(configs, name);
    var namers := Namers(configs, name);
    assert i in namers;
    assert namers[|namers| - 1] in namers;
  }

  lemma {:induction false} HandoversChain(name: string, namers: seq<nat>)
    ensures |Handovers(name, namers)| == if |namers| < 2 then 0 else |namers| - 1
    ensures forall k :: 0 <= k < |Handovers(name, namers)| ==>
      Handovers(name, namers)[k] == Conflict(name, SourceName(namers[k]), SourceName(namers[k + 1]))
    decreases |namers|
  {
    if |namers| >= 2 {
      HandoversChain(name, namers[..|namers| - 1]);
    }
  }

  lemma HandoversLinked(name: string, namers: seq<nat>)
    requires forall i, j :: 0 <= i < j < |namers| ==> namers[i] < namers[j]
    ensures var records := Handovers(name, namers);
            && (forall k :: 0 <= k < |records| - 1 ==> records[k + 1].source == records[k].overriddenBy)
            && (forall k :: 0 <= k < |records| ==> records[k].source != records[k].overriddenBy)
  {
    HandoversChain(name, namers);
    forall k | 0 <= k < |namers| - 1 ensures SourceName(namers[k]) != SourceName(namers[k + 1]) {
      if SourceName(namers[k]) == SourceName(namers[k + 1]) {
        SourceNameInjective(namers[k], namers[k + 1]);
      }
    }
  }

  /** Each server's records form a chain: who was overridden is who overrode last. */
  lemma ConflictsChain(configs: seq<Option<Config>>, m: Merged, name: string)
    requires IsMerge(configs, m)
    ensures var records := RecordsFor(m.conflicts, name);
            && (forall k :: 0 <= k < |records| - 1 ==> records[k + 1].source == records[k].overriddenBy)
            && (forall k :: 0 <= k < |records| ==> records[k].source != records[k].overriddenBy)
            && (name in m.servers ==> |records| == |Namers(configs, name)| - 1)
  {
    NamersExact(configs, name);
    HandoversLinked(name, Namers(configs, name));
    HandoversChain(name, Namers(configs, name));
  }

  // ---- Spelled out ----

  /** The configurations that have a server of this name, by increasing position. */
  ghost predicate Having(configs: seq<Option<Config>>, name: string, positions: seq<nat>) {
    && (forall i, j :: 0 <= i < j < |positions| ==> positions[i] < positions[j])
    && (forall p :: p in positions <==> 0 <= p < |configs| && configs[p].Some? && name in configs[p].value.servers)
  }

  lemma {:induction false} IncreasingUnique(a: seq<nat>, b: seq<nat>)
    requires forall i, j :: 0 <= i < j < |a| ==> a[i] < a[j]
    requires forall i, j :: 0 <= i < j < |b| ==> b[i] < b[j]
    requires forall p :: p in a <==> p in b
    ensures a == b
    decreases |a|
  {
    LastIsMember(a);
    LastIsMember(b);
    if a != [] {
      assert a[|a| - 1] == b[|b| - 1];
      AllButLast(a);
      AllButLast(b);
      var x, y := a[..|a| - 1], b[..|b| - 1];
      forall p ensures p in x <==> p in y {
        assert p in a <==> p in b;
      }
      IncreasingUnique(x, y);
    }
  }

  lemma LastIsMember(a: seq<nat>)
    ensures a != [] ==> a[|a| - 1] in a
  {
  }

  lemma AllButLast(a: seq<nat>)
    requires a != [] && forall i, j :: 0 <= i < j < |a| ==> a[i] < a[j]
    ensures a == a[..|a| - 1] + [a[|a| - 1]]
    ensures forall p :: p in a[..|a| - 1] <==> p in a && p != a[|a| - 1]
  {
  }

  lemma HavingIsNamers(configs: seq<Option<Config>>, name: string, positions: seq<nat>)
    requires Having(configs, name, positions)
    ensures positions == Namers(configs, name)
  {
    NamersExact(configs, name);
    IncreasingUnique(Namers(configs, name), positions);
  }

  /** The header is that of the first configuration whose version is not empty; without one it is the default. */
  lemma HeaderOfFirst(configs: seq<Option<Config>>, version: string, settings: Settings, i: nat)
    requires HeaderFrom(configs, version, settings) && i <= |configs|
    requires forall j :: 0 <= j < i && configs[j].Some? ==> configs[j].value.version == ""
    ensures i < |configs| && configs[i].Some? && configs[i].value.version != "" ==>
              version == configs[i].value.version && settings == configs[i].value.settings
    ensures i == |configs| ==> version == "1.0.2" && settings == Settings(0, Null)
  {
  }

  /** A merged server comes from some configuration. */
  lemma MergedFromSome(configs: seq<Option<Config>>, m: Merged, name: string)
    requires IsMerge(configs, m) && name in m.servers
    ensures exists i :: 0 <= i < |configs| && configs[i].Some? && name in configs[i].value.servers
  {
    NamersExact(configs, name);
    var namers := Namers(configs, name);
    assert namers[|namers| - 1] in namers;
  }

  lemma MergedRecords(configs: seq<Option<Config>>, m: Merged, name: string)
    requires IsMerge(configs, m)
    ensures RecordsFor(m.conflicts, name) == Handovers(name, Namers(configs, name))
  {
  }

  /** Each of these configurations overrides the one before, under their numbers from one on. */
  ghost predicate HandedOver(records: seq<Conflict>, name: string, positions: seq<nat>) {
    && |records| == (if positions == [] then 0 else |positions| - 1)
    && forall k :: 0 <= k < |records| ==>
         records[k] == Conflict(name, "config-" + Decimal(positions[k] + 1), "config-" + Decimal(positions[k + 1] + 1))
  }

  lemma HandoversSpelled(name: string, positions: seq<nat>)
    ensures HandedOver(Handovers(name, positions), name, positions)
  {
    HandoversChain(name, positions);
  }

  /** A server's records, in the order they were made, go through the configurations that have it. */
  lemma RecordsExactly(configs: seq<Option<Config>>, m: Merged, name: string, positions: seq<nat>)
    requires IsMerge(configs, m) && Having(configs, name, positions)
    ensures HandedOver(RecordsFor(m.conflicts, name), name, positions)
  {
    HavingIsNamers(configs, name, positions);
    MergedRecords(configs, m, name);
    HandoversSpelled(name, positions);
  }

  /** The records about one server are those of the whole list that name it ... */
  lemma {:induction false} RecordsAreAll(conflicts: seq<Conflict>, name: string)
    ensures forall c :: c in RecordsFor(conflicts, name) <==> c in conflicts && c.server == name
    decreases |conflicts|
  {
    if conflicts != [] {
      var init, last := conflicts[..|conflicts| - 1], conflicts[|conflicts| - 1];
      assert conflicts == init + [last];
      RecordsAreAll(init, name);
    }
  }

  /** ... in the same order. */
  lemma {:induction false} RecordsInOrder(a: seq<Conflict>, b: seq<Conflict>, name: string)
    ensures RecordsFor(a + b, name) == RecordsFor(a, name) + RecordsFor(b, name)
    decreases |b|
  {
    if b == [] {
      assert a + b == a;
    } else {
      assert (a + b)[..|a + b| - 1] == a + b[..|b| - 1];
      RecordsInOrder(a, b[..|b| - 1], name);
    }
  }

  /** Metadata is copied except for the key `conflicts`; whose value stays is said below. */
  lemma {:induction false} MetadataExactly(configs: seq<Option<Config>>, key: string)
    ensures "conflicts" !in MetadataOf(configs)
    ensures key in MetadataOf(configs) <==>
              key != "conflicts" && exists i :: 0 <= i < |configs| && configs[i].Some? && key in configs[i].value.metadata
    decreases |configs|
  {
    if configs != [] {
      MetadataExactly(configs[..|configs| - 1], key);
    }
  }

  /** Of several configurations with a key, the last one's value stays. */
  lemma {:induction false} MetadataOfLast(configs: seq<Option<Config>>, key: string, i: nat)
    requires key != "conflicts" && i < |configs| && configs[i].Some? && key in configs[i].value.metadata
    requires forall j :: i < j < |configs| && configs[j].Some? ==> key !in configs[j].value.metadata
    ensures key in MetadataOf(configs) && MetadataOf(configs)[key] == configs[i].value.metadata[key]
    decreases |configs|
  {
    if i < |configs| - 1 {
      MetadataOfLast(configs[..|configs| - 1], key, i);
    }
  }
}
