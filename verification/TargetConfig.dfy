/** Generating a target's configuration document. */
module TargetConfig {
  // The project-nested form merges into an existing document. Maps are visited in any order,
  // so where two servers end up under one name the survivor is arbitrary.

  import opened Common
  import opened Types
  import opened Text

  type Servers = map<string, Server>
  type Fields = map<string, Json>

  // ---- Names, JSON, eligibility ----

  predicate IsSpace(c: char) {
    c == ' ' || '\t' <= c <= '\r' || c == '\U{85}' || c == '\U{A0}'
  }

  function TrimSpaceLeft(s: string): string {
    if s != "" && IsSpace(s[0]) then TrimSpaceLeft(s[1..]) else s
  }

  function TrimSpaceRight(s: string): string {
    if s != "" && IsSpace(s[|s| - 1]) then TrimSpaceRight(s[..|s| - 1]) else s
  }

  function SanitizeServerName(name: string): string {
    ReplaceAll(TrimSpaceRight(TrimSpaceLeft(name)), " ", "-")
  }

  type NameRule = string -> string

  /** The name a server is written under: sanitized if the target requires it. */
  function FinalName(sanitize: bool): NameRule {
    name => if sanitize then SanitizeServerName(name) else name
  }

  /** How a server configuration is written as JSON. */
  type Encoding = ServerConfig -> Json

  predicate ShouldSync(server: Server, target: string) {
    && target !in server.internal.excludeFromTargets
    && ("all" in server.internal.syncTargets || target in server.internal.syncTargets)
  }

  /** Exclusions win over inclusions, and `all` includes every target. */
  method ShouldSyncToTarget(server: Server, target: string) returns (r: bool)
    ensures r <==> ShouldSync(server, target)
  {
    var excluded := server.internal.excludeFromTargets;
    for i := 0 to |excluded|
      invariant target !in excluded[..i]
    {
      if excluded[i] == target {
        return false;
      }
    }
    var included := server.internal.syncTargets;
    for i := 0 to |included|
      invariant target !in included[..i] && "all" !in included[..i]
    {
      if included[i] == "all" || included[i] == target {
        return true;
      }
    }
    return false;
  }

  predicate InGlobal(server: Server, target: string) {
    !server.internal.projectSpecific && server.internal.enabled && ShouldSync(server, target)
  }

  /** Project sections check neither the enabled flag nor the target lists. */
  predicate InProject(server: Server, path: string) {
    server.internal.projectSpecific && server.internal.projectPath == path
  }

  // ---- Sections ----

  /** Every selected server is present under its final name, and nothing else is. */
  ghost predicate IsSection(selected: Fields, rule: NameRule, section: Fields) {
    && (forall name :: name in selected ==> rule(name) in section)
    && (forall key :: key in section ==> exists name :: name in selected && rule(name) == key && section[key] == selected[name])
  }

  /** Servers that end up under one name have the same JSON. */
  ghost predicate NoCollision(selected: Fields, rule: NameRule) {
    forall a, b :: a in selected && b in selected && rule(a) == rule(b) ==> selected[a] == selected[b]
  }

  lemma SectionUnique(selected: Fields, rule: NameRule, s1: Fields, s2: Fields)
    requires NoCollision(selected, rule)
    requires IsSection(selected, rule, s1) && IsSection(selected, rule, s2)
    ensures s1 == s2
  {
    forall key ensures key in s1 <==> key in s2 {
      if key in s1 {
        EntryUnique(selected, rule, s1, s2, key);
      }
      if key in s2 {
        EntryUnique(selected, rule, s2, s1, key);
      }
    }
    forall key | key in s1 ensures s1[key] == s2[key] {
      EntryUnique(selected, rule, s1, s2, key);
    }
  }

  lemma EntryUnique(selected: Fields, rule: NameRule, s1: Fields, s2: Fields, key: string)
    requires NoCollision(selected, rule) && key in s1
    requires IsSection(selected, rule, s1) && IsSection(selected, rule, s2)
    ensures key in s2 && s2[key] == s1[key]
  {
    var a :| a in selected && rule(a) == key && s1[key] == selected[a];
    var b :| b in selected && rule(b) == key && s2[key] == selected[b];
  }

  lemma SectionChoice(selected: Fields, rule: NameRule, section: Fields, name: string)
    requires IsSection(selected, rule, section) && name in selected
    ensures IsSection(selected, rule, section[rule(name) := selected[name]])
  {
    var section' := section[rule(name) := selected[name]];
    forall key | key in section' ensures exists n :: n in selected && rule(n) == key && section'[key] == selected[n] {
      if key != rule(name) {
        var n :| n in selected && rule(n) == key && section[key] == selected[n];
        assert section'[key] == section[key];
      }
    }
  }

  // ---- Sections and iteration orders ----

  /** What the loop over the servers builds when it visits them in this order; the last writer of a name wins. */
  function SectionInOrder(selected: Fields, rule: NameRule, order: seq<string>): Fields {
    if order == [] then map[]
    else
      var before, last := SectionInOrder(selected, rule, order[..|order| - 1]), order[|order| - 1];
      if last in selected then before[rule(last) := selected[last]] else before
  }

  lemma SectionNext(selected: Fields, rule: NameRule, order: seq<string>, name: string)
    ensures SectionInOrder(selected, rule, order + [name]) ==
            var before := SectionInOrder(selected, rule, order);
            if name in selected then before[rule(name) := selected[name]] else before
  {
    assert (order + [name])[..|order|] == order;
  }

  function Among(selected: Fields, names: seq<string>): Fields {
    map n | n in selected && n in names :: selected[n]
  }

  lemma AmongNext(selected: Fields, init: seq<string>, last: string)
    ensures Among(selected, init + [last]) ==
            if last in selected then Among(selected, init)[last := selected[last]] else Among(selected, init)
    ensures last !in init ==> last !in Among(selected, init)
  {
  }

  lemma SectionAdd(selected: Fields, rule: NameRule, section: Fields, name: string, json: Json)
    requires IsSection(selected, rule, section) && name !in selected
    ensures IsSection(selected[name := json], rule, section[rule(name) := json])
  {
    var selected', section' := selected[name := json], section[rule(name) := json];
    forall key | key in section' ensures exists n :: n in selected' && rule(n) == key && section'[key] == selected'[n] {
      if key == rule(name) {
        assert name in selected';
      } else {
        var n :| n in selected && rule(n) == key && section[key] == selected[n];
        assert n in selected' && selected'[n] == selected[n];
      }
    }
  }

  /** Any order builds a section of the servers it visits ... */
  lemma {:induction false} OrderMakesSection(selected: Fields, rule: NameRule, order: seq<string>)
    requires forall i, j :: 0 <= i < j < |order| ==> order[i] != order[j]
    ensures IsSection(Among(selected, order), rule, SectionInOrder(selected, rule, order))
    decreases |order|
  {
    if order != [] {
      var init, last := order[..|order| - 1], order[|order| - 1];
      assert order == init + [last] && last !in init;
      OrderMakesSection(selected, rule, init);
      AmongNext(selected, init, last);
      SectionNext(selected, rule, init, last);
      if last in selected {
        SectionAdd(Among(selected, init), rule, SectionInOrder(selected, rule, init), last, selected[last]);
      }
    }
  }

  /** ... and any section is built by some order: the winner of each name can come last. */
  lemma {:induction false} SectionHasOrder(selected: Fields, rule: NameRule, section: Fields, names: set<string>) returns (order: seq<string>)
    requires IsSection(selected, rule, section) && selected.Keys <= names
    ensures IsOrdering(order, names) && SectionInOrder(selected, rule, order) == section
    decreases |names|
  {
    if names == {} {
      order := [];
    } else if name :| name in names && name !in selected {
      assert selected - {name} == selected;
      var init := SectionHasOrder(selected, rule, section, names - {name});
      order := LastVisit(selected, rule, init, names, name);
    } else {
      assert selected != map[];
      var winner, rest := SplitWinner(selected, rule, section);
      var init := SectionHasOrder(selected - {winner}, rule, rest, names - {winner});
      order := LastVisit(selected, rule, init, names, winner);
    }
  }

  /** Visiting one more name after an order of the others. */
  lemma LastVisit(selected: Fields, rule: NameRule, init: seq<string>, names: set<string>, name: string) returns (order: seq<string>)
    requires name in names && IsOrdering(init, names - {name})
    ensures IsOrdering(order, names)
    ensures SectionInOrder(selected, rule, order) ==
            var before := SectionInOrder(selected - {name}, rule, init);
            if name in selected then before[rule(name) := selected[name]] else before
  {
    order := init + [name];
    OrderingNext(init, names - {name}, name, names);
    OthersDoNotShow(selected, rule, init, name);
    SectionNext(selected, rule, init, name);
  }

  /** A server that wins its name, and a section of the others that its write turns into this one. */
  lemma SplitWinner(selected: Fields, rule: NameRule, section: Fields) returns (winner: string, rest: Fields)
    requires IsSection(selected, rule, section) && selected != map[]
    ensures winner in selected && IsSection(selected - {winner}, rule, rest) && rest[rule(winner) := selected[winner]] == section
  {
    var some :| some in selected;
    var key := rule(some);
    winner :| winner in selected && rule(winner) == key && section[key] == selected[winner];
    var others := selected - {winner};
    if a :| a in others && rule(a) == key {
      rest := section[key := selected[a]];
    } else {
      rest := section - {key};
    }
    forall k | k in rest ensures exists n :: n in others && rule(n) == k && rest[k] == others[n] {
      if k != key {
        var n :| n in selected && rule(n) == k && section[k] == selected[n];
        assert n in others;
      }
    }
  }

  lemma {:induction false} OthersDoNotShow(selected: Fields, rule: NameRule, order: seq<string>, other: string)
    requires other !in order
    ensures SectionInOrder(selected - {other}, rule, order) == SectionInOrder(selected, rule, order)
    decreases |order|
  {
    if order != [] {
      OthersDoNotShow(selected, rule, order[..|order| - 1], other);
    }
  }

  // ---- Which servers go where ----

  /** Which of the configuration's servers a section is made of. */
  datatype Selection = Global(target: string) | Flat(target: string) | Project(path: string) {
    predicate Wants(server: Server) {
      match this
      case Global(target) => InGlobal(server, target)
      case Flat(target) => server.internal.enabled && ShouldSync(server, target)
      case Project(path) => InProject(server, path)
    }
  }

  method IsWanted(server: Server, selection: Selection) returns (wanted: bool)
    ensures wanted <==> selection.Wants(server)
  {
    match selection
    case Global(target) =>
      if server.internal.projectSpecific || !server.internal.enabled {
        return false;
      }
      wanted := ShouldSyncToTarget(server, target);
    case Flat(target) =>
      if !server.internal.enabled {
        return false;
      }
      wanted := ShouldSyncToTarget(server, target);
    case Project(path) =>
      wanted := server.internal.projectSpecific && server.internal.projectPath == path;
  }

  /** The project paths of a document that have a section to update. */
  function ProjectsOf(document: Fields): Fields {
    if PROJECTS in document && document[PROJECTS].Obj? then document[PROJECTS].fields else map[]
  }

  /** The existing document with new servers and, where there are projects, new projects. */
  function Assemble(before: Fields, section: Fields, projects: Fields): Fields {
    var result := before[SERVERS := Obj(section)];
    if PROJECTS in before && before[PROJECTS].Obj? then result[PROJECTS := Obj(projects)] else result
  }

  /** A project's servers are replaced only if there are any for it. */
  function ProjectInOrder(selected: Fields, rule: NameRule, project: Json, order: seq<string>): Json {
    var section := SectionInOrder(selected, rule, order);
    if project.Obj? && section != map[] then Obj(project.fields[SERVERS := Obj(section)]) else project
  }

  /** What a target's documents are generated from. */
  datatype Generator = Generator(servers: Servers, target: string, encode: Encoding, rule: NameRule)
  {
    /** The servers that belong in a section, under their own names. */
    function Selected(selection: Selection): Fields {
      map name | name in servers && selection.Wants(servers[name]) :: encode(servers[name].config)
    }

    /** One order for the global loop, and one for the loop of each project. */
    ghost predicate Ordered(before: Fields, order: seq<string>, orders: map<string, seq<string>>) {
      && IsOrdering(order, servers.Keys)
      && orders.Keys == ProjectsOf(before).Keys
      && forall path :: path in orders ==> IsOrdering(orders[path], servers.Keys)
    }

    function ProjectsInOrder(projects: Fields, orders: map<string, seq<string>>): Fields
      requires orders.Keys == projects.Keys
    {
      map path | path in projects :: ProjectInOrder(Selected(Project(path)), rule, projects[path], orders[path])
    }

    function NestedInOrder(before: Fields, order: seq<string>, orders: map<string, seq<string>>): Fields
      requires orders.Keys == ProjectsOf(before).Keys
    {
      Assemble(before, SectionInOrder(Selected(Global(target)), rule, order), ProjectsInOrder(ProjectsOf(before), orders))
    }

    /** Some iteration orders turn the existing document into this one. */
    ghost predicate Makes(before: Fields, after: Fields) {
      exists order, orders :: Ordered(before, order, orders) && after == NestedInOrder(before, order, orders)
    }
  }

  /** One of the generators' loops over all servers, in an arbitrary order. */
  method CollectSection(g: Generator, selection: Selection) returns (section: Fields, ghost order: seq<string>)
    ensures IsOrdering(order, g.servers.Keys)
    ensures section == SectionInOrder(g.Selected(selection), g.rule, order)
  {
    section, order := map[], [];
    var pending := g.servers.Keys;
    while pending != {}
      invariant pending <= g.servers.Keys
      invariant IsOrdering(order, g.servers.Keys - pending)
      invariant section == SectionInOrder(g.Selected(selection), g.rule, order)
      decreases |pending|
    {
      var name :| name in pending;
      var server := g.servers[name];
      var wanted := IsWanted(server, selection);
      SectionNext(g.Selected(selection), g.rule, order, name);
      if wanted {
        section := section[g.rule(name) := g.encode(server.config)];
      }
      OrderingNext(order, g.servers.Keys - pending, name, g.servers.Keys - (pending - {name}));
      order := order + [name];
      pending := pending - {name};
    }
  }

  /** The sections that the loop can build are exactly those with some server's entry under each name. */
  lemma SectionsExactly(g: Generator, selection: Selection, section: Fields)
    ensures (exists order :: IsOrdering(order, g.servers.Keys) && section == SectionInOrder(g.Selected(selection), g.rule, order))
            <==> IsSection(g.Selected(selection), g.rule, section)
  {
    var selected := g.Selected(selection);
    forall order | IsOrdering(order, g.servers.Keys) ensures IsSection(selected, g.rule, SectionInOrder(selected, g.rule, order)) {
      OrderMakesSection(selected, g.rule, order);
      assert Among(selected, order) == selected;
    }
    if IsSection(selected, g.rule, section) {
      var order := SectionHasOrder(selected, g.rule, section, g.servers.Keys);
    }
  }

  // ---- The project-nested document ----

  const SERVERS := "mcpServers"
  const PROJECTS := "projects"

  ghost predicate ProjectUpdated(selected: Fields, rule: NameRule, before: Json, after: Json) {
    if !before.Obj? || selected == map[] then after == before
    else
      && after.Obj? && SERVERS in after.fields && after.fields[SERVERS].Obj?
      && after.fields == before.fields[SERVERS := after.fields[SERVERS]]
      && IsSection(selected, rule, after.fields[SERVERS].fields)
  }

  ghost predicate ProjectsUpdated(g: Generator, before: Fields, after: Fields) {
    && after.Keys == before.Keys
    && forall path :: path in before ==> ProjectUpdated(g.Selected(Project(path)), g.rule, before[path], after[path])
  }

  /** What the generated document owes to the servers and what it keeps of the existing one. */
  ghost predicate IsNested(g: Generator, before: Fields, after: Fields) {
    && after.Keys == before.Keys + {SERVERS}
    && (forall key :: key in before && key != SERVERS && key != PROJECTS ==> after[key] == before[key])
    && after[SERVERS].Obj? && IsSection(g.Selected(Global(g.target)), g.rule, after[SERVERS].fields)
    && (PROJECTS in before ==>
          if before[PROJECTS].Obj?
          then after[PROJECTS].Obj? && ProjectsUpdated(g, before[PROJECTS].fields, after[PROJECTS].fields)
          else after[PROJECTS] == before[PROJECTS])
  }

  datatype ExistingFile = Absent | Unparsable | Parsed(document: Json)

  method UpdateProject(g: Generator, path: string, project: Json) returns (updated: Json, ghost order: seq<string>)
    ensures IsOrdering(order, g.servers.Keys)
    ensures updated == ProjectInOrder(g.Selected(Project(path)), g.rule, project, order)
  {
    updated := project;
    if project.Obj? {
      var section;
      section, order := CollectSection(g, Project(path));
      if |section| > 0 {
        updated := Obj(project.fields[SERVERS := Obj(section)]);
      }
    } else {
      order := SomeOrdering(g.servers.Keys);
    }
  }

  /** The projects visited so far are updated in some order each, the others are as they were. */
  ghost predicate Updating(g: Generator, projects: Fields, updated: Fields, orders: map<string, seq<string>>) {
    && updated.Keys == projects.Keys && orders.Keys <= projects.Keys
    && (forall path :: path in orders ==> IsOrdering(orders[path], g.servers.Keys))
    && forall path :: path in projects ==>
         updated[path] == if path in orders then ProjectInOrder(g.Selected(Project(path)), g.rule, projects[path], orders[path]) else projects[path]
  }

  lemma UpdatingNext(g: Generator, projects: Fields, updated: Fields, orders: map<string, seq<string>>,
                     path: string, project: Json, order: seq<string>)
    requires Updating(g, projects, updated, orders) && path in projects && path !in orders
    requires IsOrdering(order, g.servers.Keys) && project == ProjectInOrder(g.Selected(Project(path)), g.rule, projects[path], order)
    ensures Updating(g, projects, updated[path := project], orders[path := order])
  {
    var updated', orders' := updated[path := project], orders[path := order];
    forall p | p in projects
      ensures updated'[p] == if p in orders' then ProjectInOrder(g.Selected(Project(p)), g.rule, projects[p], orders'[p]) else projects[p]
    {
      if p != path {
        assert updated'[p] == updated[p];
      }
    }
  }

  lemma UpdatingDone(g: Generator, projects: Fields, updated: Fields, orders: map<string, seq<string>>)
    requires Updating(g, projects, updated, orders) && forall path :: path in projects ==> path in orders
    ensures orders.Keys == projects.Keys && (forall path :: path in orders ==> IsOrdering(orders[path], g.servers.Keys))
    ensures updated == g.ProjectsInOrder(projects, orders)
  {
    assert orders.Keys == projects.Keys;
    forall path | path in projects ensures updated[path] == g.ProjectsInOrder(projects, orders)[path] {
    }
  }

  method UpdateProjects(g: Generator, projects: Fields) returns (updated: Fields, ghost orders: map<string, seq<string>>)
    ensures orders.Keys == projects.Keys && (forall path :: path in orders ==> IsOrdering(orders[path], g.servers.Keys))
    ensures updated == g.ProjectsInOrder(projects, orders)
  {
    updated, orders := projects, map[];
    var pending := projects.Keys;
    while pending != {}
      invariant pending <= projects.Keys && forall path :: path in projects ==> (path in orders <==> path !in pending)
      invariant Updating(g, projects, updated, orders)
      decreases |pending|
    {
      var path :| path in pending;
      var project;
      ghost var order;
      project, order := UpdateProject(g, path, projects[path]);
      UpdatingNext(g, projects, updated, orders, path, project, order);
      updated := updated[path := project];
      orders := orders[path := order];
      pending := pending - {path};
    }
    UpdatingDone(g, projects, updated, orders);
  }

  /**
   `None` is the panic on assigning into the nil map that a file leaves behind which is not a
   JSON object. Otherwise the document is the file's, with new servers.
   */
  method GenerateProjectNested(g: Generator, file: ExistingFile) returns (doc: Option<Fields>)
    ensures file.Absent? ==> doc.Some? && g.Makes(map[], doc.value)
    ensures file.Parsed? && file.document.Obj? ==> doc.Some? && g.Makes(file.document.fields, doc.value)
    ensures file.Unparsable? || (file.Parsed? && !file.document.Obj?) ==> doc.None?
    ensures doc.Some? ==> doc.value.Keys == (if file.Parsed? && file.document.Obj? then file.document.fields.Keys else {}) + {"mcpServers"}
    ensures file.Parsed? && file.document.Obj? ==> forall key :: key in file.document.fields && key != "mcpServers" && key != "projects" ==>
              key in doc.value && doc.value[key] == file.document.fields[key]
  {
    var existing: Option<Fields>;
    match file {
      case Absent => existing := Some(map[]);
      case Unparsable => existing := None;
      case Parsed(document) => existing := if document.Obj? then Some(document.fields) else None;
    }
    ghost var order, orders := [], map[];
    var section;
    section, order := CollectSection(g, Global(g.target));
    if existing.None? {
      return None;
    }
    var result := existing.value[SERVERS := Obj(section)];
    if PROJECTS in result && result[PROJECTS].Obj? {
      var projects;
      projects, orders := UpdateProjects(g, result[PROJECTS].fields);
      result := result[PROJECTS := Obj(projects)];
    }
    assert g.Ordered(existing.value, order, orders) && result == g.NestedInOrder(existing.value, order, orders);
    return Some(result);
  }

  /** The flat form starts from nothing and takes every enabled, eligible server. */
  method GenerateFlat(g: Generator) returns (doc: Fields)
    ensures doc.Keys == {SERVERS} && doc[SERVERS].Obj?
    ensures IsSection(g.Selected(Flat(g.target)), g.rule, doc[SERVERS].fields)
  {
    var section;
    ghost var order;
    section, order := CollectSection(g, Flat(g.target));
    SectionsExactly(g, Flat(g.target), section);
    doc := map[SERVERS := Obj(section)];
  }

  // ---- What the orders can make ----

  lemma ProjectsExactly(g: Generator, path: string, before: Json, after: Json)
    ensures (exists order :: IsOrdering(order, g.servers.Keys) && after == ProjectInOrder(g.Selected(Project(path)), g.rule, before, order))
            <==> ProjectUpdated(g.Selected(Project(path)), g.rule, before, after)
  {
    var selected := g.Selected(Project(path));
    forall order | IsOrdering(order, g.servers.Keys)
      ensures ProjectUpdated(selected, g.rule, before, ProjectInOrder(selected, g.rule, before, order))
    {
      SectionsExactly(g, Project(path), SectionInOrder(selected, g.rule, order));
      EmptySection(selected, g.rule, SectionInOrder(selected, g.rule, order));
    }
    if ProjectUpdated(selected, g.rule, before, after) {
      var order := OrderForProject(g, path, before, after);
    }
  }

  lemma EmptySection(selected: Fields, rule: NameRule, section: Fields)
    requires IsSection(selected, rule, section)
    ensures section == map[] <==> selected == map[]
  {
    if name :| name in selected {
      assert rule(name) in section;
    }
    if key :| key in section {
      assert exists name :: name in selected && rule(name) == key && section[key] == selected[name];
    }
  }

  lemma OrderForProject(g: Generator, path: string, before: Json, after: Json) returns (order: seq<string>)
    requires ProjectUpdated(g.Selected(Project(path)), g.rule, before, after)
    ensures IsOrdering(order, g.servers.Keys) && after == ProjectInOrder(g.Selected(Project(path)), g.rule, before, order)
  {
    var selected := g.Selected(Project(path));
    if !before.Obj? || selected == map[] {
      order := SomeOrdering(g.servers.Keys);
      SectionsExactly(g, Project(path), SectionInOrder(selected, g.rule, order));
      EmptySection(selected, g.rule, SectionInOrder(selected, g.rule, order));
    } else {
      var section := after.fields[SERVERS].fields;
      order := SectionHasOrder(selected, g.rule, section, g.servers.Keys);
      EmptySection(selected, g.rule, section);
    }
  }

  ghost function OrderFor(g: Generator, path: string, before: Json, after: Json): (order: seq<string>)
    requires ProjectUpdated(g.Selected(Project(path)), g.rule, before, after)
    ensures IsOrdering(order, g.servers.Keys) && after == ProjectInOrder(g.Selected(Project(path)), g.rule, before, order)
  {
    ProjectsExactly(g, path, before, after);
    var order :| IsOrdering(order, g.servers.Keys) && after == ProjectInOrder(g.Selected(Project(path)), g.rule, before, order);
    order
  }

  /** The documents that some iteration orders make are exactly those that owe and keep what they should. */
  lemma MakesExactly(g: Generator, before: Fields, after: Fields)
    ensures g.Makes(before, after) <==> IsNested(g, before, after)
  {
    if order, orders :| g.Ordered(before, order, orders) && after == g.NestedInOrder(before, order, orders) {
      MadeIsNested(g, before, order, orders);
    }
    if IsNested(g, before, after) {
      NestedIsMade(g, before, after);
    }
  }

  lemma MadeIsNested(g: Generator, before: Fields, order: seq<string>, orders: map<string, seq<string>>)
    requires g.Ordered(before, order, orders)
    ensures IsNested(g, before, g.NestedInOrder(before, order, orders))
  {
    var after, projects := g.NestedInOrder(before, order, orders), ProjectsOf(before);
    SectionsExactly(g, Global(g.target), SectionInOrder(g.Selected(Global(g.target)), g.rule, order));
    var updated := g.ProjectsInOrder(projects, orders);
    assert ProjectsUpdated(g, projects, updated) by {
      forall path | path in projects ensures ProjectUpdated(g.Selected(Project(path)), g.rule, projects[path], updated[path]) {
        ProjectsExactly(g, path, projects[path], updated[path]);
      }
    }
    assert after[SERVERS] == Obj(SectionInOrder(g.Selected(Global(g.target)), g.rule, order));
  }

  lemma NestedIsMade(g: Generator, before: Fields, after: Fields)
    requires IsNested(g, before, after)
    ensures g.Makes(before, after)
  {
    var section := after[SERVERS].fields;
    var order := SectionHasOrder(g.Selected(Global(g.target)), g.rule, section, g.servers.Keys);
    var projects := ProjectsOf(before);
    var updated := if PROJECTS in before && before[PROJECTS].Obj? then after[PROJECTS].fields else map[];
    assert ProjectsUpdated(g, projects, updated);
    var orders := map path | path in projects :: OrderFor(g, path, projects[path], updated[path]);
    assert g.ProjectsInOrder(projects, orders) == updated;
    NestedIsAssembled(g, before, after, updated);
    assert g.Ordered(before, order, orders) && after == g.NestedInOrder(before, order, orders);
  }

  lemma NestedIsAssembled(g: Generator, before: Fields, after: Fields, updated: Fields)
    requires IsNested(g, before, after)
    requires updated == if PROJECTS in before && before[PROJECTS].Obj? then after[PROJECTS].fields else map[]
    ensures after == Assemble(before, after[SERVERS].fields, updated)
  {
    var document := Assemble(before, after[SERVERS].fields, updated);
    assert document.Keys == after.Keys;
    forall key | key in after ensures after[key] == document[key] {
    }
  }

  // ---- The fixed point ----

  /** No collision among the global servers, nor in any listed project that is an object. */
  ghost predicate Determined(g: Generator, before: Fields) {
    && NoCollision(g.Selected(Global(g.target)), g.rule)
    && forall path :: path in ProjectsOf(before) && ProjectsOf(before)[path].Obj? ==>
         NoCollision(g.Selected(Project(path)), g.rule)
  }

  lemma ProjectStable(selected: Fields, rule: NameRule, before: Json, once: Json, twice: Json)
    requires before.Obj? ==> NoCollision(selected, rule)
    requires ProjectUpdated(selected, rule, before, once) && ProjectUpdated(selected, rule, once, twice)
    ensures twice == once
  {
    if before.Obj? && selected != map[] {
      SectionUnique(selected, rule, once.fields[SERVERS].fields, twice.fields[SERVERS].fields);
      assert twice.fields == once.fields[SERVERS := once.fields[SERVERS]] == once.fields;
    }
  }

  /** Without collisions, generating from the generated document changes nothing, in whatever order. */
  lemma GenerationIsFixedPoint(g: Generator, before: Fields, once: Fields, twice: Fields)
    requires Determined(g, before)
    requires IsNested(g, before, once) && IsNested(g, once, twice)
    ensures twice == once
  {
    SectionUnique(g.Selected(Global(g.target)), g.rule, once[SERVERS].fields, twice[SERVERS].fields);
    if PROJECTS in before && before[PROJECTS].Obj? {
      var b, o, t := before[PROJECTS].fields, once[PROJECTS].fields, twice[PROJECTS].fields;
      forall path | path in o ensures t[path] == o[path] {
        ProjectStable(g.Selected(Project(path)), g.rule, b[path], o[path], t[path]);
      }
      assert t == o;
    }
    forall key | key in once ensures twice[key] == once[key] {
    }
  }

  /** With a collision, some two runs disagree: the second can pick the other server. */
  lemma CollisionBreaksFixedPoint(g: Generator, before: Fields, once: Fields)
      returns (first: Fields, second: Fields)
    requires !Determined(g, before)
    requires IsNested(g, before, once)
    ensures IsNested(g, before, first) && IsNested(g, first, second)
    ensures second != first
  {
    var selected := g.Selected(Global(g.target));
    if !NoCollision(selected, g.rule) {
      var a, b :| a in selected && b in selected && g.rule(a) == g.rule(b) && selected[a] != selected[b];
      first := ChooseGlobal(g, before, once, a);
      NestedAgain(g, before, first);
      second := ChooseGlobal(g, first, first, b);
      assert first[SERVERS].fields[g.rule(a)] != second[SERVERS].fields[g.rule(a)];
    } else {
      var path :| path in ProjectsOf(before) && ProjectsOf(before)[path].Obj? && !NoCollision(g.Selected(Project(path)), g.rule);
      first, second := ProjectBreaksFixedPoint(g, before, once, path);
    }
  }

  lemma ProjectBreaksFixedPoint(g: Generator, before: Fields, once: Fields, path: string) returns (first: Fields, second: Fields)
    requires path in ProjectsOf(before) && ProjectsOf(before)[path].Obj? && !NoCollision(g.Selected(Project(path)), g.rule)
    requires IsNested(g, before, once)
    ensures IsNested(g, before, first) && IsNested(g, first, second)
    ensures second != first
  {
    var selected := g.Selected(Project(path));
    var a, b :| a in selected && b in selected && g.rule(a) == g.rule(b) && selected[a] != selected[b];
    first := ChooseProject(g, before, once, path, a);
    NestedAgain(g, before, first);
    second := ChooseProject(g, first, first, path, b);
    assert first[PROJECTS].fields[path].fields[SERVERS].fields[g.rule(a)] !=
           second[PROJECTS].fields[path].fields[SERVERS].fields[g.rule(a)];
  }

  /** Generating again from the output changes nothing, whatever orders the two runs take. */
  ghost predicate Settles(g: Generator, before: Fields) {
    forall once, twice :: g.Makes(before, once) && g.Makes(once, twice) ==> twice == once
  }

  /** Regenerating is a no-op in every order exactly when no collision leaves a choice. */
  lemma FixedPointExactly(g: Generator, before: Fields)
    ensures Settles(g, before) <==> Determined(g, before)
  {
    if Determined(g, before) {
      forall once, twice | g.Makes(before, once) && g.Makes(once, twice) ensures twice == once {
        MakesExactly(g, before, once);
        MakesExactly(g, once, twice);
        GenerationIsFixedPoint(g, before, once, twice);
      }
    } else {
      var once := SomeDocument(g, before);
      var first, second := CollisionBreaksFixedPoint(g, before, once);
      MakesExactly(g, before, first);
      MakesExactly(g, first, second);
    }
  }

  lemma SomeDocument(g: Generator, before: Fields) returns (once: Fields)
    ensures IsNested(g, before, once)
  {
    var order := SomeOrdering(g.servers.Keys);
    var orders := map path | path in ProjectsOf(before) :: order;
    once := g.NestedInOrder(before, order, orders);
    MadeIsNested(g, before, order, orders);
  }

  /** A generated document is one possible result of generating from itself. */
  lemma NestedAgain(g: Generator, before: Fields, once: Fields)
    requires IsNested(g, before, once)
    ensures IsNested(g, once, once)
  {
    if PROJECTS in before && before[PROJECTS].Obj? {
      forall path | path in once[PROJECTS].fields
        ensures ProjectUpdated(g.Selected(Project(path)), g.rule, once[PROJECTS].fields[path], once[PROJECTS].fields[path])
      {
        ProjectAgain(g.Selected(Project(path)), g.rule, before[PROJECTS].fields[path], once[PROJECTS].fields[path]);
      }
    }
  }

  lemma ProjectAgain(selected: Fields, rule: NameRule, before: Json, once: Json)
    requires ProjectUpdated(selected, rule, before, once)
    ensures ProjectUpdated(selected, rule, once, once)
  {
    if before.Obj? && selected != map[] {
      assert once.fields == once.fields[SERVERS := once.fields[SERVERS]];
    }
  }

  lemma ChooseGlobal(g: Generator, before: Fields, once: Fields, name: string) returns (chosen: Fields)
    requires IsNested(g, before, once) && name in g.Selected(Global(g.target))
    ensures IsNested(g, before, chosen)
    ensures g.rule(name) in chosen[SERVERS].fields
    ensures chosen[SERVERS].fields[g.rule(name)] == g.Selected(Global(g.target))[name]
  {
    var selected := g.Selected(Global(g.target));
    SectionChoice(selected, g.rule, once[SERVERS].fields, name);
    chosen := once[SERVERS := Obj(once[SERVERS].fields[g.rule(name) := selected[name]])];
  }

  lemma ChooseProject(g: Generator, before: Fields, once: Fields, path: string, name: string)
      returns (chosen: Fields)
    requires IsNested(g, before, once)
    requires path in ProjectsOf(before) && ProjectsOf(before)[path].Obj? && name in g.Selected(Project(path))
    ensures IsNested(g, before, chosen)
    ensures path in ProjectsOf(chosen) && ProjectsOf(chosen)[path].Obj?
    ensures var project := ProjectsOf(chosen)[path].fields;
            SERVERS in project && project[SERVERS].Obj? && g.rule(name) in project[SERVERS].fields &&
            project[SERVERS].fields[g.rule(name)] == g.Selected(Project(path))[name]
  {
    var before', projects := before[PROJECTS].fields, once[PROJECTS].fields;
    assert ProjectUpdated(g.Selected(Project(path)), g.rule, before'[path], projects[path]);
    var project := ChooseInProject(g.Selected(Project(path)), g.rule, before'[path], projects[path], name);
    OtherProjects(g, before', projects, path, project);
    chosen := once[PROJECTS := Obj(projects[path := project])];
    OtherDocument(g, before, once, projects[path := project]);
  }

  lemma OtherProjects(g: Generator, before: Fields, projects: Fields, path: string, project: Json)
    requires ProjectsUpdated(g, before, projects) && path in before
    requires ProjectUpdated(g.Selected(Project(path)), g.rule, before[path], project)
    ensures ProjectsUpdated(g, before, projects[path := project])
  {
    var projects' := projects[path := project];
    forall p | p in before ensures ProjectUpdated(g.Selected(Project(p)), g.rule, before[p], projects'[p]) {
      if p != path {
        assert projects'[p] == projects[p];
      }
    }
  }

  lemma OtherDocument(g: Generator, before: Fields, once: Fields, projects: Fields)
    requires IsNested(g, before, once) && PROJECTS in before && before[PROJECTS].Obj?
    requires ProjectsUpdated(g, before[PROJECTS].fields, projects)
    ensures IsNested(g, before, once[PROJECTS := Obj(projects)])
  {
  }

  lemma ChooseInProject(selected: Fields, rule: NameRule, before: Json, once: Json, name: string) returns (chosen: Json)
    requires before.Obj? && ProjectUpdated(selected, rule, before, once) && name in selected
    ensures ProjectUpdated(selected, rule, before, chosen)
    ensures chosen.Obj? && SERVERS in chosen.fields && chosen.fields[SERVERS].Obj? && rule(name) in chosen.fields[SERVERS].fields
    ensures chosen.fields[SERVERS].fields[rule(name)] == selected[name]
  {
    SectionChoice(selected, rule, once.fields[SERVERS].fields, name);
    var section := once.fields[SERVERS].fields[rule(name) := selected[name]];
    chosen := Obj(before.fields[SERVERS := Obj(section)]);
    assert chosen.fields == before.fields[SERVERS := chosen.fields[SERVERS]];
  }

  // ---- The two naming rules ----

  /** Where names are not sanitized, nothing can collide: every target of that kind settles. */
  lemma UnsanitizedSettles(g: Generator, before: Fields)
    requires g.rule == FinalName(false)
    ensures Settles(g, before)
  {
    FixedPointExactly(g, before);
  }

  /** Sanitizing maps spaces to hyphens, so two names that differ in that way can take turns. */
  lemma SanitizedCanAlternate(g: Generator, spaced: Server, hyphened: Server, before: Fields)
    requires g.rule == FinalName(true) && g.servers == map["a b" := spaced, "a-b" := hyphened]
    requires InGlobal(spaced, g.target) && InGlobal(hyphened, g.target) && g.encode(spaced.config) != g.encode(hyphened.config)
    ensures !Settles(g, before)
  {
    FixedPointExactly(g, before);
    SpaceBecomesHyphen();
    assert "a b" != "a-b" by { assert "a b"[1] != "a-b"[1]; }
    SharedNameCollides(g, "a b", "a-b");
  }

  lemma SharedNameCollides(g: Generator, a: string, b: string)
    requires a in g.servers && b in g.servers && g.rule(a) == g.rule(b)
    requires InGlobal(g.servers[a], g.target) && InGlobal(g.servers[b], g.target)
    requires g.encode(g.servers[a].config) != g.encode(g.servers[b].config)
    ensures !NoCollision(g.Selected(Global(g.target)), g.rule)
  {
    var selected := g.Selected(Global(g.target));
    assert a in selected && b in selected && selected[a] != selected[b];
  }

  lemma SpaceBecomesHyphen()
    ensures SanitizeServerName("a b") == "a-b" == SanitizeServerName("a-b")
  {
    assert TrimSpaceRight(TrimSpaceLeft("a b")) == "a b" && TrimSpaceRight(TrimSpaceLeft("a-b")) == "a-b";
    ReplaceSkips('a', " b");
    ReplaceSkips('a', "-b");
    ReplaceSkips('-', "b");
    ReplaceSkips('b', "");
    assert ReplaceAll(" b", " ", "-") == "-" + ReplaceAll("b", " ", "-");
  }

  lemma ReplaceSkips(c: char, rest: string)
    requires c != ' '
    ensures ReplaceAll([c] + rest, " ", "-") == [c] + ReplaceAll(rest, " ", "-")
  {
    var s := [c] + rest;
    assert s[0] == c && s[1..] == rest;
  }
}
