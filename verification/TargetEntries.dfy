/** What a generated document contains, server by server. */
module TargetEntries {
  // In terms of the servers' own fields: which of them are written where, under which name,
  // and what of the existing document stays.

  import opened Common
  import opened Types
  import opened Text
  import opened TargetConfig

  /** The section has an entry of each of these servers' names, each entry being one of theirs, and nothing else. */
  ghost predicate EntriesOf(g: Generator, names: set<string>, section: Fields) {
    && (forall name :: name in names && name in g.servers ==> g.rule(name) in section)
    && (forall key :: key in section ==>
          exists name :: name in names && name in g.servers && g.rule(name) == key && section[key] == g.encode(g.servers[name].config))
  }

  lemma SectionHasEntries(g: Generator, selection: Selection, names: set<string>, section: Fields)
    requires IsSection(g.Selected(selection), g.rule, section)
    requires forall name :: name in g.servers ==> (name in names <==> selection.Wants(g.servers[name]))
    ensures EntriesOf(g, names, section)
  {
    var selected := g.Selected(selection);
    forall key | key in section
      ensures exists name :: name in names && name in g.servers && g.rule(name) == key && section[key] == g.encode(g.servers[name].config)
    {
      var name :| name in selected && g.rule(name) == key && section[key] == selected[name];
      assert name in names && name in g.servers;
    }
  }

  /** The top-level section: global servers that are enabled, not excluded, and meant for this target or for all. */
  lemma GlobalEntries(g: Generator, before: Fields, after: Fields)
    requires g.Makes(before, after)
    ensures "mcpServers" in after && after["mcpServers"].Obj?
    ensures var names := set name | name in g.servers
                && g.servers[name].internal.projectSpecific == false && g.servers[name].internal.enabled == true
                && g.target !in g.servers[name].internal.excludeFromTargets
                && ("all" in g.servers[name].internal.syncTargets || g.target in g.servers[name].internal.syncTargets);
            EntriesOf(g, names, after["mcpServers"].fields)
  {
    MakesExactly(g, before, after);
    var names := set name | name in g.servers
      && g.servers[name].internal.projectSpecific == false && g.servers[name].internal.enabled == true
      && g.target !in g.servers[name].internal.excludeFromTargets
      && ("all" in g.servers[name].internal.syncTargets || g.target in g.servers[name].internal.syncTargets);
    SectionHasEntries(g, Global(g.target), names, after["mcpServers"].fields);
  }

  /** A flat document: the same, whether or not a server belongs to a project. */
  lemma FlatEntries(g: Generator, section: Fields)
    requires IsSection(g.Selected(Flat(g.target)), g.rule, section)
    ensures var names := set name | name in g.servers && g.servers[name].internal.enabled == true
                && g.target !in g.servers[name].internal.excludeFromTargets
                && ("all" in g.servers[name].internal.syncTargets || g.target in g.servers[name].internal.syncTargets);
            EntriesOf(g, names, section)
  {
    var names := set name | name in g.servers && g.servers[name].internal.enabled == true
      && g.target !in g.servers[name].internal.excludeFromTargets
      && ("all" in g.servers[name].internal.syncTargets || g.target in g.servers[name].internal.syncTargets);
    SectionHasEntries(g, Flat(g.target), names, section);
  }

  /** A project that no server names stays as it was; any other gets a section of those that do, and keeps the rest. */
  lemma ProjectEntries(g: Generator, before: Fields, after: Fields, path: string)
    requires g.Makes(before, after) && "projects" in before && before["projects"].Obj? && path in before["projects"].fields
    ensures "projects" in after && after["projects"].Obj? && after["projects"].fields.Keys == before["projects"].fields.Keys
    ensures var names := set name | name in g.servers && g.servers[name].internal.projectSpecific == true && g.servers[name].internal.projectPath == path;
            var project, project' := before["projects"].fields[path], after["projects"].fields[path];
            && (names == {} || !project.Obj? ==> project' == project)
            && (names != {} && project.Obj? ==>
                  && project'.Obj? && project'.fields.Keys == project.fields.Keys + {"mcpServers"}
                  && (forall key :: key in project.fields && key != "mcpServers" ==> project'.fields[key] == project.fields[key])
                  && project'.fields["mcpServers"].Obj? && EntriesOf(g, names, project'.fields["mcpServers"].fields))
  {
    MakesExactly(g, before, after);
    var names := set name | name in g.servers && g.servers[name].internal.projectSpecific == true && g.servers[name].internal.projectPath == path;
    OneProject(g, path, names, before["projects"].fields[path], after["projects"].fields[path]);
  }

  lemma OneProject(g: Generator, path: string, names: set<string>, project: Json, project': Json)
    requires ProjectUpdated(g.Selected(Project(path)), g.rule, project, project')
    requires forall name :: name in names <==> name in g.servers && InProject(g.servers[name], path)
    ensures names == {} || !project.Obj? ==> project' == project
    ensures names != {} && project.Obj? ==>
              && project'.Obj? && project'.fields.Keys == project.fields.Keys + {"mcpServers"}
              && (forall key :: key in project.fields && key != "mcpServers" ==> project'.fields[key] == project.fields[key])
              && project'.fields["mcpServers"].Obj? && EntriesOf(g, names, project'.fields["mcpServers"].fields)
  {
    var selected := g.Selected(Project(path));
    assert names == selected.Keys;
    if names == {} {
      assert selected == map[];
    } else if project.Obj? {
      assert selected != map[];
      var section := project'.fields[SERVERS];
      assert project'.fields == project.fields["mcpServers" := section];
      SectionHasEntries(g, Project(path), names, section.fields);
    }
  }

  /** Everything else in the document stays, projects that are not an object included. */
  lemma OthersStay(g: Generator, before: Fields, after: Fields, key: string)
    requires g.Makes(before, after) && key in before && key != "mcpServers" && (key != "projects" || !before[key].Obj?)
    ensures key in after && after[key] == before[key]
  {
    MakesExactly(g, before, after);
  }

  // ---- Sanitized names ----

  /** What strings.TrimSpace takes for a space, below U+0100 */
  predicate IsBlank(c: char) {
    c in {' ', '\t', '\n', '\r', '\U{0B}', '\U{0C}', '\U{85}', '\U{A0}'}
  }

  lemma BlankIsSpace(c: char)
    ensures IsBlank(c) <==> IsSpace(c)
  {
  }

  predicate Solid(name: string) {
    name == "" || (!IsBlank(name[0]) && !IsBlank(name[|name| - 1]))
  }

  /** Names without surrounding blanks are not trimmed. */
  lemma SolidIsNotTrimmed(name: string)
    requires Solid(name)
    ensures TrimSpaceRight(TrimSpaceLeft(name)) == name
  {
    if name != "" {
      BlankIsSpace(name[0]);
      BlankIsSpace(name[|name| - 1]);
    }
  }

  /** Blanks around a name do not matter. */
  lemma {:induction false} BlanksAround(left: string, name: string, right: string)
    requires (forall c :: c in left ==> IsBlank(c)) && Solid(name) && (forall c :: c in right ==> IsBlank(c))
    ensures SanitizeServerName(left + name + right) == SanitizeServerName(name)
  {
    TrimsLeft(left, name, right);
    if name != "" {
      TrimsRight(name, right);
    }
    SolidIsNotTrimmed(name);
  }

  lemma {:induction false} TrimsLeft(left: string, name: string, right: string)
    requires (forall c :: c in left ==> IsBlank(c)) && Solid(name) && (forall c :: c in right ==> IsBlank(c))
    ensures TrimSpaceLeft(left + name + right) == if name == "" then "" else name + right
    decreases |left| + |right|
  {
    var s := left + name + right;
    if left != "" {
      BlankIsSpace(left[0]);
      assert s[1..] == left[1..] + name + right;
      TrimsLeft(left[1..], name, right);
    } else if name == "" {
      assert s == right;
      if right != "" {
        BlankIsSpace(right[0]);
        assert s[1..] == "" + "" + right[1..];
        TrimsLeft("", "", right[1..]);
      }
    } else {
      BlankIsSpace(name[0]);
      assert s == name + right;
    }
  }

  lemma {:induction false} TrimsRight(name: string, right: string)
    requires name != "" && Solid(name) && (forall c :: c in right ==> IsBlank(c))
    ensures TrimSpaceRight(name + right) == name
    decreases |right|
  {
    if right == "" {
      BlankIsSpace(name[|name| - 1]);
      assert name + right == name;
    } else {
      var s := name + right;
      BlankIsSpace(right[|right| - 1]);
      assert s[..|s| - 1] == name + right[..|right| - 1];
      TrimsRight(name, right[..|right| - 1]);
    }
  }

  /** Inside a name each space, and nothing else, becomes a hyphen. */
  lemma SpacesBecomeHyphens(name: string)
    requires Solid(name)
    ensures var r := SanitizeServerName(name);
            |r| == |name| && forall i :: 0 <= i < |name| ==> r[i] == if name[i] == ' ' then '-' else name[i]
  {
    SolidIsNotTrimmed(name);
    SpaceBySpace(name);
  }

  lemma {:induction false} SpaceBySpace(s: string)
    ensures var r := ReplaceAll(s, " ", "-");
            |r| == |s| && forall i :: 0 <= i < |s| ==> r[i] == if s[i] == ' ' then '-' else s[i]
    decreases |s|
  {
    if s != "" {
      SpaceBySpace(s[1..]);
    }
  }

  /** A target that does not sanitize writes every server under its own name; one that does, under the sanitized one. */
  lemma FinalNames(name: string)
    ensures FinalName(false)(name) == name
    ensures Solid(name) && ' ' !in name ==> FinalName(true)(name) == name
  {
    if Solid(name) {
      SpacesBecomeHyphens(name);
    }
  }
}
