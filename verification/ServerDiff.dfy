/** Comparing server maps. */
module ServerDiff {
  // The change list, and equality of two server configurations.

  import opened Common
  import opened Types

  // ---- isServerEqual ----

  /** A nil map or slice has length zero and no entries. */
  function Entries<V>(m: Option<map<string, V>>): map<string, V> {
    if m.Some? then m.value else map[]
  }

  function Elements(xs: Option<seq<string>>): seq<string> {
    if xs.Some? then xs.value else []
  }

  lemma SubmapOfEqualSize<K, V>(a: map<K, V>, b: map<K, V>)
    requires |a| == |b|
    requires forall k :: k in a ==> k in b && a[k] == b[k]
    ensures a == b
  {
    assert a.Keys <= b.Keys;
    assert b.Keys == a.Keys + (b.Keys - a.Keys);
    assert b.Keys - a.Keys == {};
  }

  /** The loop over one map's entries, in any order, with its early exit. */
  method EntriesEqual(a: map<string, string>, b: map<string, string>) returns (same: bool)
    ensures same <==> a == b
  {
    if |a| != |b| {
      return false;
    }
    var pending := a.Keys;
    while pending != {}
      invariant pending <= a.Keys
      invariant forall k :: k in a && k !in pending ==> k in b && a[k] == b[k]
      decreases |pending|
    {
      var k :| k in pending;
      if k !in b || a[k] != b[k] {
        return false;
      }
      pending := pending - {k};
    }
    SubmapOfEqualSize(a, b);
    return true;
  }

  /** Exact equality of the six compared fields; the metadata is not looked at. */
  method IsServerEqual(a: ServerConfig, b: ServerConfig) returns (same: bool)
    ensures same <==>
      && a.transport == b.transport && a.command == b.command && a.url == b.url
      && (if a.args.Some? then a.args.value else []) == (if b.args.Some? then b.args.value else [])
      && (if a.env.Some? then a.env.value else map[]) == (if b.env.Some? then b.env.value else map[])
      && (if a.headers.Some? then a.headers.value else map[]) == (if b.headers.Some? then b.headers.value else map[])
  {
    if a.transport != b.transport || a.command != b.command || a.url != b.url {
      return false;
    }
    var xs, ys := Elements(a.args), Elements(b.args);
    if |xs| != |ys| {
      return false;
    }
    for i := 0 to |xs|
      invariant xs[..i] == ys[..i]
    {
      if xs[i] != ys[i] {
        return false;
      }
    }
    assert xs == xs[..|xs|] == ys[..|ys|] == ys;
    var sameEnv := EntriesEqual(Entries(a.env), Entries(b.env));
    if !sameEnv {
      return false;
    }
    same := EntriesEqual(Entries(a.headers), Entries(b.headers));
  }

  // ---- calculateChanges ----

  /** The shapes the type switch tells apart; any other value contributes no servers. */
  datatype Side<V> = Tree(root: map<string, Node<V>>) | Master(servers: map<string, V>) | Other

  datatype Node<V> = ServerMap(servers: map<string, V>) | NotAServerMap

  function ServersOf<V>(side: Side<V>): map<string, V> {
    match side
    case Tree(root) =>
      if "mcpServers" in root && root["mcpServers"].ServerMap? then root["mcpServers"].servers else map[]
    case Master(servers) => servers
    case Other => map[]
  }

  datatype Change<V> =
    | Add(server: string, after: V)
    | Update(server: string, before: V, after: V)
    | Remove(server: string, before: V)

  /** What a complete change list says about one name, if anything; `marshal` is the JSON text. */
  ghost function ChangeFor<V>(was: map<string, V>, now: map<string, V>, marshal: V -> string, name: string): Option<Change<V>> {
    if name in now && name !in was then Some(Add(name, now[name]))
    else if name in now && marshal(was[name]) != marshal(now[name]) then Some(Update(name, was[name], now[name]))
    else if name in was && name !in now then Some(Remove(name, was[name]))
    else None
  }

  /** Each name that differs has its one change, and there is nothing else. */
  ghost predicate IsDiff<V(!new)>(was: map<string, V>, now: map<string, V>, marshal: V -> string, changes: seq<Change<V>>) {
    && (forall i :: 0 <= i < |changes| ==> ChangeFor(was, now, marshal, changes[i].server) == Some(changes[i]))
    && (forall i, j :: 0 <= i < j < |changes| ==> changes[i].server != changes[j].server)
    && (forall name :: ChangeFor(was, now, marshal, name).Some? ==> Mentions(changes, name))
  }

  /** The changes for these names, in this order. */
  ghost function Collect<V>(was: map<string, V>, now: map<string, V>, marshal: V -> string, names: seq<string>): seq<Change<V>> {
    if names == [] then []
    else
      var change := ChangeFor(was, now, marshal, names[|names| - 1]);
      Collect(was, now, marshal, names[..|names| - 1]) + if change.Some? then [change.value] else []
  }

  lemma CollectOne<V>(was: map<string, V>, now: map<string, V>, marshal: V -> string, names: seq<string>, name: string)
    ensures Collect(was, now, marshal, names + [name]) ==
            Collect(was, now, marshal, names) + (var c := ChangeFor(was, now, marshal, name); if c.Some? then [c.value] else [])
  {
    assert (names + [name])[..|names|] == names;
  }

  /** The names reported grow by the one visited, if it is new to the report. */
  lemma ReportNext(names: seq<string>, reported: set<string>, name: string, isNew: bool, reported': set<string>)
    requires IsOrdering(names, reported) && (isNew ==> name !in reported)
    requires reported' == if isNew then reported + {name} else reported
    ensures IsOrdering(if isNew then names + [name] else names, reported')
  {
    if isNew {
      OrderingNext(names, reported, name, reported');
    }
  }

  lemma AddedNext(now: set<string>, was: set<string>, pending: set<string>, name: string)
    requires name in pending && pending <= now
    ensures now - was - (pending - {name}) == if name !in was then now - was - pending + {name} else now - was - pending
  {
  }

  lemma CommonNext(now: set<string>, was: set<string>, pending: set<string>, name: string, names: seq<string>)
    requires name in pending && pending <= now && IsOrdering(names, now * was - pending)
    ensures IsOrdering(if name in was then names + [name] else names, now * was - (pending - {name}))
  {
    assert now * was - (pending - {name}) == if name in was then now * was - pending + {name} else now * was - pending;
    ReportNext(names, now * was - pending, name, name in was, now * was - (pending - {name}));
  }

  method ReportAdded<V>(was: map<string, V>, now: map<string, V>, marshal: V -> string)
    returns (changes: seq<Change<V>>, ghost names: seq<string>)
    ensures IsOrdering(names, now.Keys - was.Keys) && changes == Collect(was, now, marshal, names)
  {
    changes, names := [], [];
    var pending := now.Keys;
    ghost var reported: set<string> := {};
    while pending != {}
      invariant pending <= now.Keys && reported == now.Keys - was.Keys - pending
      invariant IsOrdering(names, reported) && changes == Collect(was, now, marshal, names)
      decreases |pending|
    {
      var name :| name in pending;
      AddedNext(now.Keys, was.Keys, pending, name);
      pending := pending - {name};
      ReportNext(names, reported, name, name !in was, now.Keys - was.Keys - pending);
      if name !in was {
        CollectOne(was, now, marshal, names, name);
        changes, names := changes + [Add(name, now[name])], names + [name];
      }
      reported := now.Keys - was.Keys - pending;
    }
    assert reported == now.Keys - was.Keys;
  }

  lemma UpdateNext<V>(was: map<string, V>, now: map<string, V>, marshal: V -> string, names: seq<string>, name: string)
    requires name in was && name in now
    ensures var changes := Collect(was, now, marshal, names);
            Collect(was, now, marshal, names + [name]) ==
              if marshal(was[name]) != marshal(now[name]) then changes + [Update(name, was[name], now[name])] else changes
  {
    CollectOne(was, now, marshal, names, name);
  }

  method ReportUpdated<V>(was: map<string, V>, now: map<string, V>, marshal: V -> string)
    returns (changes: seq<Change<V>>, ghost names: seq<string>)
    ensures IsOrdering(names, now.Keys * was.Keys) && changes == Collect(was, now, marshal, names)
  {
    changes, names := [], [];
    var pending := now.Keys;
    ghost var common := now.Keys * was.Keys;
    while pending != {}
      invariant pending <= now.Keys && IsOrdering(names, common - pending)
      invariant changes == Collect(was, now, marshal, names)
      decreases |pending|
    {
      var name :| name in pending;
      CommonNext(now.Keys, was.Keys, pending, name, names);
      pending := pending - {name};
      if name in was {
        UpdateNext(was, now, marshal, names, name);
        if marshal(was[name]) != marshal(now[name]) {
          changes := changes + [Update(name, was[name], now[name])];
        }
        names := names + [name];
      }
    }
    assert common - pending == common;
  }

  method ReportRemoved<V>(was: map<string, V>, now: map<string, V>, marshal: V -> string)
    returns (changes: seq<Change<V>>, ghost names: seq<string>)
    ensures IsOrdering(names, was.Keys - now.Keys) && changes == Collect(was, now, marshal, names)
  {
    changes, names := [], [];
    var pending := was.Keys;
    ghost var reported: set<string> := {};
    while pending != {}
      invariant pending <= was.Keys && reported == was.Keys - now.Keys - pending
      invariant IsOrdering(names, reported) && changes == Collect(was, now, marshal, names)
      decreases |pending|
    {
      var name :| name in pending;
      AddedNext(was.Keys, now.Keys, pending, name);
      pending := pending - {name};
      ReportNext(names, reported, name, name !in now, was.Keys - now.Keys - pending);
      if name !in now {
        CollectOne(was, now, marshal, names, name);
        changes, names := changes + [Remove(name, was[name])], names + [name];
      }
      reported := was.Keys - now.Keys - pending;
    }
    assert reported == was.Keys - now.Keys;
  }

  lemma {:induction false} CollectAppend<V>(was: map<string, V>, now: map<string, V>, marshal: V -> string, a: seq<string>, b: seq<string>)
    ensures Collect(was, now, marshal, a + b) == Collect(was, now, marshal, a) + Collect(was, now, marshal, b)
    decreases |b|
  {
    if b == [] {
      assert a + b == a;
    } else {
      var init, last := b[..|b| - 1], b[|b| - 1];
      assert a + b == (a + init) + [last] && b == init + [last];
      CollectAppend(was, now, marshal, a, init);
      CollectOne(was, now, marshal, a + init, last);
      CollectOne(was, now, marshal, init, last);
      var x, y := Collect(was, now, marshal, a), Collect(was, now, marshal, init);
      var c := ChangeFor(was, now, marshal, last);
      var z := if c.Some? then [c.value] else [];
      assert (x + y) + z == x + (y + z);
    }
  }

  /** The changes are those of these names: each name's own, once, and none missing. */
  ghost predicate Covers<V>(was: map<string, V>, now: map<string, V>, marshal: V -> string, names: seq<string>, changes: seq<Change<V>>) {
    && (forall i :: 0 <= i < |changes| ==> changes[i].server in names && ChangeFor(was, now, marshal, changes[i].server) == Some(changes[i]))
    && (forall i, j :: 0 <= i < j < |changes| ==> changes[i].server != changes[j].server)
    && (forall name :: name in names && ChangeFor(was, now, marshal, name).Some? ==> Mentions(changes, name))
  }

  ghost predicate Mentions<V>(changes: seq<Change<V>>, name: string) {
    exists i :: 0 <= i < |changes| && changes[i].server == name
  }

  lemma CoversMore<V>(was: map<string, V>, now: map<string, V>, marshal: V -> string, names: seq<string>, changes: seq<Change<V>>,
                      last: string, c: Change<V>)
    requires Covers(was, now, marshal, names, changes) && last !in names
    requires ChangeFor(was, now, marshal, last) == Some(c)
    ensures Covers(was, now, marshal, names + [last], changes + [c])
  {
    var names', changes' := names + [last], changes + [c];
    assert c.server == last;
    assert forall i :: 0 <= i < |changes| ==> changes'[i] == changes[i] && changes[i].server != last;
    forall name | name in names' && ChangeFor(was, now, marshal, name).Some? ensures Mentions(changes', name) {
      if name == last {
        assert changes'[|changes|].server == name;
      } else {
        assert Mentions(changes, name);
        var i :| 0 <= i < |changes| && changes[i].server == name;
        assert changes'[i].server == name;
      }
    }
  }

  lemma {:induction false} CollectCovers<V>(was: map<string, V>, now: map<string, V>, marshal: V -> string, names: seq<string>)
    requires forall i, j :: 0 <= i < j < |names| ==> names[i] != names[j]
    ensures Covers(was, now, marshal, names, Collect(was, now, marshal, names))
    decreases |names|
  {
    if names != [] {
      var init, last := names[..|names| - 1], names[|names| - 1];
      assert names == init + [last] && last !in init;
      CollectCovers(was, now, marshal, init);
      CollectOne(was, now, marshal, init, last);
      var c := ChangeFor(was, now, marshal, last);
      if c.Some? {
        CoversMore(was, now, marshal, init, Collect(was, now, marshal, init), last, c.value);
      } else {
        assert Collect(was, now, marshal, init) + [] == Collect(was, now, marshal, init);
      }
    }
  }

  /** Added, then updated, then removed servers; within each group the order is the map's. */
  ghost predicate Grouped<V>(changes: seq<Change<V>>) {
    forall i, j :: 0 <= i < j < |changes| ==> (changes[j].Add? ==> changes[i].Add?) && (changes[i].Remove? ==> changes[j].Remove?)
  }

  /** The list is what a reader of the two sides would write down: every change is right, and no name is missing. */
  ghost predicate Lists<V>(was: map<string, V>, now: map<string, V>, marshal: V -> string, changes: seq<Change<V>>) {
    && (forall i :: 0 <= i < |changes| ==> match changes[i]
          case Add(name, after) => name !in was && name in now && after == now[name]
          case Update(name, before, after) =>
            name in was && name in now && before == was[name] && after == now[name] && marshal(before) != marshal(after)
          case Remove(name, before) => name in was && name !in now && before == was[name])
    && (forall name :: name in now && (name !in was || marshal(was[name]) != marshal(now[name])) ==> Mentions(changes, name))
    && (forall name :: name in was && name !in now ==> Mentions(changes, name))
    && (forall i, j :: 0 <= i < j < |changes| ==> changes[i].server != changes[j].server)
  }

  lemma DiffLists<V(!new)>(was: map<string, V>, now: map<string, V>, marshal: V -> string, changes: seq<Change<V>>)
    ensures IsDiff(was, now, marshal, changes) <==> Lists(was, now, marshal, changes)
  {
    if IsDiff(was, now, marshal, changes) {
      forall i | 0 <= i < |changes| ensures ChangeFor(was, now, marshal, changes[i].server) == Some(changes[i]) {
      }
      forall name | name in now && (name !in was || marshal(was[name]) != marshal(now[name])) ensures Mentions(changes, name) {
        assert ChangeFor(was, now, marshal, name).Some?;
      }
      forall name | name in was && name !in now ensures Mentions(changes, name) {
        assert ChangeFor(was, now, marshal, name).Some?;
      }
    }
  }

  /** Only a master configuration, and a tree with servers under `mcpServers`, have any. */
  lemma ServersOfSides<V>(root: map<string, Node<V>>, servers: map<string, V>)
    ensures ServersOf(Master(servers)) == servers
    ensures ServersOf(Tree(root["mcpServers" := ServerMap(servers)])) == servers
    ensures ServersOf(Tree(root["mcpServers" := NotAServerMap])) == map[]
    ensures ServersOf(Tree(root - {"mcpServers"})) == map[]
    ensures ServersOf<V>(Other) == map[]
  {
  }

  method CalculateChanges<V(!new)>(existing: Side<V>, transformed: Side<V>, marshal: V -> string) returns (changes: seq<Change<V>>)
    ensures Lists(ServersOf(existing), ServersOf(transformed), marshal, changes) && Grouped(changes)
    ensures IsDiff(ServersOf(existing), ServersOf(transformed), marshal, changes)
    ensures SameJson(Apply(ServersOf(existing), changes), ServersOf(transformed), marshal)
  {
    var was, now := ServersOf(existing), ServersOf(transformed);
    var updated, removed;
    ghost var a, b, c;
    changes, a := ReportAdded(was, now, marshal);
    updated, b := ReportUpdated(was, now, marshal);
    removed, c := ReportRemoved(was, now, marshal);
    changes := changes + updated + removed;
    AllCollected(was, now, marshal, a, b, c);
    DiffPatches(was, now, marshal, changes);
    DiffLists(was, now, marshal, changes);
  }

  lemma AllCollected<V(!new)>(was: map<string, V>, now: map<string, V>, marshal: V -> string, a: seq<string>, b: seq<string>, c: seq<string>)
    requires IsOrdering(a, now.Keys - was.Keys) && IsOrdering(b, now.Keys * was.Keys) && IsOrdering(c, was.Keys - now.Keys)
    ensures var changes := Collect(was, now, marshal, a) + Collect(was, now, marshal, b) + Collect(was, now, marshal, c);
            IsDiff(was, now, marshal, changes) && Grouped(changes)
  {
    var names := a + b + c;
    OrderingAppend(a, now.Keys - was.Keys, b, now.Keys * was.Keys, now.Keys);
    OrderingAppend(a + b, now.Keys, c, was.Keys - now.Keys, now.Keys + was.Keys);
    CollectAppend(was, now, marshal, a, b);
    CollectAppend(was, now, marshal, a + b, c);
    CollectCovers(was, now, marshal, names);
    assert forall name :: ChangeFor(was, now, marshal, name).Some? ==> name in names;
    KindsOf(was, now, marshal, a);
    KindsOf(was, now, marshal, b);
    KindsOf(was, now, marshal, c);
    ThreeGroups(Collect(was, now, marshal, a), Collect(was, now, marshal, b), Collect(was, now, marshal, c));
  }

  /** What kind of change a name gets depends on which side has it. */
  lemma KindsOf<V>(was: map<string, V>, now: map<string, V>, marshal: V -> string, names: seq<string>)
    requires forall i, j :: 0 <= i < j < |names| ==> names[i] != names[j]
    ensures var changes := Collect(was, now, marshal, names);
            && ((forall n :: n in names ==> n in now && n !in was) ==> forall i :: 0 <= i < |changes| ==> changes[i].Add?)
            && ((forall n :: n in names ==> n in now && n in was) ==> forall i :: 0 <= i < |changes| ==> changes[i].Update?)
            && ((forall n :: n in names ==> n !in now && n in was) ==> forall i :: 0 <= i < |changes| ==> changes[i].Remove?)
  {
    CollectCovers(was, now, marshal, names);
  }

  lemma ThreeGroups<V>(a: seq<Change<V>>, b: seq<Change<V>>, c: seq<Change<V>>)
    requires forall i :: 0 <= i < |a| ==> a[i].Add?
    requires forall i :: 0 <= i < |b| ==> b[i].Update?
    requires forall i :: 0 <= i < |c| ==> c[i].Remove?
    ensures Grouped(a + b + c)
  {
  }

  // ---- What the change list means ----

  function Apply<V>(servers: map<string, V>, changes: seq<Change<V>>): map<string, V> {
    if changes == [] then servers
    else
      var before := Apply(servers, changes[..|changes| - 1]);
      match changes[|changes| - 1]
      case Add(name, after) => before[name := after]
      case Update(name, _, after) => before[name := after]
      case Remove(name, _) => before - {name}
  }

  /** The same names, and the same JSON under each. */
  ghost predicate SameJson<V>(a: map<string, V>, b: map<string, V>, marshal: V -> string) {
    a.Keys == b.Keys && forall name :: name in a ==> marshal(a[name]) == marshal(b[name])
  }

  lemma {:induction false} ApplyAt<V>(servers: map<string, V>, changes: seq<Change<V>>, name: string)
    requires forall i, j :: 0 <= i < j < |changes| ==> changes[i].server != changes[j].server
    ensures forall i :: 0 <= i < |changes| && changes[i].server == name ==>
      if changes[i].Remove? then name !in Apply(servers, changes)
      else name in Apply(servers, changes) && Apply(servers, changes)[name] == changes[i].after
    ensures (forall i :: 0 <= i < |changes| ==> changes[i].server != name) ==>
      && (name in Apply(servers, changes) <==> name in servers)
      && (name in servers ==> Apply(servers, changes)[name] == servers[name])
    decreases |changes|
  {
    if changes != [] {
      var init := changes[..|changes| - 1];
      assert forall i :: 0 <= i < |init| ==> init[i] == changes[i];
      ApplyAt(servers, init, name);
    }
  }

  /** Applying the change list to the old servers yields the new ones, up to their JSON. */
  lemma DiffPatches<V(!new)>(was: map<string, V>, now: map<string, V>, marshal: V -> string, changes: seq<Change<V>>)
    requires IsDiff(was, now, marshal, changes)
    ensures SameJson(Apply(was, changes), now, marshal)
  {
    var patched := Apply(was, changes);
    forall name ensures name in patched <==> name in now
                ensures name in now ==> marshal(patched[name]) == marshal(now[name])
    {
      ApplyAt(was, changes, name);
      if ChangeFor(was, now, marshal, name).Some? {
        assert Mentions(changes, name);
        var i :| 0 <= i < |changes| && changes[i].server == name;
      } else {
        forall i | 0 <= i < |changes| ensures changes[i].server != name {
          assert ChangeFor(was, now, marshal, changes[i].server) == Some(changes[i]);
        }
      }
    }
  }

  /** The list is empty exactly when nothing differs. */
  lemma NoChangesIffSame<V(!new)>(was: map<string, V>, now: map<string, V>, marshal: V -> string, changes: seq<Change<V>>)
    requires IsDiff(was, now, marshal, changes)
    ensures changes == [] <==> SameJson(was, now, marshal)
  {
    if changes == [] {
      DiffPatches(was, now, marshal, changes);
    } else {
      assert ChangeFor(was, now, marshal, changes[0].server) == Some(changes[0]);
    }
  }

  ghost function Names<V>(changes: seq<Change<V>>): set<string> {
    set i | 0 <= i < |changes| :: changes[i].server
  }

  lemma {:induction false} NamesCount<V>(changes: seq<Change<V>>)
    requires forall i, j :: 0 <= i < j < |changes| ==> changes[i].server != changes[j].server
    ensures |Names(changes)| == |changes|
    decreases |changes|
  {
    if changes != [] {
      var init, last := changes[..|changes| - 1], changes[|changes| - 1];
      assert forall i :: 0 <= i < |init| ==> init[i] == changes[i];
      NamesCount(init);
      assert Names(changes) == Names(init) + {last.server};
    }
  }

  /** How many changes there are: the names on one side only, and the common names that differ. */
  lemma DiffLength<V(!new)>(was: map<string, V>, now: map<string, V>, marshal: V -> string, changes: seq<Change<V>>)
    requires IsDiff(was, now, marshal, changes)
    ensures |changes| == |now.Keys - was.Keys| + |was.Keys - now.Keys| +
                         |set name | name in was.Keys * now.Keys && marshal(was[name]) != marshal(now[name])|
  {
    NamesCount(changes);
    var added, removed := now.Keys - was.Keys, was.Keys - now.Keys;
    var changed := set name | name in was.Keys * now.Keys && marshal(was[name]) != marshal(now[name]);
    NamesAreDifferences(was, now, marshal, changes);
    assert |added + removed| == |added| + |removed|;
    assert |(added + removed) + changed| == |added + removed| + |changed|;
  }

  lemma NamesAreDifferences<V(!new)>(was: map<string, V>, now: map<string, V>, marshal: V -> string, changes: seq<Change<V>>)
    requires IsDiff(was, now, marshal, changes)
    ensures Names(changes) == (now.Keys - was.Keys) + (was.Keys - now.Keys) +
      set name | name in was.Keys * now.Keys && marshal(was[name]) != marshal(now[name])
  {
    forall name ensures name in Names(changes) <==> ChangeFor(was, now, marshal, name).Some? {
      if name in Names(changes) {
        var i :| 0 <= i < |changes| && changes[i].server == name;
      }
    }
  }
}
