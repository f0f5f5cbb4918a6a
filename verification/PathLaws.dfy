/**
 Paths and keys, spelled out: what filepath.Clean does to each kind of path element, as
 rules that rewrite any path to a clean one, and where a FileStorage keeps the key made of
 given segments.
 */
module PathLaws {
  import opened Text
  import opened Paths

  // ---- Rules for Clean ----

  /** The elements of a path with something in its middle. */
  lemma ElementsAround(a: string, m: string, b: string, elems: seq<string>)
    requires Split(m, "/") == elems
    ensures Split(a + "/" + m + "/" + b, "/") == Split(a, "/") + elems + Split(b, "/")
  {
    SplitAppend(a, m, '/');
    SplitAppend(a + "/" + m, b, '/');
  }

  /** Two paths that begin alike, and of whose middles the same is left, are the same clean path. */
  lemma SameClean(a: string, p: string, q: string, middle: seq<string>, b: string)
    requires Split(p, "/") == Split(a, "/") + middle + Split(b, "/") && Split(q, "/") == Split(a, "/") + Split(b, "/")
    requires p != "" && q != "" && p[0] == q[0]
    requires forall stack :: Reduce(middle, stack, Rooted(p)) == stack
    ensures Clean(p) == Clean(q)
  {
    var rooted, x, y := Rooted(p), Split(a, "/"), Split(b, "/");
    ReduceAppend(x + middle, y, [], rooted);
    ReduceAppend(x, middle, [], rooted);
    ReduceAppend(x, y, [], rooted);
  }

  lemma SplitBetween(a: string, b: string)
    ensures Split(a + "/" + b, "/") == Split(a, "/") + Split(b, "/")
  {
    SplitAppend(a, b, '/');
  }

  lemma SameStart(a: string, m: string, b: string)
    ensures (a + "/" + m + "/" + b)[0] == (a + "/" + b)[0]
  {
  }

  /** A dot, or nothing, between two slashes makes no difference. */
  lemma CleanDropsDots(a: string, m: string, b: string)
    requires m == "." || m == ""
    ensures Clean(a + "/" + m + "/" + b) == Clean(a + "/" + b)
  {
    SplitWhole(m, '/');
    ElementsAround(a, m, b, [m]);
    SplitBetween(a, b);
    SameStart(a, m, b);
    SameClean(a, a + "/" + m + "/" + b, a + "/" + b, [m], b);
  }

  /** A name and two dots after it cancel. */
  lemma CleanGoesBack(a: string, name: string, b: string)
    requires name != "" && name != "." && name != ".." && '/' !in name
    ensures Clean(a + "/" + (name + "/..") + "/" + b) == Clean(a + "/" + b)
  {
    var m := name + "/..";
    SplitWhole(name, '/');
    SplitWhole("..", '/');
    SplitAppend(name, "..", '/');
    assert m == name + ['/'] + "..";
    ElementsAround(a, m, b, [name, ".."]);
    SplitBetween(a, b);
    SameStart(a, m, b);
    forall stack: seq<string>, rooted: bool ensures Reduce([name, ".."], stack, rooted) == stack {
      BackAndForth(name, stack, rooted);
    }
    SameClean(a, a + "/" + m + "/" + b, a + "/" + b, [name, ".."], b);
  }

  lemma BackAndForth(name: string, stack: seq<string>, rooted: bool)
    requires name != "" && name != "." && name != ".."
    ensures Reduce([name, ".."], stack, rooted) == stack
  {
    var pushed := stack + [name];
    assert [name, ".."][1..] == [".."] && [".."][1..] == [];
    assert pushed[|pushed| - 1] == name && pushed[..|pushed| - 1] == stack;
    assert Reduce([name, ".."], stack, rooted) == Reduce([".."], pushed, rooted);
    assert Reduce([".."], pushed, rooted) == Reduce([], stack, rooted);
  }

  /** There is nothing above the root. */
  lemma CleanStaysInRoot(b: string)
    ensures Clean("/../" + b) == Clean("/" + b)
  {
    SplitWhole("", '/');
    SplitWhole("..", '/');
    ElementsAround("", "..", b, [".."]);
    SplitBetween("", b);
    assert "" + "/" + ".." + "/" + b == "/../" + b && "" + "/" + b == "/" + b;
    var x, y := Split("", "/"), Split(b, "/");
    ReduceAppend(x + [".."], y, [], true);
    ReduceAppend(x, [".."], [], true);
    ReduceAppend(x, y, [], true);
    assert [".."][1..] == [] && [""][1..] == [];
  }

  /** A slash at the end of a path makes no difference, unless the path is the slash. */
  lemma CleanDropsLastSlash(a: string)
    requires a != ""
    ensures Clean(a + "/") == Clean(a)
  {
    SplitBetween(a, "");
    SplitWhole("", '/');
    assert a + "/" + "" == a + "/";
    ReduceAppend(Split(a, "/"), [""], [], Rooted(a));
    assert [""][1..] == [];
  }

  /** A path that none of these rules changes is clean: some steps up, if it is not rooted, and then names. */
  lemma {:induction false} ReduceClean(ups: nat, names: seq<string>, rooted: bool)
    requires (rooted ==> ups == 0) && forall e :: e in names ==> e != "" && e != "." && e != ".."
    ensures Reduce(seq(ups, i => "..") + names, [], rooted) == seq(ups, i => "..") + names
  {
    var steps := seq(ups, i => "..");
    ReduceAppend(steps, names, [], rooted);
    Upwards(ups, [], rooted);
    assert [] + steps == steps;
    ReducePlain(names, steps, rooted);
  }

  lemma {:induction false} Upwards(ups: nat, stack: seq<string>, rooted: bool)
    requires (ups > 0 ==> !rooted) && forall e :: e in stack ==> e == ".."
    ensures Reduce(seq(ups, i => ".."), stack, rooted) == stack + seq(ups, i => "..")
    decreases ups
  {
    var steps := seq(ups, i => "..");
    if ups > 0 {
      assert steps[1..] == seq(ups - 1, i => "..");
      if stack != [] {
        assert stack[|stack| - 1] in stack;
      }
      Upwards(ups - 1, stack + [".."], rooted);
      assert stack + [".."] + seq(ups - 1, i => "..") == stack + steps;
    }
  }

  lemma CleanOfClean(ups: nat, names: seq<string>)
    requires forall e :: e in names ==> e != "" && e != "." && e != ".." && '/' !in e
    ensures var path := Join(seq(ups, i => "..") + names, "/");
            && (path != "" ==> Clean(path) == path)
            && (ups == 0 ==> Clean("/" + path) == "/" + path)
    ensures Clean("") == "."
  {
    var elems := seq(ups, i => "..") + names;
    var path := Join(elems, "/");
    if elems != [] {
      SplitUndoesJoin(elems, '/');
      FirstIsNotEmpty(elems);
      ReduceClean(ups, names, false);
      if ups == 0 {
        RootedElements(path);
        assert elems == names;
        ReduceAppend([""], names, [], true);
        assert [""][1..] == [];
        ReducePlain(names, [], true);
        assert [] + names == names;
      }
    } else {
      assert "/" + path == "/" && Split("/", "/") == ["", ""] && ["", ""][1..] == [""] && [""][1..] == [];
    }
  }

  lemma RootedElements(path: string)
    ensures Split("/" + path, "/") == [""] + Split(path, "/")
  {
    SplitWhole("", '/');
    SplitBetween("", path);
    assert "" + "/" + path == "/" + path;
  }

  lemma FirstIsNotEmpty(elems: seq<string>)
    requires elems != [] && forall e :: e in elems ==> e != "" && '/' !in e
    ensures Join(elems, "/") != "" && Join(elems, "/")[0] != '/'
  {
    assert elems[0] in elems && elems[0][0] in elems[0];
  }

  // ---- Where a key's file is ----

  predicate PlainSegment(e: string) {
    e != "" && e != "." && e != ".." && '/' !in e && ':' !in e
  }

  /** The key of some segments is the file named by the last one, in the directories named by the others, below the cleaned base. */
  lemma KeyOfSegments(base: string, segments: seq<string>)
    requires segments != [] && (forall e :: e in segments ==> PlainSegment(e)) && !Contains(Join(segments, ":"), ".json")
    ensures var key, dir := Join(segments, ":"), Clean(base);
            KeyToPath(base, key) == (if dir == "." then "" else if dir == "/" then "/" else dir + "/") + (Join(segments, "/") + ".json")
  {
    var key := Join(segments, ":");
    SegmentsOfKey(segments);
    PathOfPlainKey(base, key);
    RootSpelled(base);
  }

  lemma RootSpelled(base: string)
    ensures var dir := Clean(base); Root(base) == if dir == "." then "" else if dir == "/" then "/" else dir + "/"
  {
    RootIsCleaned(base);
    RootEnds(base);
    CleanIsNotDot(base);
    SlashBack(Root(base), Clean(base));
  }

  lemma SlashBack(root: string, dir: string)
    requires root != "" ==> root[|root| - 1] == '/'
    requires root != "./" && root != "//"
    requires dir == if root == "" then "." else if root == "/" then "/" else root[..|root| - 1]
    ensures root == if dir == "." then "" else if dir == "/" then "/" else dir + "/"
  {
    if root != "" {
      assert root == root[..|root| - 1] + "/";
    }
  }

  lemma SegmentsOfKey(segments: seq<string>)
    requires segments != [] && (forall e :: e in segments ==> PlainSegment(e)) && !Contains(Join(segments, ":"), ".json")
    ensures var key := Join(segments, ":"); PlainKey(key) && Stem(key) == Join(segments, "/") && '/' !in key
  {
    var key := Join(segments, ":");
    SplitUndoesJoin(segments, ':');
    SplitUndoesJoin(segments, '/');
    JoinSplitIsStem(key);
    JoinHasNo(segments, '/');
  }

  lemma {:induction false} JoinHasNo(segments: seq<string>, c: char)
    requires c != ':' && forall e :: e in segments ==> c !in e
    ensures c !in Join(segments, ":")
    decreases |segments|
  {
    if |segments| > 1 {
      assert segments[0] in segments && forall e :: e in segments[1..] ==> e in segments;
      JoinHasNo(segments[1..], c);
    } else if |segments| == 1 {
      assert segments[0] in segments;
    }
  }

  predicate CleanElement(e: string) {
    e != "" && e != "." && '/' !in e
  }

  lemma {:induction false} ReducedElements(elems: seq<string>, stack: seq<string>, rooted: bool)
    requires (forall e :: e in elems ==> '/' !in e) && forall e :: e in stack ==> CleanElement(e)
    ensures forall e :: e in Reduce(elems, stack, rooted) ==> CleanElement(e)
    decreases |elems|
  {
    if elems != [] {
      assert elems[0] in elems && forall e :: e in elems[1..] ==> e in elems;
      if elems[0] == "" || elems[0] == "." {
        ReducedElements(elems[1..], stack, rooted);
      } else if elems[0] == ".." {
        if stack != [] && stack[|stack| - 1] != ".." {
          assert forall e :: e in stack[..|stack| - 1] ==> e in stack;
          ReducedElements(elems[1..], stack[..|stack| - 1], rooted);
        } else {
          ReducedElements(elems[1..], if rooted then stack else stack + [".."], rooted);
        }
      } else {
        ReducedElements(elems[1..], stack + [elems[0]], rooted);
      }
    }
  }

  /** A root that is not empty is neither a dot and a slash nor two slashes. */
  lemma CleanIsNotDot(base: string)
    ensures Root(base) != "./" && Root(base) != "//"
  {
    var elems := CleanElements(base);
    PiecesHaveNoSeparator(base, '/');
    ReducedElements(Split(base, "/"), [], Rooted(base));
    if elems != [] {
      FirstIsNotEmpty(elems);
      assert CleanElement(elems[0]) by { assert elems[0] in elems; }
      var body := Join(elems, "/");
      assert body != "." by {
        if |elems| > 1 {
          assert body == elems[0] + "/" + Join(elems[1..], "/") && body[|elems[0]|] == '/';
        }
      }
      var root := (if Rooted(base) then "/" else "") + (body + "/");
      assert root == Root(base);
      assert root[0] == if Rooted(base) then '/' else body[0];
    }
  }

  /** A key and the same key with the extension share a file: a name that ends in the extension does not get another one. */
  lemma ExtensionIsShared(base: string, segments: seq<string>)
    requires segments != [] && (forall e :: e in segments ==> PlainSegment(e)) && !Contains(Join(segments, ":"), ".json")
    ensures var key := Join(segments, ":"); KeyToPath(base, key + ".json") == KeyToPath(base, key)
  {
    var key, path := Join(segments, ":"), Join(segments, "/");
    SegmentsOfKey(segments);
    PathOfPlainKey(base, key);
    ExtendedKey(segments);
    SplitUndoesJoin(segments, '/');
    PlainFile(path);
    JoinTwo(base, path + EXT);
    EndsInExtension(Root(base), path);
  }

  lemma EndsInExtension(root: string, path: string)
    ensures WithExtension(root + (path + EXT)) == root + (path + EXT)
  {
    var file := root + (path + EXT);
    assert file[|file| - |EXT|..] == EXT;
  }

  lemma ExtendedKey(segments: seq<string>)
    requires segments != [] && forall e :: e in segments ==> PlainSegment(e)
    ensures JoinPath(Split(Join(segments, ":") + ".json", ":")) == Join(segments, "/") + ".json"
  {
    var extended := WithTail(segments, EXT);
    ExtendedSegments(segments);
    JoinTail(segments, ":");
    JoinTail(segments, "/");
    SplitUndoesJoin(extended, ':');
    SplitUndoesJoin(extended, '/');
    CleanPlain(Join(extended, "/"));
    assert extended[0] in extended;
  }

  lemma ExtendedSegments(segments: seq<string>)
    requires segments != [] && forall e :: e in segments ==> PlainSegment(e)
    ensures forall e :: e in WithTail(segments, EXT) ==> PlainSegment(e)
  {
    var extended, last := WithTail(segments, EXT), segments[|segments| - 1];
    assert last in segments;
    ExtendedSegment(last);
    forall e | e in extended ensures PlainSegment(e) {
      if e != last + EXT {
        assert e in segments;
      }
    }
  }

  lemma ExtendedSegment(e: string)
    requires PlainSegment(e)
    ensures PlainSegment(e + EXT)
  {
    assert |e + EXT| > 5;
    forall k | 0 <= k < |EXT| ensures EXT[k] != '/' && EXT[k] != ':' {
      ExtensionHasNoSeparator(k);
    }
  }

  lemma {:induction false} JoinTail(segments: seq<string>, sep: string)
    requires segments != []
    ensures Join(WithTail(segments, EXT), sep) == Join(segments, sep) + EXT
    decreases |segments|
  {
    if |segments| > 1 {
      JoinTail(segments[1..], sep);
      assert WithTail(segments, EXT)[1..] == WithTail(segments[1..], EXT);
      assert segments[0] + sep + (Join(segments[1..], sep) + EXT) == segments[0] + sep + Join(segments[1..], sep) + EXT;
    }
  }
}
