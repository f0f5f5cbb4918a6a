/**
 filepath.Clean and filepath.Join on slash-separated paths, and the two key/path
 conversions of FileStorage. A plain key's segments become directories below the base.
 */
module Paths {
  import opened Text

  const EXT := ".json"

  /** filepath.Clean's element stack: empty and `.` elements vanish, `..` pops. */
  function Reduce(elems: seq<string>, stack: seq<string>, rooted: bool): seq<string> {
    if elems == [] then stack
    else if elems[0] == "" || elems[0] == "." then Reduce(elems[1..], stack, rooted)
    else if elems[0] == ".." then
      if stack != [] && stack[|stack| - 1] != ".." then Reduce(elems[1..], stack[..|stack| - 1], rooted)
      else if rooted then Reduce(elems[1..], stack, rooted)
      else Reduce(elems[1..], stack + [".."], rooted)
    else Reduce(elems[1..], stack + [elems[0]], rooted)
  }

  predicate Rooted(path: string) {
    path != "" && path[0] == '/'
  }

  function CleanElements(path: string): seq<string> {
    Reduce(Split(path, "/"), [], Rooted(path))
  }

  function Clean(path: string): string {
    if path == "" then "."
    else
      Rejoined(Rooted(path), Join(CleanElements(path), "/"))
  }

  function Rejoined(rooted: bool, body: string): string {
    if rooted then "/" + body else if body == "" then "." else body
  }

  /** filepath.Join: leading empty elements are dropped, the rest is joined and cleaned. */
  function JoinPath(elems: seq<string>): string {
    if elems == [] then ""
    else if elems[0] == "" then JoinPath(elems[1..])
    else Clean(Join(elems, "/"))
  }

  /** What precedes everything below a base directory: its cleaned elements, each followed by a slash. */
  function Root(base: string): string {
    (if Rooted(base) then "/" else "") + Leading(CleanElements(base))
  }

  function Leading(elems: seq<string>): string {
    if elems == [] then "" else Join(elems, "/") + "/"
  }

  function KeyToPath(base: string, key: string): string {
    WithExtension(JoinPath([base, JoinPath(Split(key, ":"))]))
  }

  function WithExtension(path: string): string {
    if HasSuffix(path, EXT) then path else path + EXT
  }

  function PathToKey(rel: string): string {
    var stem := if HasSuffix(rel, EXT) then rel[..|rel| - |EXT|] else rel;
    ReplaceAll(stem, "/", ":")
  }

  // ---- The keys the storage is meant for ----

  predicate PlainElement(e: string) {
    e != "" && e != "." && e != ".."
  }

  /** Where a walk of the base directory finds its files. */
  predicate Below(base: string, location: string) {
    Root(base) <= location && forall e :: e in Split(location[|Root(base)|..], "/") ==> PlainElement(e)
  }

  /** filepath.Rel for a file below the base */
  function Relative(base: string, location: string): string
    requires Root(base) <= location
  {
    location[|Root(base)|..]
  }

  /** The key with slashes for colons: its file's path below the base, without the extension. */
  function Stem(key: string): string {
    ReplaceAll(key, ":", "/")
  }

  /** The key under which FileStorage lists what was written under `key`. */
  function Canon(key: string): string {
    ReplaceAll(key, "/", ":")
  }

  /** Plain segments separated by colons (or slashes), and no embedded extension. */
  ghost predicate PlainKey(key: string) {
    && (forall e :: e in Split(Stem(key), "/") ==> PlainElement(e))
    && !Contains(key, EXT)
  }

  /** A plain key without slashes: one that listing gives back unchanged. */
  ghost predicate CanonicalKey(key: string) {
    PlainKey(key) && '/' !in key
  }

  lemma {:induction false} SwapChar(s: string, a: char, b: char)
    ensures var r := ReplaceAll(s, [a], [b]);
            |r| == |s| && forall i :: 0 <= i < |s| ==> r[i] == if s[i] == a then b else s[i]
    decreases |s|
  {
    if s != "" {
      SwapChar(s[1..], a, b);
      var r := ReplaceAll(s, [a], [b]);
      assert r == [if s[0] == a then b else s[0]] + ReplaceAll(s[1..], [a], [b]);
    }
  }

  /** Splitting at colons and joining with slashes swaps the characters. */
  lemma {:induction false} JoinSplitIsStem(key: string)
    ensures Join(Split(key, ":"), "/") == Stem(key)
    decreases |key|
  {
    if key != "" {
      JoinSplitIsStem(key[1..]);
      if ":" <= key {
        assert Split(key, ":")[1..] == Split(key[1..], ":");
      } else {
        JoinGlue(key[0], Split(key[1..], ":"), "/");
      }
    }
  }

  lemma {:induction false} ReducePlain(elems: seq<string>, stack: seq<string>, rooted: bool)
    requires forall e :: e in elems ==> PlainElement(e)
    ensures Reduce(elems, stack, rooted) == stack + elems
    decreases |elems|
  {
    if elems != [] {
      assert elems[0] in elems && forall e :: e in elems[1..] ==> e in elems;
      ReducePlain(elems[1..], stack + [elems[0]], rooted);
      assert stack + [elems[0]] + elems[1..] == stack + elems;
    }
  }

  lemma {:induction false} JoinAppend(a: seq<string>, b: seq<string>, sep: string)
    requires a != [] && b != []
    ensures Join(a + b, sep) == Join(a, sep) + sep + Join(b, sep)
    decreases |a|
  {
    if |a| == 1 {
      assert (a + b)[1..] == b;
    } else {
      assert (a + b)[1..] == a[1..] + b;
      JoinAppend(a[1..], b, sep);
    }
  }

  lemma {:induction false} PiecesHaveNoSeparator(s: string, sep: char)
    ensures forall p :: p in Split(s, [sep]) ==> sep !in p
    decreases |s|
  {
    if s != "" {
      PiecesHaveNoSeparator(s[1..], sep);
    }
  }

  lemma SplitAppend(a: string, b: string, sep: char)
    ensures Split(a + [sep] + b, [sep]) == Split(a, [sep]) + Split(b, [sep])
  {
    JoinUndoesSplit(a, [sep]);
    JoinUndoesSplit(b, [sep]);
    JoinAppend(Split(a, [sep]), Split(b, [sep]), [sep]);
    PiecesHaveNoSeparator(a, sep);
    PiecesHaveNoSeparator(b, sep);
    SplitUndoesJoin(Split(a, [sep]) + Split(b, [sep]), sep);
  }

  /** Cleaning leaves a path of plain elements alone. */
  lemma CleanPlain(path: string)
    requires forall e :: e in Split(path, "/") ==> PlainElement(e)
    ensures path != "" && path[0] != '/' && Clean(path) == path
  {
    if path == "" || path[0] == '/' {
      assert Split(path, "/")[0] == "";
      assert "" in Split(path, "/");
    }
    ReducePlain(Split(path, "/"), [], false);
    JoinUndoesSplit(path, "/");
    assert [] + Split(path, "/") == Split(path, "/");
  }

  lemma {:induction false} ReduceAppend(a: seq<string>, b: seq<string>, stack: seq<string>, rooted: bool)
    ensures Reduce(a + b, stack, rooted) == Reduce(b, Reduce(a, stack, rooted), rooted)
    decreases |a|
  {
    if a == [] {
      assert a + b == b;
    } else {
      assert (a + b)[1..] == a[1..] + b;
      if a[0] == "" || a[0] == "." {
        ReduceAppend(a[1..], b, stack, rooted);
      } else if a[0] == ".." {
        if stack != [] && stack[|stack| - 1] != ".." {
          ReduceAppend(a[1..], b, stack[..|stack| - 1], rooted);
        } else {
          ReduceAppend(a[1..], b, if rooted then stack else stack + [".."], rooted);
        }
      } else {
        ReduceAppend(a[1..], b, stack + [a[0]], rooted);
      }
    }
  }

  lemma ElementsBelow(base: string, path: string)
    requires base != "" && forall e :: e in Split(path, "/") ==> PlainElement(e)
    ensures CleanElements(base + "/" + path) == CleanElements(base) + Split(path, "/")
    ensures Rooted(base + "/" + path) == Rooted(base)
  {
    assert (base + "/" + path)[0] == base[0];
    SplitAppend(base, path, '/');
    ReduceAppend(Split(base, "/"), Split(path, "/"), [], Rooted(base));
    ReducePlain(Split(path, "/"), CleanElements(base), Rooted(base));
  }

  lemma JoinBelow(above: seq<string>, path: string)
    ensures Join(above + Split(path, "/"), "/") == Leading(above) + path
  {
    JoinUndoesSplit(path, "/");
    if above == [] {
      assert above + Split(path, "/") == Split(path, "/");
    } else {
      JoinAppend(above, Split(path, "/"), "/");
    }
  }

  /** Below any base, relative or not and clean or not, plain elements are appended to the cleaned base. */
  lemma CleanBelowBase(base: string, path: string)
    requires base != "" && path != "" && forall e :: e in Split(path, "/") ==> PlainElement(e)
    ensures Clean(base + "/" + path) == Root(base) + path
  {
    ElementsBelow(base, path);
    JoinBelow(CleanElements(base), path);
    RejoinedBelow(Rooted(base), Leading(CleanElements(base)), path);
  }

  lemma RejoinedBelow(rooted: bool, leading: string, path: string)
    requires path != ""
    ensures Rejoined(rooted, leading + path) == (if rooted then "/" else "") + leading + path
  {
  }

  /** The root is the cleaned base directory and a slash; the current directory is left unsaid. */
  lemma RootIsCleaned(base: string)
    ensures Clean(base) == if Root(base) == "" then "." else if Root(base) == "/" then "/" else Root(base)[..|Root(base)| - 1]
  {
    var elems := CleanElements(base);
    var lead, body := (if Rooted(base) then "/" else ""), Join(elems, "/");
    ReducedNonEmpty(Split(base, "/"), [], Rooted(base));
    if elems != [] {
      assert elems[0] in elems && body != "";
      assert Root(base) == (lead + body) + "/" && Root(base)[..|Root(base)| - 1] == lead + body;
    } else if base == "" {
      assert Root(base) == "";
    } else {
      assert Root(base) == lead && body == "";
    }
  }

  lemma {:induction false} ReducedNonEmpty(elems: seq<string>, stack: seq<string>, rooted: bool)
    requires "" !in stack
    ensures "" !in Reduce(elems, stack, rooted)
    decreases |elems|
  {
    if elems != [] {
      if elems[0] == "" || elems[0] == "." {
        ReducedNonEmpty(elems[1..], stack, rooted);
      } else if elems[0] == ".." {
        if stack != [] && stack[|stack| - 1] != ".." {
          assert stack == stack[..|stack| - 1] + [stack[|stack| - 1]];
          ReducedNonEmpty(elems[1..], stack[..|stack| - 1], rooted);
        } else {
          ReducedNonEmpty(elems[1..], if rooted then stack else stack + [".."], rooted);
        }
      } else {
        ReducedNonEmpty(elems[1..], stack + [elems[0]], rooted);
      }
    }
  }

  /** Swapping separators neither creates nor destroys the extension, which contains none. */
  lemma SwapKeepsExtension(s: string, r: string, a: char, b: char, i: nat)
    requires b == '/' || b == ':'
    requires r == ReplaceAll(s, [a], [b]) && i <= |r|
    requires EXT <= r[i..]
    ensures |s| == |r| && EXT <= s[i..]
  {
    SwapChar(s, a, b);
    forall k | 0 <= k < |EXT| ensures EXT[k] != b {
      ExtensionHasNoSeparator(k);
    }
    SwapKeepsPrefix(s, r, a, b, EXT, i);
  }

  lemma ExtensionHasNoSeparator(k: nat)
    requires k < |EXT|
    ensures EXT[k] != '/' && EXT[k] != ':'
  {
  }

  lemma SwapKeepsPrefix(s: string, r: string, a: char, b: char, p: string, i: nat)
    requires |s| == |r| && forall k :: 0 <= k < |s| ==> r[k] == if s[k] == a then b else s[k]
    requires i <= |r| && p <= r[i..]
    requires forall k :: 0 <= k < |p| ==> p[k] != b
    ensures p <= s[i..]
  {
    forall k | 0 <= k < |p| ensures s[i + k] == p[k] {
      assert r[i + k] == r[i..][k] == p[k];
    }
  }

  lemma NoExtension(root: string, key: string)
    requires root != "" ==> root[|root| - 1] == '/'
    requires !Contains(key, EXT)
    ensures !HasSuffix(root + Stem(key), EXT)
  {
    SwapChar(key, ':', '/');
    var path := root + Stem(key);
    if HasSuffix(path, EXT) {
      var tail := path[|path| - 5..];
      assert root != "" ==> path[|root| - 1] == '/';
      assert forall k :: 0 <= k < 5 ==> path[|path| - 5 + k] == tail[k] != '/';
      assert |key| >= 5;
      assert Stem(key)[|key| - 5..] == tail;
      SwapKeepsExtension(key, Stem(key), ':', '/', |key| - 5);
    }
  }

  /** The elements of a plain key join to its stem, which is clean. */
  lemma JoinedKey(key: string)
    requires PlainKey(key)
    ensures JoinPath(Split(key, ":")) == Stem(key)
  {
    JoinSplitIsStem(key);
    CleanPlain(Stem(key));
    if Split(key, ":")[0] == "" {
      SwapChar(key, ':', '/');
      assert false;
    }
  }

  /** Where a plain key lives: below the base, whatever its spelling, one directory per segment. */
  lemma PathOfPlainKey(base: string, key: string)
    requires PlainKey(key)
    ensures KeyToPath(base, key) == Root(base) + (Stem(key) + EXT)
  {
    JoinedKey(key);
    JoinTwo(base, Stem(key));
    RootEnds(base);
    NoExtension(Root(base), key);
    ExtensionAdded(Root(base) + Stem(key), Root(base), Stem(key));
  }

  lemma ExtensionAdded(path: string, root: string, stem: string)
    requires path == root + stem && !HasSuffix(path, EXT)
    ensures WithExtension(path) == root + (stem + EXT)
  {
    assert root + stem + EXT == root + (stem + EXT);
  }

  lemma JoinTwo(base: string, path: string)
    requires forall e :: e in Split(path, "/") ==> PlainElement(e)
    ensures JoinPath([base, path]) == Root(base) + path
  {
    CleanPlain(path);
    assert [base, path][1..] == [path];
    if base == "" {
      assert JoinPath([path]) == Clean(Join([path], "/")) == path;
    } else {
      CleanBelowBase(base, path);
      assert Join([base, path], "/") == base + "/" + path;
    }
  }

  lemma RootEnds(base: string)
    ensures Root(base) != "" ==> Root(base)[|Root(base)| - 1] == '/'
  {
  }

  /** The last element takes what is appended to the path. */
  function WithTail(elems: seq<string>, tail: string): seq<string>
    requires elems != []
  {
    elems[..|elems| - 1] + [elems[|elems| - 1] + tail]
  }

  lemma WithTailNext(c: char, rest: seq<string>, tail: string)
    requires rest != []
    ensures WithTail([[c] + rest[0]] + rest[1..], tail) == [[c] + WithTail(rest, tail)[0]] + WithTail(rest, tail)[1..]
    ensures WithTail([""] + rest, tail) == [""] + WithTail(rest, tail)
  {
    if |rest| == 1 {
      assert [c] + (rest[0] + tail) == ([c] + rest[0]) + tail;
    }
  }

  lemma {:induction false} SplitTail(path: string, tail: string)
    requires '/' !in tail
    ensures Split(path + tail, "/") == WithTail(Split(path, "/"), tail)
    decreases |path|
  {
    if path == "" {
      assert path + tail == tail;
      SplitWhole(tail, '/');
    } else {
      assert (path + tail)[1..] == path[1..] + tail && (path + tail)[0] == path[0];
      SplitTail(path[1..], tail);
      WithTailNext(path[0], Split(path[1..], "/"), tail);
    }
  }

  lemma PlainFile(stem: string)
    requires forall e :: e in Split(stem, "/") ==> PlainElement(e)
    ensures forall e :: e in Split(stem + EXT, "/") ==> PlainElement(e)
  {
    var elems := Split(stem, "/");
    SplitTail(stem, EXT);
    assert |elems[|elems| - 1] + EXT| > 2;
  }

  /** The conversions undo each other: listing gives back the canonical form of the key. */
  lemma PathRoundTrip(base: string, key: string)
    requires PlainKey(key)
    ensures Below(base, KeyToPath(base, key))
    ensures PathToKey(Relative(base, KeyToPath(base, key))) == Canon(key)
  {
    PathOfPlainKey(base, key);
    PlainFile(Stem(key));
    BelowRoot(base, KeyToPath(base, key), Stem(key) + EXT);
    StripExtension(Stem(key));
    StemBack(key);
  }

  lemma BelowRoot(base: string, location: string, rest: string)
    requires location == Root(base) + rest && forall e :: e in Split(rest, "/") ==> PlainElement(e)
    ensures Below(base, location) && Relative(base, location) == rest
  {
  }

  lemma StripExtension(stem: string)
    ensures PathToKey(stem + EXT) == ReplaceAll(stem, "/", ":")
  {
    var rel := stem + EXT;
    assert rel[..|rel| - |EXT|] == stem && rel[|rel| - |EXT|..] == EXT;
  }

  lemma StemBack(key: string)
    ensures ReplaceAll(Stem(key), "/", ":") == Canon(key)
  {
    SwapChar(key, ':', '/');
    SwapChar(Stem(key), '/', ':');
    SwapChar(key, '/', ':');
  }

  /** Two plain keys share a file exactly when they agree up to the choice of separator. */
  lemma SameFile(base: string, j: string, k: string)
    requires PlainKey(j) && PlainKey(k)
    ensures KeyToPath(base, j) == KeyToPath(base, k) <==> Canon(j) == Canon(k)
  {
    PathRoundTrip(base, j);
    PathRoundTrip(base, k);
    if Canon(j) == Canon(k) {
      StemOfCanon(j);
      StemOfCanon(k);
      PathOfPlainKey(base, j);
      PathOfPlainKey(base, k);
    }
  }

  lemma StemOfCanon(key: string)
    ensures Stem(Canon(key)) == Stem(key)
    ensures '/' !in Canon(key)
    ensures '/' !in key ==> Canon(key) == key
  {
    SwapChar(key, '/', ':');
    SwapChar(key, ':', '/');
    SwapChar(Canon(key), ':', '/');
  }

  lemma CanonIsCanonical(key: string)
    requires PlainKey(key)
    ensures CanonicalKey(Canon(key)) && Canon(Canon(key)) == Canon(key)
  {
    StemOfCanon(key);
    StemOfCanon(Canon(key));
    SwapChar(key, '/', ':');
    if Contains(Canon(key), EXT) {
      var i :| 0 <= i <= |key| && EXT <= Canon(key)[i..];
      SwapKeepsExtension(key, Canon(key), '/', ':', i);
    }
  }

  // ---- Keys without dots ----

  /** Letters, digits, hyphens: the alphabet of the engine's own directories and backup names. */
  ghost predicate Wordy(w: string) {
    w != "" && forall c :: c in w ==> c == '-' || '0' <= c <= '9' || 'a' <= c <= 'z'
  }

  lemma WordyPlain(w: string)
    requires Wordy(w)
    ensures PlainElement(w) && '/' !in w && ':' !in w && '.' !in w
  {
    assert w[0] in w;
  }

  lemma DotlessHasNoExtension(key: string)
    requires '.' !in key
    ensures !Contains(key, EXT)
  {
    forall i | 0 <= i < |key| ensures !(EXT <= key[i..]) {
      assert key[i] in key && key[i..][0] == key[i];
    }
  }

  lemma OneSegment(w: string)
    requires Wordy(w)
    ensures PlainKey(w) && Canon(w) == w
  {
    WordyPlain(w);
    SwapChar(w, ':', '/');
    SwapChar(w, '/', ':');
    assert Stem(w) == w && Canon(w) == w;
    SplitWhole(w, '/');
    DotlessHasNoExtension(w);
  }

  lemma SeparatorsSwap(dir: string, sep: char, id: string)
    requires Wordy(dir) && Wordy(id) && (sep == '/' || sep == ':')
    ensures Stem(dir + [sep] + id) == dir + ['/'] + id
    ensures Canon(dir + [sep] + id) == dir + [':'] + id
    ensures '.' !in dir + [sep] + id
  {
    WordyPlain(dir);
    WordyPlain(id);
    SwapChar(dir + [sep] + id, ':', '/');
    SwapChar(dir + [sep] + id, '/', ':');
  }

  /** A directory and a name, under either separator, are one plain key. */
  lemma TwoSegments(dir: string, sep: char, id: string)
    requires Wordy(dir) && Wordy(id) && (sep == '/' || sep == ':')
    ensures PlainKey(dir + [sep] + id)
    ensures Canon(dir + [sep] + id) == dir + [':'] + id
  {
    SeparatorsSwap(dir, sep, id);
    WordyPlain(dir);
    WordyPlain(id);
    SplitFirst(dir, id, '/');
    SplitWhole(id, '/');
    DotlessHasNoExtension(dir + [sep] + id);
  }
}
