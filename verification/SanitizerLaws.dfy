/** What a sanitizer does to each part of a name. */
module SanitizerLaws {
  // Rules that rewrite any name step by step to a clean one, which the sanitizers leave
  // alone; together they determine the result for every name.

  import opened Common
  import opened Text
  import opened NameShape
  import opened Sanitizer
  import opened ClaudeNames

  // ---- The single steps ----

  lemma {:induction false} FilterAppend(a: string, b: string, keep: char -> bool)
    ensures Filter(a + b, keep) == Filter(a, keep) + Filter(b, keep)
    decreases |a|
  {
    if a == "" {
      assert a + b == b;
    } else {
      assert (a + b)[1..] == a[1..] + b;
      FilterAppend(a[1..], b, keep);
    }
  }

  lemma FilterOne(c: char, keep: char -> bool)
    ensures Filter([c], keep) == if keep(c) then [c] else ""
  {
    assert [c][1..] == "";
  }

  lemma {:induction false} SubstituteAppend(a: string, b: string, table: Table)
    ensures Substitute(a + b, table) == Substitute(a, table) + Substitute(b, table)
    decreases |a|
  {
    if a == "" {
      assert a + b == b;
    } else {
      assert (a + b)[1..] == a[1..] + b;
      SubstituteAppend(a[1..], b, table);
    }
  }

  lemma SubstituteOne(c: char, table: Table)
    ensures Substitute([c], table) == if [c] in table then table[[c]] else [c]
  {
    assert [c][1..] == "";
  }

  lemma SqueezeFirst(e: char, s: string, c: char)
    ensures Squeeze([e] + s, c) == if e == c && s != "" && s[0] == c then Squeeze(s, c) else [e] + Squeeze(s, c)
  {
    assert ([e] + s)[1..] == s;
  }

  lemma {:induction false} SqueezeLast(s: string, e: char, c: char)
    ensures Squeeze(s + [e], c) == if e == c && s != "" && s[|s| - 1] == c then Squeeze(s, c) else Squeeze(s, c) + [e]
    decreases |s|
  {
    if s == "" {
      assert s + [e] == [e];
    } else {
      assert s + [e] == [s[0]] + (s[1..] + [e]) && s == [s[0]] + s[1..];
      SqueezeLast(s[1..], e, c);
      SqueezeFirst(s[0], s[1..] + [e], c);
      SqueezeFirst(s[0], s[1..], c);
      if |s| == 1 {
        assert s[1..] + [e] == [e];
      }
    }
  }

  /** A run of two counts as one, wherever it stands. */
  lemma {:induction false} SqueezeTwo(a: string, b: string, c: char)
    ensures Squeeze(a + [c, c] + b, c) == Squeeze(a + [c] + b, c)
    decreases |a|
  {
    if a == "" {
      SqueezeFirst(c, [c] + b, c);
      assert a + [c, c] + b == [c] + ([c] + b) && a + [c] + b == [c] + b;
    } else {
      var long, short := a[1..] + [c, c] + b, a[1..] + [c] + b;
      SqueezeTwo(a[1..], b, c);
      SqueezeFirst(a[0], long, c);
      SqueezeFirst(a[0], short, c);
      assert a + [c, c] + b == [a[0]] + long && a + [c] + b == [a[0]] + short;
      assert long[0] == short[0];
    }
  }

  /** Another character ends a run. */
  lemma {:induction false} SqueezeAround(a: string, x: char, b: string, c: char)
    requires x != c
    ensures Squeeze(a + [x] + b, c) == Squeeze(a, c) + [x] + Squeeze(b, c)
    decreases |a|
  {
    if a == "" {
      assert a + [x] + b == [x] + b;
      SqueezeFirst(x, b, c);
    } else {
      assert a + [x] + b == [a[0]] + (a[1..] + [x] + b) && a == [a[0]] + a[1..];
      SqueezeAround(a[1..], x, b, c);
      SqueezeFirst(a[0], a[1..] + [x] + b, c);
      SqueezeFirst(a[0], a[1..], c);
    }
  }

  lemma TrimFirst(e: char, s: string)
    requires e == '-' || e == '_'
    ensures Trim([e] + s) == Trim(s)
  {
    assert ([e] + s)[1..] == s;
  }

  lemma {:induction false} TrimLeftLast(s: string, e: char)
    requires e == '-' || e == '_'
    ensures TrimLeft(s + [e]) == if TrimLeft(s) == "" then "" else TrimLeft(s) + [e]
    decreases |s|
  {
    if s == "" {
      assert s + [e] == [e] && [e][1..] == "";
    } else if IsEdge(s[0]) {
      assert (s + [e])[1..] == s[1..] + [e];
      TrimLeftLast(s[1..], e);
    }
  }

  lemma TrimLast(s: string, e: char)
    requires e == '-' || e == '_'
    ensures Trim(s + [e]) == Trim(s)
  {
    TrimLeftLast(s, e);
    var left := TrimLeft(s);
    assert (left + [e])[..|left|] == left;
  }

  /** Nothing is trimmed from a name with clean ends. */
  lemma TrimFixed(s: string)
    requires s != "" ==> s[0] !in {'-', '_'} && s[|s| - 1] !in {'-', '_'}
    ensures Trim(s) == s
  {
  }

  // ---- The Claude preset ----

  predicate IsSeparator(c: char) {
    c in {'/', ' ', '.'}
  }

  predicate IsPlain(c: char) {
    'a' <= c <= 'z' || 'A' <= c <= 'Z' || '0' <= c <= '9' || c == '_' || c == '-'
  }

  /** The name after replacing and filtering */
  function Kept(name: string): string {
    Filter(Substitute(name, PROBLEMATIC), IsNameChar)
  }

  lemma KeptAppend(a: string, b: string)
    ensures Kept(a + b) == Kept(a) + Kept(b)
  {
    SubstituteAppend(a, b, PROBLEMATIC);
    FilterAppend(Substitute(a, PROBLEMATIC), Substitute(b, PROBLEMATIC), IsNameChar);
  }

  lemma KeptOne(c: char)
    ensures Kept([c]) == if IsSeparator(c) then "-" else if IsPlain(c) then [c] else ""
  {
    SubstituteOne(c, PROBLEMATIC);
    if IsSeparator(c) {
      assert [c] in PROBLEMATIC && PROBLEMATIC[[c]] == "-";
      FilterOne('-', IsNameChar);
    } else {
      assert [c][0] == c && [c] !in PROBLEMATIC;
      FilterOne(c, IsNameChar);
    }
  }

  lemma KeptAround(a: string, c: char, b: string)
    ensures Kept(a + [c] + b) == Kept(a) + (if IsSeparator(c) then "-" else if IsPlain(c) then [c] else "") + Kept(b)
  {
    KeptAppend(a + [c], b);
    KeptAppend(a, [c]);
    KeptOne(c);
  }

  /** Removing the prefix is never seen in the result: an at sign is no name character. */
  lemma PrefixDoesNotShow(name: string)
    ensures Claude(name) == Finished(Cleaned(name))
  {
    if "@" <= name {
      assert name == "" + ['@'] + name[1..];
      KeptAround("", '@', name[1..]);
      assert Kept(name) == Kept(name[1..]);
    }
  }

  /** A character that is neither a separator nor allowed in a name makes no difference. */
  lemma ClaudeDrops(a: string, c: char, b: string)
    requires !IsSeparator(c) && !IsPlain(c)
    ensures Claude(a + [c] + b) == Claude(a + b)
  {
    KeptAround(a, c, b);
    KeptAppend(a, b);
    assert Kept(a) + "" + Kept(b) == Kept(a) + Kept(b);
    PrefixDoesNotShow(a + [c] + b);
    PrefixDoesNotShow(a + b);
  }

  /** A separator counts as a hyphen. */
  lemma ClaudeReplaces(a: string, c: char, b: string)
    requires IsSeparator(c)
    ensures Claude(a + [c] + b) == Claude(a + "-" + b)
  {
    KeptAround(a, c, b);
    KeptAround(a, '-', b);
    PrefixDoesNotShow(a + [c] + b);
    PrefixDoesNotShow(a + "-" + b);
  }

  /** Two hyphens count as one; underscores may repeat. */
  lemma ClaudeCollapses(a: string, b: string)
    ensures Claude(a + "--" + b) == Claude(a + "-" + b)
  {
    assert a + "--" + b == (a + "-") + ['-'] + b;
    KeptAround(a + "-", '-', b);
    KeptAround(a, '-', "");
    assert a + ['-'] + "" == a + "-" && Kept("") == "";
    KeptAround(a, '-', b);
    assert Kept(a) + "-" + "" + "-" + Kept(b) == Kept(a) + ['-', '-'] + Kept(b);
    SqueezeTwo(Kept(a), Kept(b), '-');
    PrefixDoesNotShow(a + "--" + b);
    PrefixDoesNotShow(a + "-" + b);
  }

  /** Hyphens and underscores around a name do not matter. */
  lemma ClaudeTrims(name: string, e: char)
    requires e == '-' || e == '_'
    ensures Claude([e] + name) == Claude(name) == Claude(name + [e])
  {
    KeptOne(e);
    KeptAppend([e], name);
    KeptAppend(name, [e]);
    SqueezeFirst(e, Kept(name), '-');
    SqueezeLast(Kept(name), e, '-');
    TrimFirst(e, Squeeze(Kept(name), '-'));
    TrimLast(Squeeze(Kept(name), '-'), e);
    PrefixDoesNotShow([e] + name);
    PrefixDoesNotShow(name);
    PrefixDoesNotShow(name + [e]);
  }

  /** A name that none of these rules changes comes out as its first 64 characters; of an empty one nothing is left. */
  lemma ClaudeOfClean(name: string)
    requires forall c :: c in name ==> IsPlain(c)
    requires forall i :: 0 <= i < |name| - 1 ==> !(name[i] == '-' && name[i + 1] == '-')
    requires name != "" ==> name[0] !in {'-', '_'} && name[|name| - 1] !in {'-', '_'}
    ensures Claude(name) == if name == "" then "unnamed-server" else if |name| <= 64 then name else name[..64]
  {
    OnlyTrimmed(name);
    TrimFixed(name);
  }

  // ---- The configurable sanitizer ----

  /** A character on the removal list makes no difference. */
  lemma CoreDrops(a: string, c: char, b: string, removeChars: string)
    requires c in removeChars
    ensures Core(a + [c] + b, removeChars) == Core(a + b, removeChars)
  {
    var keep := Outside(removeChars);
    FilterAppend(a + [c], b, keep);
    FilterAppend(a, [c], keep);
    FilterAppend(a, b, keep);
    FilterOne(c, keep);
    assert Filter(a, keep) + "" == Filter(a, keep);
  }

  /** Two hyphens or two underscores in a row count as one. */
  lemma CoreCollapses(a: string, c: char, b: string, removeChars: string)
    requires c == '-' || c == '_'
    ensures Core(a + [c, c] + b, removeChars) == Core(a + [c] + b, removeChars)
  {
    assert a + [c, c] + b == (a + [c]) + [c] + b;
    if c in removeChars {
      CoreDrops(a + [c], c, b, removeChars);
    } else {
      var keep := Outside(removeChars);
      KeepsAround(a, [c, c], b, keep);
      KeepsAround(a, [c], b, keep);
      FilterAll([c, c], keep);
      FilterAll([c], keep);
      BothSqueezed(Filter(a, keep), c, Filter(b, keep));
    }
  }

  lemma KeepsAround(a: string, m: string, b: string, keep: char -> bool)
    ensures Filter(a + m + b, keep) == Filter(a, keep) + Filter(m, keep) + Filter(b, keep)
  {
    FilterAppend(a + m, b, keep);
    FilterAppend(a, m, keep);
  }

  lemma BothSqueezed(a: string, c: char, b: string)
    requires c == '-' || c == '_'
    ensures Squeeze(Squeeze(a + [c, c] + b, '-'), '_') == Squeeze(Squeeze(a + [c] + b, '-'), '_')
  {
    if c == '-' {
      SqueezeTwo(a, b, '-');
    } else {
      SqueezeAround(a, '_', b, '-');
      HyphensAroundTwo(a, b);
      SqueezeTwo(Squeeze(a, '-'), Squeeze(b, '-'), '_');
    }
  }

  lemma HyphensAroundTwo(a: string, b: string)
    ensures Squeeze(a + ['_', '_'] + b, '-') == Squeeze(a, '-') + ['_', '_'] + Squeeze(b, '-')
  {
    var x, y := Squeeze(a, '-'), Squeeze(b, '-');
    assert a + ['_', '_'] + b == a + ['_'] + (['_'] + b);
    SqueezeAround(a, '_', ['_'] + b, '-');
    SqueezeFirst('_', b, '-');
    assert x + ['_'] + (['_'] + y) == x + ['_', '_'] + y;
  }

  /** Hyphens and underscores around a name do not matter. */
  lemma CoreTrims(name: string, e: char, removeChars: string)
    requires e == '-' || e == '_'
    ensures Core([e] + name, removeChars) == Core(name, removeChars) == Core(name + [e], removeChars)
  {
    var keep := Outside(removeChars);
    var s := Filter(name, keep);
    FilterOne(e, keep);
    FilterAppend([e], name, keep);
    FilterAppend(name, [e], keep);
    assert "" + s == s == s + "";
    EdgesSqueezed(s, e);
  }

  lemma EdgesSqueezed(s: string, e: char)
    requires e == '-' || e == '_'
    ensures Trim(Squeeze(Squeeze([e] + s, '-'), '_')) == Trim(Squeeze(Squeeze(s, '-'), '_'))
    ensures Trim(Squeeze(Squeeze(s + [e], '-'), '_')) == Trim(Squeeze(Squeeze(s, '-'), '_'))
  {
    var once := Squeeze(s, '-');
    SqueezeFirst(e, s, '-');
    SqueezeFirst(e, once, '_');
    TrimFirst(e, Squeeze(once, '_'));
    SqueezeLast(s, e, '-');
    SqueezeLast(once, e, '_');
    TrimLast(Squeeze(once, '_'), e);
  }

  /** A name that none of these rules changes is left as it is. */
  lemma CoreOfClean(name: string, removeChars: string)
    requires forall c :: c in name ==> c !in removeChars
    requires forall i :: 0 <= i < |name| - 1 && name[i] == name[i + 1] ==> name[i] !in {'-', '_'}
    requires name != "" ==> name[0] !in {'-', '_'} && name[|name| - 1] !in {'-', '_'}
    ensures Core(name, removeChars) == name
  {
    FilterAll(name, Outside(removeChars));
    SqueezeFixed(name, '-');
    SqueezeFixed(name, '_');
    TrimFixed(name);
  }

  /** The result is what the replacements leave, cleaned, or the fallback if that is nothing, up to the limit. */
  lemma SanitizedFrom(z: ReplacementSanitizer, name: string, order: seq<string>)
    requires forall k :: k in order ==> k in z.replacements
    ensures var core := Core(ReplaceInOrder(name, order, z.replacements, VERBATIM), z.removeChars);
            var whole := if core == "" then "unnamed" else core;
            z.InOrder(name, order) == if 0 < z.maxLength < |whole| then whole[..z.maxLength] else whole
  {
  }
}
