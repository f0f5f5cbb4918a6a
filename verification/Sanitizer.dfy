/** The name sanitizer. */
module Sanitizer {
  // Configurable: a replacement table, characters to drop, a length limit.

  import opened Common
  import opened Text
  import opened NameShape

  const FALLBACK := "unnamed"

  function Outside(chars: string): char -> bool {
    c => c !in chars
  }

  /** Drops every character listed in `chars`. */
  function Without(s: string, chars: string): string {
    Filter(s, Outside(chars))
  }

  lemma SkipOrKeep(head: char, tail: string, c: char)
    ensures ReplaceAll([head] + tail, [c], "") ==
            if head == c then ReplaceAll(tail, [c], "") else [head] + ReplaceAll(tail, [c], "")
  {
    var s := [head] + tail;
    assert s[0] == head && s[1..] == tail;
    assert [c] <= s <==> head == c;
  }

  lemma {:induction false} WithoutOneMore(s: string, chars: string, c: char)
    ensures ReplaceAll(Without(s, chars), [c], "") == Without(s, chars + [c])
    decreases |s|
  {
    if s != "" {
      WithoutOneMore(s[1..], chars, c);
      if s[0] !in chars {
        SkipOrKeep(s[0], Without(s[1..], chars), c);
      }
    }
  }

  function Truncate(s: string, maxLength: int): string {
    if 0 < maxLength < |s| then s[..maxLength] else s
  }

  /** What is left of a name after removal, collapsing and trimming. */
  function Core(s: string, removeChars: string): string {
    Trim(Squeeze(Squeeze(Without(s, removeChars), '-'), '_'))
  }

  /** The shape of every sanitized name, whatever the table. */
  ghost predicate WellShaped(r: string, maxLength: int) {
    && r != ""
    && (maxLength > 0 ==> |r| <= maxLength)
    && NoRun(r, '-') && NoRun(r, '_')
    && CleanStart(r)
    && (CleanEnd(r) || |r| == maxLength)
  }

  /** No removed character is left, except in the fallback for a name of which nothing is left. */
  ghost predicate Purged(r: string, core: string, removeChars: string) {
    if core == "" then r <= FALLBACK else forall c :: c in r ==> c !in removeChars
  }

  lemma CoreShape(s: string, removeChars: string)
    ensures NoRun(Core(s, removeChars), '-') && NoRun(Core(s, removeChars), '_')
    ensures CleanStart(Core(s, removeChars)) && CleanEnd(Core(s, removeChars))
    ensures forall c :: c in Core(s, removeChars) ==> c in s && c !in removeChars
  {
    var kept := Without(s, removeChars);
    FilterMembers(s, Outside(removeChars));
    SqueezeShape(kept, '-');
    SqueezeShape(Squeeze(kept, '-'), '_');
    TrimShape(Squeeze(Squeeze(kept, '-'), '_'));
    WithinKeeps(Core(s, removeChars), Squeeze(Squeeze(kept, '-'), '_'));
  }

  lemma FinishShape(s: string, removeChars: string, maxLength: int)
    ensures var core := Core(s, removeChars);
            var r := Truncate(if core == "" then FALLBACK else core, maxLength);
            WellShaped(r, maxLength) && Purged(r, core, removeChars)
  {
    CoreShape(s, removeChars);
    var core := Core(s, removeChars);
    var name := if core == "" then FALLBACK else core;
    if 0 < maxLength < |name| {
      assert Truncate(name, maxLength) == name[0..maxLength];
      WithinKeeps(name[0..maxLength], name);
    }
  }

  datatype ReplacementSanitizer = ReplacementSanitizer(replacements: Table, removeChars: string, maxLength: int)
  {
    /** The result when the replacement map happens to be visited in this order. */
    function InOrder(name: string, order: seq<string>): string
      requires forall k :: k in order ==> k in replacements
    {
      var core := Core(ReplaceInOrder(name, order, replacements, VERBATIM), removeChars);
      Truncate(if core == "" then FALLBACK else core, maxLength)
    }

    /** `r` comes from some order of the replacement map. */
    ghost predicate Possible(name: string, r: string) {
      exists order :: IsOrdering(order, replacements.Keys) && r == InOrder(name, order) &&
        Purged(r, Core(ReplaceInOrder(name, order, replacements, VERBATIM), removeChars), removeChars)
    }

    method Sanitize(name: string) returns (r: string)
      ensures WellShaped(r, maxLength)
      ensures Possible(name, r)
    {
      ghost var order;
      r, order := ReplaceEach(name, replacements, VERBATIM);
      ghost var replaced := r;
      FilterAll(replaced, Outside(""));
      if removeChars != "" {
        for i := 0 to |removeChars|
          invariant r == Without(replaced, removeChars[..i])
        {
          WithoutOneMore(replaced, removeChars[..i], removeChars[i]);
          r := ReplaceAll(r, [removeChars[i]], "");
          assert removeChars[..i + 1] == removeChars[..i] + [removeChars[i]];
        }
        assert removeChars[..|removeChars|] == removeChars;
      }
      r := Squeeze(r, '-');
      r := Squeeze(r, '_');
      r := Trim(r);
      if r == "" {
        r := FALLBACK;
      }
      if maxLength > 0 && |r| > maxLength {
        r := r[..maxLength];
      }
      FinishShape(replaced, removeChars, maxLength);
    }
  }

  /** With one-character keys none of which another entry feeds, the iteration order does not matter. */
  lemma SanitizeOrderIndependent(z: ReplacementSanitizer, name: string, order: seq<string>)
    requires SingleCharKeys(z.replacements) && NoInterference(z.replacements)
    requires IsOrdering(order, z.replacements.Keys)
    ensures ReplaceInOrder(name, order, z.replacements, VERBATIM) == Substitute(name, z.replacements)
    ensures z.InOrder(name, order) ==
            var core := Core(Substitute(name, z.replacements), z.removeChars);
            Truncate(if core == "" then FALLBACK else core, z.maxLength)
  {
    OrderIrrelevant(name, order, z.replacements);
    assert Restrict(z.replacements, order) == z.replacements;
  }

  /** Interference can reach the final result: a becomes b, and b becomes c. */
  lemma OrderReachesResult()
    ensures var z := ReplacementSanitizer(map["a" := "b", "b" := "c"], "", 0);
            && IsOrdering(["a", "b"], z.replacements.Keys)
            && IsOrdering(["b", "a"], z.replacements.Keys)
            && z.InOrder("a", ["a", "b"]) == "c"
            && z.InOrder("a", ["b", "a"]) == "b"
  {
    var table: Table := map["a" := "b", "b" := "c"];
    assert ReplaceInOrder("a", [], table, VERBATIM) == "a";
    assert ["a", "b"][..1] == ["a"] && ["b", "a"][..1] == ["b"];
    assert ["a"][..0] == [] && ["b"][..0] == [];
    assert ReplaceInOrder("a", ["a"], table, VERBATIM) == "b";
    assert ReplaceInOrder("a", ["b"], table, VERBATIM) == "a";
    assert ReplaceInOrder("a", ["a", "b"], table, VERBATIM) == "c";
    assert ReplaceInOrder("a", ["b", "a"], table, VERBATIM) == "b";
    assert Core("c", "") == "c" && Core("b", "") == "b";
  }
}
