/** The Claude preset. */
module ClaudeNames {
  // Its name pattern `^[a-zA-Z0-9_-]{1,64}$` and the sanitizer that aims for it.

  import opened Common
  import opened Text
  import opened NameShape

  const MAX_NAME := 64
  const FALLBACK := "unnamed-server"

  predicate IsNameChar(c: char) {
    'a' <= c <= 'z' || 'A' <= c <= 'Z' || '0' <= c <= '9' || c == '_' || c == '-'
  }

  /** PatternValidator.ValidateName of the preset accepts the name. */
  ghost predicate MatchesPattern(name: string) {
    1 <= |name| <= MAX_NAME && forall c :: c in name ==> IsNameChar(c)
  }

  const PROBLEMATIC: Table := map["/" := "-", " " := "-", "." := "-"]

  /** What the sanitizer does to a name after the `@` prefix is gone. */
  function Cleaned(name: string): string {
    Trim(Squeeze(Filter(Substitute(name, PROBLEMATIC), IsNameChar), '-'))
  }

  function Stripped(name: string): string {
    if "@" <= name then name[1..] else name
  }

  /** The fallback for a name of which nothing is left, and the length limit. */
  function Finished(clean: string): string {
    var named := if clean == "" then FALLBACK else clean;
    if |named| > MAX_NAME then named[..MAX_NAME] else named
  }

  function Claude(name: string): string {
    Finished(Cleaned(Stripped(name)))
  }

  /** Names that the sanitizer leaves alone. */
  ghost predicate Canonical(name: string) {
    MatchesPattern(name) && NoRun(name, '-') && CleanStart(name) && CleanEnd(name)
  }

  /** No entry of the table feeds another, so its order does not matter. */
  lemma ProblematicInAnyOrder(name: string, order: seq<string>)
    requires IsOrdering(order, PROBLEMATIC.Keys)
    ensures ReplaceInOrder(name, order, PROBLEMATIC, VERBATIM) == Substitute(name, PROBLEMATIC)
  {
    OrderIrrelevant(name, order, PROBLEMATIC);
    assert Restrict(PROBLEMATIC, order) == PROBLEMATIC;
  }

  /** Whatever the order in which the replacement map is visited. */
  method SanitizeForClaude(name: string) returns (r: string)
    ensures r == Claude(name)
    ensures MatchesPattern(r) && NoRun(r, '-') && CleanStart(r)
    ensures CleanEnd(r) || |r| == MAX_NAME
  {
    r := if "@" <= name then name[|"@"|..] else name;
    ghost var stripped := r;
    ghost var order;
    r, order := ReplaceEach(r, PROBLEMATIC, VERBATIM);
    ProblematicInAnyOrder(stripped, order);
    r := Filter(r, IsNameChar);
    r := Squeeze(r, '-');
    r := Trim(r);
    assert r == Cleaned(stripped);
    r := Finish(r);
    ClaudeShape(name);
  }

  method Finish(clean: string) returns (r: string)
    ensures r == Finished(clean)
  {
    r := clean;
    if r == "" {
      r := FALLBACK;
    }
    if |r| > MAX_NAME {
      r := r[..MAX_NAME];
    }
  }

  lemma CleanedShape(name: string)
    ensures NoRun(Cleaned(name), '-') && CleanStart(Cleaned(name)) && CleanEnd(Cleaned(name))
    ensures forall c :: c in Cleaned(name) ==> IsNameChar(c)
  {
    var kept := Filter(Substitute(name, PROBLEMATIC), IsNameChar);
    FilterMembers(Substitute(name, PROBLEMATIC), IsNameChar);
    SqueezeShape(kept, '-');
    TrimShape(Squeeze(kept, '-'));
    WithinKeeps(Cleaned(name), Squeeze(kept, '-'));
  }

  /** Every result passes the preset's own pattern; only truncation can leave a dangling edge. */
  lemma ClaudeShape(name: string)
    ensures MatchesPattern(Claude(name)) && NoRun(Claude(name), '-') && CleanStart(Claude(name))
    ensures CleanEnd(Claude(name)) || |Claude(name)| == MAX_NAME
  {
    CleanedShape(Stripped(name));
    var clean := Cleaned(Stripped(name));
    if |clean| > MAX_NAME {
      assert clean[..MAX_NAME] == clean[0..MAX_NAME];
      WithinKeeps(clean[0..MAX_NAME], clean);
    }
  }

  lemma {:induction false} SubstituteInert(name: string)
    requires forall c :: c in name ==> IsNameChar(c)
    ensures Substitute(name, PROBLEMATIC) == name
    decreases |name|
  {
    if name != "" {
      SubstituteInert(name[1..]);
      assert name[0] in name && name == [name[0]] + name[1..];
      assert [name[0]][0] == name[0];
    }
  }

  /** A name of pattern characters without double hyphens is only trimmed. */
  lemma OnlyTrimmed(name: string)
    requires forall c :: c in name ==> IsNameChar(c)
    requires NoRun(name, '-')
    ensures Stripped(name) == name && Cleaned(name) == Trim(name)
  {
    SubstituteInert(name);
    FilterAll(name, IsNameChar);
    SqueezeFixed(name, '-');
    assert name != "" ==> name[0] in name;
  }

  lemma CanonicalIsFixed(name: string)
    requires Canonical(name)
    ensures Claude(name) == name
  {
    OnlyTrimmed(name);
  }

  /** The fixed points, exactly (PresetSanitizer.NeedsSanitization is false on these and no others). */
  lemma FixedPoints(name: string)
    ensures Claude(name) == name <==> Canonical(name)
  {
    if Canonical(name) {
      CanonicalIsFixed(name);
    }
    if Claude(name) == name {
      ClaudeShape(name);
      OnlyTrimmed(name);
      TrimRightWithin(name);
    }
  }

  /** Sanitizing twice is sanitizing once, except after a truncation that ends on an edge character. */
  lemma TwiceIsOnce(name: string)
    ensures Claude(Claude(name)) == Claude(name) <==> CleanEnd(Claude(name))
  {
    ClaudeShape(name);
    FixedPoints(Claude(name));
  }

  /** The second pass can only trim, so the third always agrees with it. */
  lemma ThriceIsTwice(name: string)
    ensures Claude(Claude(Claude(name))) == Claude(Claude(name))
  {
    var once := Claude(name);
    ClaudeShape(name);
    OnlyTrimmed(once);
    TrimShape(once);
    TrimRightWithin(once);
    var twice := Claude(once);
    ClaudeShape(once);
    assert Cleaned(Stripped(once)) == TrimRight(once);
    assert twice == TrimRight(once) by {
      assert TrimRight(once) != "" by { TrimRightKeepsHead(once); }
    }
    FixedPoints(twice);
  }

  lemma {:induction false} TrimRightKeepsHead(s: string)
    requires s != "" && !IsEdge(s[0])
    ensures TrimRight(s) != ""
    decreases |s|
  {
    if IsEdge(s[|s| - 1]) {
      TrimRightKeepsHead(s[..|s| - 1]);
    }
  }

  /** A name on which one pass is not enough: 63 letters, a hyphen, a letter. */
  lemma OnePassIsNotEnough()
    ensures var name := seq(63, i => 'a') + "-b"; Claude(Claude(name)) != Claude(name)
  {
    var name := seq(63, i => 'a') + "-b";
    OnlyTrimmed(name);
    assert Trim(name) == name;
    assert Claude(name)[63] == '-';
    TwiceIsOnce(name);
  }
}
