/** The clean-up steps shared by both name sanitizers. */
module NameShape {
  // Replacements applied in some iteration order of a Go map, collapsing runs, and trimming
  // hyphens and underscores.

  import opened Common
  import opened Text

  /** A replacement table's keys are replaced as they stand. */
  const VERBATIM: string -> string := key => key

  // ---- One simultaneous substitution ----

  /** Every character is replaced once, by the entry for it if there is one. */
  function Substitute(name: string, table: Table): string {
    if name == "" then ""
    else (if [name[0]] in table then table[[name[0]]] else [name[0]]) + Substitute(name[1..], table)
  }

  ghost predicate SingleCharKeys(table: Table) {
    forall k :: k in table ==> |k| == 1
  }

  /** No entry's text contains the key of another entry, unless that one replaces its key by itself. */
  ghost predicate NoInterference(table: Table) {
    forall k, other :: k in table && other in table && k != other && |other| == 1 && other[0] in table[k] ==> table[other] == other
  }

  lemma {:induction false} ReplaceAllAppend(a: string, b: string, c: char, text: string)
    ensures ReplaceAll(a + b, [c], text) == ReplaceAll(a, [c], text) + ReplaceAll(b, [c], text)
    decreases |a|
  {
    if a == "" {
      assert a + b == b;
    } else {
      assert (a + b)[1..] == a[1..] + b;
      ReplaceAllAppend(a[1..], b, c, text);
    }
  }

  lemma {:induction false} ReplaceAbsent(s: string, c: char, text: string)
    requires c !in s
    ensures ReplaceAll(s, [c], text) == s
    decreases |s|
  {
    if s != "" {
      assert s == [s[0]] + s[1..];
      ReplaceAbsent(s[1..], c, text);
    }
  }

  /** Replacing one more key amounts to adding its entry to the simultaneous table. */
  lemma {:induction false} SubstituteOneMore(name: string, table: Table, key: string, text: string)
    requires |key| == 1 && key !in table
    requires forall k :: k in table ==> key[0] !in table[k]
    ensures ReplaceAll(Substitute(name, table), key, text) == Substitute(name, table[key := text])
    decreases |name|
  {
    if name != "" {
      var head := if [name[0]] in table then table[[name[0]]] else [name[0]];
      assert key == [key[0]];
      ReplaceAllAppend(head, Substitute(name[1..], table), key[0], text);
      SubstituteOneMore(name[1..], table, key, text);
      if [name[0]] == key {
        assert ReplaceAll(head, key, text) == text + ReplaceAll("", key, text);
      } else {
        ReplaceAbsent(head, key[0], text);
      }
    }
  }

  lemma {:induction false} SubstituteNothing(name: string)
    ensures Substitute(name, map[]) == name
    decreases |name|
  {
    if name != "" {
      SubstituteNothing(name[1..]);
      assert name == [name[0]] + name[1..];
    }
  }

  ghost function Restrict(table: Table, order: seq<string>): Table
    requires forall k :: k in order ==> k in table
  {
    map k | k in order :: table[k]
  }

  lemma RestrictMore(table: Table, init: seq<string>, last: string)
    requires last in table && forall k :: k in init ==> k in table
    ensures Restrict(table, init + [last]) == Restrict(table, init)[last := table[last]]
  {
  }

  lemma {:induction false} SubstituteItself(name: string, table: Table, key: string)
    requires |key| == 1 && key !in table
    ensures Substitute(name, table[key := key]) == Substitute(name, table)
    decreases |name|
  {
    if name != "" {
      SubstituteItself(name[1..], table, key);
    }
  }

  /** Under non-interfering one-character keys, every iteration order is one simultaneous substitution. */
  lemma {:induction false} OrderIrrelevant(name: string, order: seq<string>, table: Table)
    requires SingleCharKeys(table) && NoInterference(table)
    requires forall k :: k in order ==> k in table
    requires forall i, j :: 0 <= i < j < |order| ==> order[i] != order[j]
    ensures ReplaceInOrder(name, order, table, VERBATIM) == Substitute(name, Restrict(table, order))
    decreases |order|
  {
    if order == [] {
      assert Restrict(table, order) == map[];
      SubstituteNothing(name);
    } else {
      var init, last := order[..|order| - 1], order[|order| - 1];
      assert order == init + [last] && last in order && last !in init;
      OrderIrrelevant(name, init, table);
      RestrictMore(table, init, last);
      OneKeyMore(name, Restrict(table, init), last, table);
    }
  }

  lemma OneKeyMore(name: string, part: Table, key: string, table: Table)
    requires SingleCharKeys(table) && NoInterference(table) && key in table && key !in part
    requires forall k :: k in part ==> k in table && part[k] == table[k]
    ensures ReplaceAll(Substitute(name, part), key, table[key]) == Substitute(name, part[key := table[key]])
  {
    if table[key] == key {
      ReplaceByItself(Substitute(name, part), key);
      SubstituteItself(name, part, key);
    } else {
      SubstituteOneMore(name, part, key, table[key]);
    }
  }

  // ---- Interference is always visible ----

  lemma {:induction false} OthersPassOver(s: string, order: seq<string>, table: Table)
    requires forall k :: k in order ==> k in table && |k| == 1 && k[0] !in s
    ensures ReplaceInOrder(s, order, table, VERBATIM) == s
    decreases |order|
  {
    if order != [] {
      var init, last := order[..|order| - 1], order[|order| - 1];
      assert last in order && last == [last[0]];
      OthersPassOver(s, init, table);
      ReplaceAbsent(s, last[0], table[last]);
    }
  }

  lemma {:induction false} OccursHits(s: string, c: char)
    requires c in s
    ensures Hits(s, [c]) > 0
    decreases |s|
  {
    if s[0] != c {
      OccursHits(s[1..], c);
    }
  }

  /** An entry that another one feeds: visited before or after it, the other makes a difference to its key. */
  lemma InterferenceIsVisible(table: Table, key: string, other: string) returns (before: seq<string>, after: seq<string>)
    requires SingleCharKeys(table) && key in table && other in table && key != other
    requires other[0] in table[key] && table[other] != other
    ensures IsOrdering(before, table.Keys) && IsOrdering(after, table.Keys)
    ensures ReplaceInOrder(key, before, table, VERBATIM) != ReplaceInOrder(key, after, table, VERBATIM)
  {
    var rest := TwoLast(table.Keys, key, other);
    before, after := rest + [key] + [other], rest + [other] + [key];
    forall k | k in rest ensures |k| == 1 && k[0] !in key {
      assert k == [k[0]] && key == [key[0]];
    }
    OthersPassOver(key, rest, table);
    KeyThenOther(key, rest, key, other, table);
    KeyThenOther(key, rest, other, key, table);
    FedIsChanged(key, other, table[key], table[other]);
  }

  /** On the key itself, the other entry has something to change only after the key was replaced. */
  lemma FedIsChanged(key: string, other: string, text: string, otherText: string)
    requires |key| == 1 && |other| == 1 && key != other && other[0] in text && otherText != other
    ensures ReplaceAll(ReplaceAll(key, key, text), other, otherText) != ReplaceAll(ReplaceAll(key, other, otherText), key, text)
  {
    assert key == [key[0]] && other == [other[0]];
    ReplaceAbsent(key, other[0], otherText);
    assert ReplaceAll(key, key, text) == text + ReplaceAll("", key, text) == text;
    OccursHits(text, other[0]);
    ReplaceChanges(text, other, otherText);
  }

  lemma KeyThenOther(s: string, rest: seq<string>, first: string, second: string, table: Table)
    requires first in table && second in table && forall k :: k in rest ==> k in table
    ensures ReplaceInOrder(s, rest + [first] + [second], table, VERBATIM) ==
            ReplaceAll(ReplaceAll(ReplaceInOrder(s, rest, table, VERBATIM), first, table[first]), second, table[second])
  {
    ReplaceNext(s, rest, first, table, VERBATIM);
    ReplaceNext(s, rest + [first], second, table, VERBATIM);
  }

  /** Two runs of the replacement loop agree, whatever orders Go picks. */
  ghost predicate OrdersAgree(name: string, table: Table) {
    forall a, b :: IsOrdering(a, table.Keys) && IsOrdering(b, table.Keys) ==>
      ReplaceInOrder(name, a, table, VERBATIM) == ReplaceInOrder(name, b, table, VERBATIM)
  }

  /** For one-character keys, the order shows in no name if and only if no entry feeds another. */
  lemma OrderShowsExactly(table: Table)
    requires SingleCharKeys(table)
    ensures (forall name :: OrdersAgree(name, table)) <==> NoInterference(table)
  {
    if NoInterference(table) {
      forall name, a, b | IsOrdering(a, table.Keys) && IsOrdering(b, table.Keys)
        ensures ReplaceInOrder(name, a, table, VERBATIM) == ReplaceInOrder(name, b, table, VERBATIM)
      {
        OrderIrrelevant(name, a, table);
        OrderIrrelevant(name, b, table);
        assert Restrict(table, a) == Restrict(table, b);
      }
    } else {
      var key, other :| key in table && other in table && key != other && |other| == 1 && other[0] in table[key] && table[other] != other;
      var before, after := InterferenceIsVisible(table, key, other);
      assert !OrdersAgree(key, table);
    }
  }

  // ---- Collapsing and trimming ----

  /** regexp `c+` replaced by a single `c` */
  function Squeeze(s: string, c: char): string {
    if |s| < 2 then s
    else if s[0] == c && s[1] == c then Squeeze(s[1..], c)
    else [s[0]] + Squeeze(s[1..], c)
  }

  ghost predicate NoRun(s: string, c: char) {
    forall i :: 0 <= i < |s| - 1 ==> !(s[i] == c && s[i + 1] == c)
  }

  predicate IsEdge(c: char) {
    c == '-' || c == '_'
  }

  function TrimLeft(s: string): string {
    if s != "" && IsEdge(s[0]) then TrimLeft(s[1..]) else s
  }

  function TrimRight(s: string): string {
    if s != "" && IsEdge(s[|s| - 1]) then TrimRight(s[..|s| - 1]) else s
  }

  /** strings.Trim(s, "-_") */
  function Trim(s: string): string {
    TrimRight(TrimLeft(s))
  }

  ghost predicate CleanStart(s: string) {
    s != "" ==> !IsEdge(s[0])
  }

  ghost predicate CleanEnd(s: string) {
    s != "" ==> !IsEdge(s[|s| - 1])
  }

  lemma {:induction false} SqueezeShape(s: string, c: char)
    ensures NoRun(Squeeze(s, c), c)
    ensures s != "" ==> Squeeze(s, c) != "" && Squeeze(s, c)[0] == s[0]
    ensures forall x :: x in Squeeze(s, c) ==> x in s
    ensures forall d :: NoRun(s, d) ==> NoRun(Squeeze(s, c), d)
    decreases |s|
  {
    if |s| >= 2 {
      SqueezeShape(s[1..], c);
      assert s == [s[0]] + s[1..];
      var rest := Squeeze(s[1..], c);
      forall d | NoRun(s, d) ensures NoRun(Squeeze(s, c), d) {
        assert NoRun(s[1..], d) by {
          forall i | 0 <= i < |s[1..]| - 1 ensures !(s[1..][i] == d && s[1..][i + 1] == d) {
            assert s[1..][i] == s[i + 1] && s[1..][i + 1] == s[i + 2];
          }
        }
        assert !(s[0] == d && s[1] == d);
      }
    }
  }

  lemma {:induction false} SqueezeFixed(s: string, c: char)
    requires NoRun(s, c)
    ensures Squeeze(s, c) == s
    decreases |s|
  {
    if |s| >= 2 {
      assert !(s[0] == c && s[1] == c);
      assert NoRun(s[1..], c) by {
        forall i | 0 <= i < |s[1..]| - 1 ensures !(s[1..][i] == c && s[1..][i + 1] == c) {
          assert s[1..][i] == s[i + 1] && s[1..][i + 1] == s[i + 2];
        }
      }
      SqueezeFixed(s[1..], c);
    }
  }

  /** `part` is a stretch of `s`. */
  ghost predicate Within(part: string, s: string) {
    exists i, j :: 0 <= i <= j <= |s| && part == s[i..j]
  }

  lemma WithinKeeps(part: string, s: string)
    requires Within(part, s)
    ensures forall c :: c in part ==> c in s
    ensures forall c :: NoRun(s, c) ==> NoRun(part, c)
  {
    var i, j :| 0 <= i <= j <= |s| && part == s[i..j];
    forall c | NoRun(s, c) ensures NoRun(part, c) {
      forall k | 0 <= k < |part| - 1 ensures !(part[k] == c && part[k + 1] == c) {
        assert part[k] == s[i + k] && part[k + 1] == s[i + k + 1];
      }
    }
  }

  lemma {:induction false} TrimLeftWithin(s: string)
    ensures exists i :: 0 <= i <= |s| && TrimLeft(s) == s[i..]
    ensures CleanStart(TrimLeft(s))
    decreases |s|
  {
    if s != "" && IsEdge(s[0]) {
      TrimLeftWithin(s[1..]);
      var i :| 0 <= i <= |s[1..]| && TrimLeft(s[1..]) == s[1..][i..];
      assert s[1..][i..] == s[i + 1..];
    } else {
      assert s == s[0..];
    }
  }

  lemma {:induction false} TrimRightWithin(s: string)
    ensures exists j :: 0 <= j <= |s| && TrimRight(s) == s[..j]
    ensures CleanEnd(TrimRight(s))
    decreases |s|
  {
    if s != "" && IsEdge(s[|s| - 1]) {
      TrimRightWithin(s[..|s| - 1]);
      var j :| 0 <= j <= |s[..|s| - 1]| && TrimRight(s[..|s| - 1]) == s[..|s| - 1][..j];
      assert s[..|s| - 1][..j] == s[..j];
    } else {
      assert s == s[..|s|];
    }
  }

  lemma TrimShape(s: string)
    ensures Within(Trim(s), s)
    ensures CleanStart(Trim(s)) && CleanEnd(Trim(s))
  {
    TrimLeftWithin(s);
    var left := TrimLeft(s);
    TrimRightWithin(left);
    var i :| 0 <= i <= |s| && left == s[i..];
    var j :| 0 <= j <= |left| && Trim(s) == left[..j];
    assert Trim(s) == s[i..i + j];
  }
}
