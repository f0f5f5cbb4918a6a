/**
 String operations of the Go standard library, on sequences of characters.
 Every scan goes from left to right and never overlaps an earlier match.
 */
module Text {
  import opened Common

  /** strings.HasSuffix */
  predicate HasSuffix(s: string, suffix: string) {
    |suffix| <= |s| && s[|s| - |suffix|..] == suffix
  }

  /** strings.ReplaceAll; an empty pattern matches before every character and at the end. */
  function ReplaceAll(s: string, pat: string, repl: string): string {
    if pat == "" then
      if s == "" then repl else repl + [s[0]] + ReplaceAll(s[1..], pat, repl)
    else if s == "" then ""
    else if pat <= s then repl + ReplaceAll(s[|pat|..], pat, repl)
    else [s[0]] + ReplaceAll(s[1..], pat, repl)
  }

  /** So replacing the empty pattern puts the text before, between and after the characters. */
  lemma {:induction false} ReplaceEmptyJoins(s: string, repl: string)
    ensures ReplaceAll(s, "", repl) == Join([""] + Characters(s) + [""], repl)
    decreases |s|
  {
    var parts := Characters(s) + [""];
    assert [""] + Characters(s) + [""] == [""] + parts && ([""] + parts)[1..] == parts;
    if s != "" {
      var rest := Characters(s[1..]) + [""];
      assert Characters(s) == [[s[0]]] + Characters(s[1..]);
      assert parts == [[s[0]]] + rest && parts[1..] == rest;
      assert [""] + Characters(s[1..]) + [""] == [""] + rest && ([""] + rest)[1..] == rest;
      ReplaceEmptyJoins(s[1..], repl);
      assert "" + repl + Join(rest, repl) == repl + Join(rest, repl);
      assert "" + repl + ([s[0]] + repl + Join(rest, repl)) == repl + [s[0]] + (repl + Join(rest, repl));
    }
  }

  function Characters(s: string): seq<string> {
    seq(|s|, i requires 0 <= i < |s| => [s[i]])
  }

  type Table = map<string, string>

  /** One strings.ReplaceAll per key of a map, in the given order; `pattern` says what stands for a key. */
  function ReplaceInOrder(s: string, order: seq<string>, table: Table, pattern: string -> string): string
    requires forall k :: k in order ==> k in table
  {
    if order == [] then s
    else
      var last := order[|order| - 1];
      ReplaceAll(ReplaceInOrder(s, order[..|order| - 1], table, pattern), pattern(last), table[last])
  }

  /** The replacement loop: the map is visited in an arbitrary order, which the ghost result names. */
  method ReplaceEach(s: string, table: Table, pattern: string -> string) returns (r: string, ghost order: seq<string>)
    ensures IsOrdering(order, table.Keys)
    ensures r == ReplaceInOrder(s, order, table, pattern)
  {
    r := s;
    order := [];
    var pending := table.Keys;
    while pending != {}
      invariant pending <= table.Keys
      invariant IsOrdering(order, table.Keys - pending)
      invariant r == ReplaceInOrder(s, order, table, pattern)
      decreases |pending|
    {
      var key :| key in pending;
      r := ReplaceAll(r, pattern(key), table[key]);
      assert (order + [key])[..|order|] == order;
      OrderingNext(order, table.Keys - pending, key, table.Keys - (pending - {key}));
      order := order + [key];
      pending := pending - {key};
    }
  }

  /** How often the scan of ReplaceAll finds the pattern. */
  function Hits(s: string, pat: string): nat
    requires pat != ""
  {
    if s == "" then 0
    else if pat <= s then 1 + Hits(s[|pat|..], pat)
    else Hits(s[1..], pat)
  }

  lemma {:induction false} ReplaceMissing(s: string, pat: string, repl: string)
    requires pat != "" && Hits(s, pat) == 0
    ensures ReplaceAll(s, pat, repl) == s
    decreases |s|
  {
    if s != "" {
      ReplaceMissing(s[1..], pat, repl);
      assert s == [s[0]] + s[1..];
    }
  }

  lemma {:induction false} ReplaceByItself(s: string, pat: string)
    requires pat != ""
    ensures ReplaceAll(s, pat, pat) == s
    decreases |s|
  {
    if s == "" {
    } else if pat <= s {
      ReplaceByItself(s[|pat|..], pat);
      assert s == pat + s[|pat|..];
    } else {
      ReplaceByItself(s[1..], pat);
      assert s == [s[0]] + s[1..];
    }
  }

  lemma {:induction false} ReplacedLength(s: string, pat: string, repl: string)
    requires pat != ""
    ensures |ReplaceAll(s, pat, repl)| == |s| + Hits(s, pat) * (|repl| - |pat|)
    decreases |s|
  {
    if s == "" {
    } else if pat <= s {
      ReplacedLength(s[|pat|..], pat, repl);
      Distribute(Hits(s[|pat|..], pat), |repl| - |pat|);
    } else {
      ReplacedLength(s[1..], pat, repl);
    }
  }

  lemma Distribute(n: nat, d: int)
    ensures (1 + n) * d == d + n * d
  {
  }

  /** Replacing a pattern that occurs by anything but itself changes the string. */
  lemma {:induction false} ReplaceChanges(s: string, pat: string, repl: string)
    requires pat != "" && Hits(s, pat) > 0 && repl != pat
    ensures ReplaceAll(s, pat, repl) != s
    decreases |s|
  {
    if |repl| != |pat| {
      ReplacedLength(s, pat, repl);
      NonZeroProduct(Hits(s, pat), |repl| - |pat|);
    } else if pat <= s {
      assert ReplaceAll(s, pat, repl)[..|pat|] == repl;
      assert s[..|pat|] == pat;
    } else {
      ReplaceChanges(s[1..], pat, repl);
      assert ReplaceAll(s, pat, repl)[1..] == ReplaceAll(s[1..], pat, repl);
    }
  }

  lemma NonZeroProduct(n: nat, d: int)
    requires n > 0 && d != 0
    ensures n * d != 0
  {
  }

  lemma ReplaceNext(s: string, order: seq<string>, key: string, table: Table, pattern: string -> string)
    requires key in table && forall k :: k in order ==> k in table
    ensures ReplaceInOrder(s, order + [key], table, pattern) ==
            ReplaceAll(ReplaceInOrder(s, order, table, pattern), pattern(key), table[key])
  {
    assert (order + [key])[..|order|] == order;
  }

  /** strings.Split for a non-empty separator */
  function Split(s: string, sep: string): (parts: seq<string>)
    requires sep != ""
    ensures |parts| >= 1
  {
    if s == "" then [""]
    else if sep <= s then [""] + Split(s[|sep|..], sep)
    else
      var rest := Split(s[1..], sep);
      [[s[0]] + rest[0]] + rest[1..]
  }

  /** strings.Join */
  function Join(parts: seq<string>, sep: string): string {
    if |parts| == 0 then ""
    else if |parts| == 1 then parts[0]
    else parts[0] + sep + Join(parts[1..], sep)
  }

  /** The pattern `sub` starts somewhere in `s`. */
  ghost predicate Contains(s: string, sub: string) {
    exists i :: 0 <= i <= |s| && sub <= s[i..]
  }

  /** Keeps the characters that satisfy `keep`, in order. */
  function Filter(s: string, keep: char -> bool): string {
    if s == "" then ""
    else if keep(s[0]) then [s[0]] + Filter(s[1..], keep)
    else Filter(s[1..], keep)
  }

  lemma JoinGlue(c: char, parts: seq<string>, sep: string)
    requires |parts| >= 1
    ensures Join([[c] + parts[0]] + parts[1..], sep) == [c] + Join(parts, sep)
  {
    var glued := [[c] + parts[0]] + parts[1..];
    assert glued[1..] == parts[1..];
    if |parts| > 1 {
      assert [c] + parts[0] + sep + Join(parts[1..], sep) == [c] + (parts[0] + sep + Join(parts[1..], sep));
    }
  }

  lemma JoinEmptyFirst(parts: seq<string>, sep: string)
    requires |parts| >= 1
    ensures Join([""] + parts, sep) == sep + Join(parts, sep)
  {
    assert ([""] + parts)[1..] == parts;
    assert "" + sep + Join(parts, sep) == sep + Join(parts, sep);
  }

  lemma {:induction false} JoinUndoesSplit(s: string, sep: string)
    requires sep != ""
    ensures Join(Split(s, sep), sep) == s
    decreases |s|
  {
    if s == "" {
    } else if sep <= s {
      JoinUndoesSplit(s[|sep|..], sep);
      JoinEmptyFirst(Split(s[|sep|..], sep), sep);
      assert sep + s[|sep|..] == s;
    } else {
      JoinUndoesSplit(s[1..], sep);
      JoinGlue(s[0], Split(s[1..], sep), sep);
    }
  }

  /** A first piece that no separator touches is split off whole. */
  lemma {:induction false} SplitFirst(piece: string, rest: string, sep: char)
    requires sep !in piece
    ensures Split(piece + [sep] + rest, [sep]) == [piece] + Split(rest, [sep])
    decreases |piece|
  {
    var s := piece + [sep] + rest;
    if piece == "" {
      assert s[1..] == rest;
    } else {
      assert s[0] == piece[0];
      assert s[1..] == piece[1..] + [sep] + rest;
      SplitFirst(piece[1..], rest, sep);
      assert piece == [piece[0]] + piece[1..];
    }
  }

  lemma {:induction false} SplitWhole(piece: string, sep: char)
    requires sep !in piece
    ensures Split(piece, [sep]) == [piece]
    decreases |piece|
  {
    if piece != "" {
      SplitWhole(piece[1..], sep);
      assert piece == [piece[0]] + piece[1..];
    }
  }

  lemma {:induction false} SplitUndoesJoin(parts: seq<string>, sep: char)
    requires |parts| >= 1
    requires forall p :: p in parts ==> sep !in p
    ensures Split(Join(parts, [sep]), [sep]) == parts
    decreases |parts|
  {
    if |parts| == 1 {
      SplitWhole(parts[0], sep);
    } else {
      SplitUndoesJoin(parts[1..], sep);
      SplitFirst(parts[0], Join(parts[1..], [sep]), sep);
      assert parts == [parts[0]] + parts[1..];
    }
  }

  lemma {:induction false} FilterMembers(s: string, keep: char -> bool)
    ensures forall c :: c in Filter(s, keep) <==> c in s && keep(c)
    decreases |s|
  {
    if s != "" {
      FilterMembers(s[1..], keep);
      assert s == [s[0]] + s[1..];
    }
  }

  lemma {:induction false} FilterAll(s: string, keep: char -> bool)
    requires forall c :: c in s ==> keep(c)
    ensures Filter(s, keep) == s
    decreases |s|
  {
    if s != "" {
      assert forall c :: c in s[1..] ==> c in s;
      FilterAll(s[1..], keep);
      assert s == [s[0]] + s[1..];
    }
  }

  // ---- Decimal numerals (fmt's %d for naturals) ----

  function Digit(d: nat): (c: char)
    requires d < 10
    ensures '0' <= c <= '9'
  {
    '0' + d as char
  }

  function Decimal(n: nat): (s: string)
    ensures |s| >= 1
    ensures forall c :: c in s ==> '0' <= c <= '9'
  {
    if n < 10 then [Digit(n)] else Decimal(n / 10) + [Digit(n % 10)]
  }

  /** The number that a numeral stands for */
  function Value(digits: string): int {
    if digits == "" then 0
    else Value(digits[..|digits| - 1]) * 10 + (digits[|digits| - 1] as int - '0' as int)
  }

  /** A numeral stands for its number, and has no leading zero. */
  lemma {:induction false} DecimalReads(n: nat)
    ensures Value(Decimal(n)) == n && (n > 0 ==> Decimal(n)[0] != '0') && (n == 0 ==> Decimal(n) == "0")
    decreases n
  {
    var s := Decimal(n);
    if n >= 10 {
      DecimalReads(n / 10);
      assert s[..|s| - 1] == Decimal(n / 10) && s[|s| - 1] == Digit(n % 10);
    } else {
      assert s[..0] == "";
    }
  }

  lemma {:induction false} DecimalInjective(m: nat, n: nat)
    requires Decimal(m) == Decimal(n)
    ensures m == n
    decreases m
  {
    var s, t := Decimal(m), Decimal(n);
    assert s[|s| - 1] == Digit(m % 10) && t[|t| - 1] == Digit(n % 10);
    if m >= 10 && n >= 10 {
      assert s[..|s| - 1] == Decimal(m / 10) && t[..|t| - 1] == Decimal(n / 10);
      DecimalInjective(m / 10, n / 10);
    }
  }

  lemma {:induction false} DecimalLengthMonotone(m: nat, n: nat)
    requires m <= n
    ensures |Decimal(m)| <= |Decimal(n)|
    decreases n
  {
    if m >= 10 {
      DecimalLengthMonotone(m / 10, n / 10);
    }
  }

  lemma NoHyphenInNumeral(base: string, n: nat, i: nat)
    requires |base| < i < |base + "-" + Decimal(n)|
    ensures (base + "-" + Decimal(n))[i] != '-'
  {
    assert (base + "-" + Decimal(n))[i] == Decimal(n)[i - |base| - 1];
    assert Decimal(n)[i - |base| - 1] in Decimal(n);
  }

  /** A numeral after the last hyphen determines both halves of a name. */
  lemma NumberedNameInjective(a: string, m: nat, b: string, n: nat)
    requires a + "-" + Decimal(m) == b + "-" + Decimal(n)
    ensures a == b && m == n
  {
    var s, t := a + "-" + Decimal(m), b + "-" + Decimal(n);
    assert s[|a|] == '-' && t[|b|] == '-';
    if |a| > |b| {
      NoHyphenInNumeral(b, n, |a|);
      assert false;
    } else if |b| > |a| {
      NoHyphenInNumeral(a, m, |b|);
      assert false;
    } else {
      assert a == s[..|a|] == t[..|b|] == b;
      assert Decimal(m) == s[|a| + 1..] == t[|b| + 1..] == Decimal(n);
      DecimalInjective(m, n);
    }
  }
}
