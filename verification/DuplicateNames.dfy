/** Unique server names by numeric suffix. */
module DuplicateNames {
  // The loop tries `base`, then `base-2`, `base-3`, ...; once a candidate is too long it
  // switches to a truncated base and, because the counter was already advanced, to the
  // next number. A Go slice past the end of the base name panics; here that is `None`.

  import opened Common
  import opened Text

  /** Reading a Go map of booleans: a missing key reads as false. */
  predicate Taken(existing: map<string, bool>, name: string) {
    name in existing && existing[name]
  }

  ghost function TakenNames(existing: map<string, bool>): set<string> {
    set name | name in existing && existing[name]
  }

  /** What one iteration that starts with this counter assigns to the name. */
  function Candidate(base: string, maxLength: int, counter: nat): Option<string> {
    var plain := base + "-" + Decimal(counter);
    if maxLength > 0 && |plain| > maxLength then
      var room := maxLength - |"-" + Decimal(counter + 1)|;
      var maxBase := if room < 1 then 1 else room;
      if maxBase > |base| then None
      else Some(base[..maxBase] + "-" + Decimal(counter + 1))
    else Some(plain)
  }

  /** `counter` is the first one, from 2 on, whose candidate is free. */
  ghost predicate FirstFree(base: string, existing: map<string, bool>, maxLength: int, counter: nat) {
    && counter >= 2
    && Candidate(base, maxLength, counter).Some?
    && !Taken(existing, Candidate(base, maxLength, counter).value)
    && AllTaken(base, existing, maxLength, counter)
  }

  ghost predicate AllTaken(base: string, existing: map<string, bool>, maxLength: int, limit: nat) {
    forall k :: 2 <= k < limit ==>
      Candidate(base, maxLength, k).Some? && Taken(existing, Candidate(base, maxLength, k).value)
  }

  /** The empty base name is taken, and so is every bare suffix that still fits. */
  ghost predicate RunsPastEmptyBase(base: string, existing: map<string, bool>, maxLength: int) {
    && base == ""
    && maxLength > 0
    && Taken(existing, "")
    && forall k: nat :: k >= 2 && 1 + |Decimal(k)| <= maxLength ==> Taken(existing, "-" + Decimal(k))
  }

  /** Candidates of different iterations differ, also across the switch to truncated bases. */
  lemma CandidatesDistinct(base: string, maxLength: int, j: nat, k: nat)
    requires j < k
    requires Candidate(base, maxLength, j).Some? && Candidate(base, maxLength, k).Some?
    ensures Candidate(base, maxLength, j) != Candidate(base, maxLength, k)
  {
    DecimalLengthMonotone(j, k);
    if Candidate(base, maxLength, j) == Candidate(base, maxLength, k) {
      var a, m := Parts(base, maxLength, j);
      var b, n := Parts(base, maxLength, k);
      NumberedNameInjective(a, m, b, n);
    }
  }

  /** A truncated candidate carries the next number, and truncation never ends once begun. */
  lemma Parts(base: string, maxLength: int, counter: nat) returns (stem: string, number: nat)
    requires Candidate(base, maxLength, counter).Some?
    ensures Candidate(base, maxLength, counter).value == stem + "-" + Decimal(number)
    ensures number == if 0 < maxLength < |base| + 1 + |Decimal(counter)| then counter + 1 else counter
  {
    number := if 0 < maxLength < |base| + 1 + |Decimal(counter)| then counter + 1 else counter;
    var room := maxLength - |"-" + Decimal(counter + 1)|;
    var maxBase := if room < 1 then 1 else room;
    stem := if number == counter then base else base[..maxBase];
  }

  /** With an empty base, the untruncated candidates are bare suffixes and the others are lost. */
  lemma EmptyBaseCandidate(base: string, maxLength: int, counter: nat)
    requires base == ""
    ensures Candidate(base, maxLength, counter) ==
            if 0 < maxLength < 1 + |Decimal(counter)| then None else Some("-" + Decimal(counter))
  {
    var suffix := "-" + Decimal(counter);
    assert base + "-" == "-" && base + "-" + Decimal(counter) == suffix;
    CandidateDefined(base, maxLength, counter);
    if 0 < maxLength < |suffix| {
      assert Candidate(base, maxLength, counter).None?;
    } else {
      assert Candidate(base, maxLength, counter) == Some(base + "-" + Decimal(counter));
    }
  }

  /** Truncation never slices past the end of a non-empty base name. */
  lemma CandidateDefined(base: string, maxLength: int, counter: nat)
    ensures Candidate(base, maxLength, counter).None? <==>
            base == "" && 0 < maxLength < 1 + |Decimal(counter)|
  {
    DecimalLengthMonotone(counter, counter + 1);
  }

  /** Below the clamp, every candidate keeps to the limit. */
  lemma CandidateFits(base: string, maxLength: int, counter: nat, bound: nat)
    requires 1 <= |base| <= maxLength
    requires counter < bound && maxLength >= 2 + |Decimal(bound)|
    ensures Candidate(base, maxLength, counter).Some?
    ensures |Candidate(base, maxLength, counter).value| <= maxLength
  {
    CandidateDefined(base, maxLength, counter);
    DecimalLengthMonotone(counter + 1, bound);
  }

  /** Where the loop stands: `current` comes from the last counter, all earlier candidates were taken. */
  ghost predicate Searching(base: string, existing: map<string, bool>, maxLength: int,
                            counter: nat, current: string, tried: set<string>) {
    && counter >= 2
    && (if counter == 2 then current == base
        else Taken(existing, base) && Candidate(base, maxLength, counter - 1) == Some(current))
    && AllTaken(base, existing, maxLength, counter - 1)
    && (forall s :: s in tried ==> Taken(existing, s))
    && (forall s :: s in tried ==>
          exists k :: 2 <= k < counter - 1 && Candidate(base, maxLength, k) == Some(s))
    && counter <= |tried| + 3
  }

  ghost function TriedNext(tried: set<string>, current: string, counter: nat): set<string> {
    if counter > 2 then tried + {current} else tried
  }

  lemma SearchAdvances(base: string, existing: map<string, bool>, maxLength: int,
                       counter: nat, current: string, tried: set<string>)
    requires Searching(base, existing, maxLength, counter, current, tried) && Taken(existing, current)
    requires Candidate(base, maxLength, counter).Some?
    ensures Searching(base, existing, maxLength, counter + 1, Candidate(base, maxLength, counter).value,
                      TriedNext(tried, current, counter))
    ensures counter > 2 ==> |TriedNext(tried, current, counter)| == |tried| + 1
    ensures |TriedNext(tried, current, counter)| <= |TakenNames(existing)|
  {
    if counter > 2 {
      forall k | 2 <= k < counter - 1 && Candidate(base, maxLength, k).Some?
        ensures Candidate(base, maxLength, k) != Some(current)
      {
        CandidatesDistinct(base, maxLength, k, counter - 1);
      }
    }
    SubsetNotLarger(TriedNext(tried, current, counter), TakenNames(existing));
  }

  ghost predicate Bounded(base: string, existing: map<string, bool>, maxLength: int) {
    1 <= |base| <= maxLength && maxLength >= 2 + |Decimal(|TakenNames(existing)| + 3)|
  }

  lemma SearchEnds(base: string, existing: map<string, bool>, maxLength: int,
                   counter: nat, current: string, tried: set<string>)
    requires Searching(base, existing, maxLength, counter, current, tried) && !Taken(existing, current)
    requires counter > 2
    ensures counter - 1 <= |TakenNames(existing)| + 2 && FirstFree(base, existing, maxLength, counter - 1)
    ensures !RunsPastEmptyBase(base, existing, maxLength)
    ensures Bounded(base, existing, maxLength) ==> |current| <= maxLength
  {
    SubsetNotLarger(tried, TakenNames(existing));
    if base == "" {
      EmptyBaseCandidate(base, maxLength, counter - 1);
    }
    if Bounded(base, existing, maxLength) {
      CandidateFits(base, maxLength, counter - 1, |TakenNames(existing)| + 3);
    }
  }

  /** One iteration's new name; `None` is the slice out of range. */
  method NextName(baseName: string, maxLength: int, counter: nat) returns (name: Option<string>)
    ensures name == Candidate(baseName, maxLength, counter)
  {
    var current := baseName + "-" + Decimal(counter);
    if maxLength > 0 && |current| > maxLength {
      var maxBase := maxLength - |"-" + Decimal(counter + 1)|;
      if maxBase < 1 {
        maxBase := 1;
      }
      if maxBase > |baseName| {
        return None;
      }
      current := baseName[..maxBase] + "-" + Decimal(counter + 1);
    }
    return Some(current);
  }

  /** The names that round `k` tries: the base name and the number, or as much of it as fits and the next number. */
  ghost predicate IsTried(base: string, maxLength: int, k: nat, name: string) {
    if maxLength <= 0 || |base| + 1 + |Decimal(k)| <= maxLength then name == base + "-" + Decimal(k)
    else exists m: nat :: 1 <= m <= |base| && name == base[..m] + "-" + Decimal(k + 1) &&
           (|name| == maxLength || (m == 1 && |name| > maxLength))
  }

  /** So the candidate is the only name that its round can try. */
  lemma CandidateIsTried(base: string, maxLength: int, k: nat, name: string)
    ensures Candidate(base, maxLength, k) == Some(name) <==> IsTried(base, maxLength, k, name)
  {
    var room := maxLength - |"-" + Decimal(k + 1)|;
    var maxBase := if room < 1 then 1 else room;
    if 0 < maxLength < |base| + 1 + |Decimal(k)| && maxBase <= |base| {
      assert |base[..maxBase] + "-" + Decimal(k + 1)| == maxBase + |"-" + Decimal(k + 1)|;
    }
  }

  /** What all rounds before this one tried was taken. */
  ghost predicate TriedBefore(base: string, existing: map<string, bool>, maxLength: int, c: nat) {
    forall k, s :: 2 <= k < c && IsTried(base, maxLength, k, s) ==> Taken(existing, s)
  }

  lemma FirstFreeIsTried(base: string, existing: map<string, bool>, maxLength: int, c: nat)
    requires FirstFree(base, existing, maxLength, c)
    ensures IsTried(base, maxLength, c, Candidate(base, maxLength, c).value) && TriedBefore(base, existing, maxLength, c)
  {
    CandidateIsTried(base, maxLength, c, Candidate(base, maxLength, c).value);
    forall k, s | 2 <= k < c && IsTried(base, maxLength, k, s) ensures Taken(existing, s) {
      CandidateIsTried(base, maxLength, k, s);
    }
  }

  method HandleDuplicateName(baseName: string, existing: map<string, bool>, maxLength: int)
    returns (name: Option<string>)
    ensures name.None? <==> RunsPastEmptyBase(baseName, existing, maxLength)
    ensures name.Some? ==> !Taken(existing, name.value)
    ensures name.Some? ==>
      if Taken(existing, baseName)
      then exists c: nat :: 2 <= c <= |TakenNames(existing)| + 2 && IsTried(baseName, maxLength, c, name.value)
             && TriedBefore(baseName, existing, maxLength, c)
      else name == Some(baseName)
    ensures Bounded(baseName, existing, maxLength) ==> name.Some? && |name.value| <= maxLength
  {
    ghost var tried: set<string> := {};
    var current := baseName;
    var counter: nat := 2;
    while Taken(existing, current)
      invariant Searching(baseName, existing, maxLength, counter, current, tried)
      decreases |TakenNames(existing)| - |tried|, 3 - counter
    {
      var next := NextName(baseName, maxLength, counter);
      if next.None? {
        Exhausted(baseName, existing, maxLength, counter, current, tried);
        return None;
      }
      SearchAdvances(baseName, existing, maxLength, counter, current, tried);
      tried := TriedNext(tried, current, counter);
      current := next.value;
      counter := counter + 1;
    }
    if counter > 2 {
      SearchEnds(baseName, existing, maxLength, counter, current, tried);
      FirstFreeIsTried(baseName, existing, maxLength, counter - 1);
    }
    return Some(current);
  }

  /** The slice fails only for the empty base, when all suffixes that fit are taken. */
  lemma Exhausted(base: string, existing: map<string, bool>, maxLength: int, counter: nat, current: string, tried: set<string>)
    requires Searching(base, existing, maxLength, counter, current, tried) && Taken(existing, current)
    requires Candidate(base, maxLength, counter).None?
    ensures RunsPastEmptyBase(base, existing, maxLength) && !Bounded(base, existing, maxLength)
  {
    CandidateDefined(base, maxLength, counter);
    EmptyBaseExhausted(base, existing, maxLength, counter);
  }

  lemma EmptyBaseExhausted(base: string, existing: map<string, bool>, maxLength: int, counter: nat)
    requires base == "" && Taken(existing, "") && AllTaken(base, existing, maxLength, counter)
    requires Candidate(base, maxLength, counter).None?
    ensures RunsPastEmptyBase(base, existing, maxLength)
  {
    EmptyBaseCandidate(base, maxLength, counter);
    forall k: nat | k >= 2 && 1 + |Decimal(k)| <= maxLength ensures Taken(existing, "-" + Decimal(k)) {
      if k >= counter {
        DecimalLengthMonotone(counter, k);
      }
      EmptyBaseCandidate(base, maxLength, k);
      assert k < counter;
    }
  }

  /** A name map on which it happens: only the empty name is taken, and no suffix fits in one character. */
  lemma EmptyBaseCanRunOut()
    ensures RunsPastEmptyBase("", map["" := true], 1)
  {
    forall k: nat ensures 1 + |Decimal(k)| > 1 {
    }
  }
}
