/**
 Sums over sequences.
 They count processes by what they are doing.
 */
module Tally {
  function Sum<T>(xs: seq<T>, f: T -> nat): nat {
    if xs == [] then 0 else f(xs[0]) + Sum(xs[1..], f)
  }

  lemma {:induction false} SumUpdate<T>(xs: seq<T>, i: nat, x: T, f: T -> nat)
    requires i < |xs|
    ensures Sum(xs[i := x], f) + f(xs[i]) == Sum(xs, f) + f(x)
    decreases |xs|
  {
    if i > 0 {
      SumUpdate(xs[1..], i - 1, x, f);
      assert xs[i := x][1..] == xs[1..][i - 1 := x];
    } else {
      assert xs[i := x][1..] == xs[1..];
    }
  }

  lemma {:induction false} SumAppend<T>(xs: seq<T>, x: T, f: T -> nat)
    ensures Sum(xs + [x], f) == Sum(xs, f) + f(x)
    decreases |xs|
  {
    if xs != [] {
      SumAppend(xs[1..], x, f);
      assert (xs + [x])[1..] == xs[1..] + [x];
    }
  }

  /** A sum bounds each of its terms. */
  lemma {:induction false} TermAtMostSum<T>(xs: seq<T>, i: nat, f: T -> nat)
    requires i < |xs|
    ensures f(xs[i]) <= Sum(xs, f)
    decreases |xs|
  {
    if i > 0 {
      TermAtMostSum(xs[1..], i - 1, f);
    }
  }

  /** Terms of at most one add up to the number of places where they are one. */
  lemma {:induction false} SumCounts<T>(xs: seq<T>, f: T -> nat)
    requires forall i :: 0 <= i < |xs| ==> f(xs[i]) <= 1
    ensures Sum(xs, f) == |Ones(xs, f)|
    decreases |xs|
  {
    if xs != [] {
      var n := |xs| - 1;
      assert xs == xs[..n] + [xs[n]];
      SumAppend(xs[..n], xs[n], f);
      SumCounts(xs[..n], f);
      assert Ones(xs, f) == if f(xs[n]) == 1 then Ones(xs[..n], f) + {n} else Ones(xs[..n], f);
    }
  }

  function Ones<T>(xs: seq<T>, f: T -> nat): set<int> {
    set i | 0 <= i < |xs| && f(xs[i]) == 1
  }

  /** Places with a positive term are no more than the sum; `zero` is a term that can stand in for one. */
  lemma {:induction false} PlacesAtMostSum<T>(xs: seq<T>, places: set<nat>, zero: T, f: T -> nat)
    requires f(zero) == 0 && forall i :: i in places ==> i < |xs| && f(xs[i]) > 0
    ensures |places| <= Sum(xs, f)
    decreases |places|
  {
    if i :| i in places {
      SumUpdate(xs, i, zero, f);
      PlacesAtMostSum(xs[i := zero], places - {i}, zero, f);
    }
  }

  /** A positive sum has a positive term. */
  lemma {:induction false} PositiveTerm<T>(xs: seq<T>, f: T -> nat) returns (i: nat)
    requires Sum(xs, f) > 0
    ensures i < |xs| && f(xs[i]) > 0
    decreases |xs|
  {
    if f(xs[0]) > 0 {
      i := 0;
    } else {
      var j := PositiveTerm(xs[1..], f);
      i := j + 1;
    }
  }

  /** Terms of at most one leave room for every term that is zero. */
  lemma {:induction false} RoomForZero<T>(xs: seq<T>, i: nat, f: T -> nat)
    requires i < |xs| && f(xs[i]) == 0
    requires forall k :: 0 <= k < |xs| ==> f(xs[k]) <= 1
    ensures Sum(xs, f) < |xs|
    decreases |xs|
  {
    if i > 0 {
      RoomForZero(xs[1..], i - 1, f);
    } else {
      SumAtMostLength(xs[1..], f);
    }
  }

  lemma {:induction false} SumAtMostLength<T>(xs: seq<T>, f: T -> nat)
    requires forall k :: 0 <= k < |xs| ==> f(xs[k]) <= 1
    ensures Sum(xs, f) <= |xs|
    decreases |xs|
  {
    if xs != [] {
      SumAtMostLength(xs[1..], f);
    }
  }

  lemma {:induction false} SumZero<T>(xs: seq<T>, f: T -> nat)
    requires forall k :: 0 <= k < |xs| ==> f(xs[k]) == 0
    ensures Sum(xs, f) == 0
    decreases |xs|
  {
    if xs != [] {
      SumZero(xs[1..], f);
    }
  }

  /** A pointwise smaller weight has a smaller sum, by at least the difference at any one place. */
  lemma {:induction false} SumGap<T(!new)>(xs: seq<T>, i: nat, f: T -> nat, g: T -> nat)
    requires i < |xs|
    requires forall x :: f(x) <= g(x)
    ensures Sum(xs, f) + g(xs[i]) <= Sum(xs, g) + f(xs[i])
    decreases |xs|
  {
    if i > 0 {
      SumGap(xs[1..], i - 1, f, g);
    } else {
      SumMonotone(xs[1..], f, g);
    }
  }

  lemma {:induction false} SumMonotone<T(!new)>(xs: seq<T>, f: T -> nat, g: T -> nat)
    requires forall x :: f(x) <= g(x)
    ensures Sum(xs, f) <= Sum(xs, g)
    decreases |xs|
  {
    if xs != [] {
      SumMonotone(xs[1..], f, g);
    }
  }
}
