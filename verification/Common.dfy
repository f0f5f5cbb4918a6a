/** Shared vocabulary: optional values, finite sets, and the iteration orders of a Go map. */
module Common {

  /** `None` stands for a missing value: a nil map, an absent file, a failed lookup. */
  datatype Option<+T> = None | Some(value: T)

  lemma SubsetNotLarger<T>(small: set<T>, large: set<T>)
    requires small <= large
    ensures |small| <= |large|
  {
    assert large == small + (large - small);
  }

  /** One possible iteration order of a map with these keys: each key exactly once. */
  ghost predicate IsOrdering<K(!new)>(order: seq<K>, keys: set<K>) {
    && (forall k :: k in order <==> k in keys)
    && (forall i, j :: 0 <= i < j < |order| ==> order[i] != order[j])
  }

  /** Without keys there is nothing to visit. */
  lemma OrderingOfNone<K(!new)>(order: seq<K>, keys: set<K>)
    requires IsOrdering(order, keys) && keys == {}
    ensures order == []
  {
    FirstVisited(order);
  }

  lemma FirstVisited<K>(order: seq<K>)
    ensures order != [] ==> order[0] in order
  {
  }

  /** Visiting one more key; the caller names the set of keys visited then. */
  lemma OrderingNext<K(!new)>(order: seq<K>, keys: set<K>, k: K, keys': set<K>)
    requires IsOrdering(order, keys) && k !in keys && keys' == keys + {k}
    ensures IsOrdering(order + [k], keys')
  {
    assert k !in order;
  }

  /** Two orders of different keys, one after the other. */
  lemma OrderingAppend<K(!new)>(a: seq<K>, as_: set<K>, b: seq<K>, bs: set<K>, keys: set<K>)
    requires IsOrdering(a, as_) && IsOrdering(b, bs) && as_ !! bs && keys == as_ + bs
    ensures IsOrdering(a + b, keys)
  {
    var order := a + b;
    forall i, j | 0 <= i < j < |order| ensures order[i] != order[j] {
      if i < |a| <= j {
        assert order[i] in a && order[j] in b;
      }
    }
  }

  /** Every finite set of keys has an iteration order. */
  lemma SomeOrdering<K(!new)>(keys: set<K>) returns (order: seq<K>)
    ensures IsOrdering(order, keys)
    decreases |keys|
  {
    if keys == {} {
      order := [];
    } else {
      var k :| k in keys;
      var init := SomeOrdering(keys - {k});
      OrderingNext(init, keys - {k}, k, keys);
      order := init + [k];
    }
  }

  /** Two keys can come last, in either order. */
  lemma TwoLast<K(!new)>(keys: set<K>, a: K, b: K) returns (rest: seq<K>)
    requires a in keys && b in keys && a != b
    ensures forall k :: k in rest ==> k in keys && k != a && k != b
    ensures IsOrdering(rest + [a] + [b], keys) && IsOrdering(rest + [b] + [a], keys)
  {
    rest := SomeOrdering(keys - {a, b});
    OrderingNext(rest, keys - {a, b}, a, keys - {b});
    OrderingNext(rest + [a], keys - {b}, b, keys);
    OrderingNext(rest, keys - {a, b}, b, keys - {a});
    OrderingNext(rest + [b], keys - {a}, a, keys);
  }
}
