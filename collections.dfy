/**
 The collection helpers of the library: `minimum` and `maximum` over a list,
 `R.indexOf`, `R.groupBy` (on which `countBy` and the centroid update are
 built), `countBy` and `invert`.
 */
module Collections {

  /** `minimum` (`Math.min(...xs)`): the least element of a non-empty list. */
  function Minimum(xs: seq<real>): (m: real)
    requires |xs| > 0
    ensures m in xs
    ensures forall i | 0 <= i < |xs| :: m <= xs[i]
  {
    if |xs| == 1 then xs[0]
    else
      var rest := Minimum(xs[1..]);
      assert forall i | 1 <= i < |xs| :: xs[i] == xs[1..][i - 1];
      if xs[0] <= rest then xs[0] else rest
  }

  /** `maximum` (`Math.max(...xs)`): the greatest element of a non-empty list. */
  function Maximum(xs: seq<real>): (m: real)
    requires |xs| > 0
    ensures m in xs
    ensures forall i | 0 <= i < |xs| :: xs[i] <= m
  {
    if |xs| == 1 then xs[0]
    else
      var rest := Maximum(xs[1..]);
      assert forall i | 1 <= i < |xs| :: xs[i] == xs[1..][i - 1];
      if rest <= xs[0] then xs[0] else rest
  }

  /** `R.indexOf(x, xs)`: the first position holding `x`, or -1 when there is none. */
  function IndexOf<T(==)>(x: T, xs: seq<T>): (i: int)
    ensures -1 <= i < |xs|
    ensures i == -1 <==> x !in xs
    ensures 0 <= i ==> xs[i] == x && x !in xs[..i]
  {
    if xs == [] then -1
    else if xs[0] == x then 0
    else
      var j := IndexOf(x, xs[1..]);
      assert xs == [xs[0]] + xs[1..];
      if j == -1 then -1
      else
        assert xs[..j + 1] == [xs[0]] + xs[1..][..j];
        j + 1
  }

  /** The elements of `xs` whose key is `k`, in their original order. */
  function Filter<T, K(==)>(f: T -> K, xs: seq<T>, k: K): (ys: seq<T>)
    ensures |ys| <= |xs|
    decreases |xs|
  {
    if xs == [] then []
    else Filter(f, xs[..|xs| - 1], k) + (if f(xs[|xs| - 1]) == k then [xs[|xs| - 1]] else [])
  }

  /** `Filter` keeps exactly the elements with key `k`. */
  lemma {:induction false} FilterMembers<T, K>(f: T -> K, xs: seq<T>, k: K)
    ensures forall y :: y in Filter(f, xs, k) <==> y in xs && f(y) == k
    decreases |xs|
  {
    if xs != [] {
      var init := xs[..|xs| - 1];
      FilterMembers(f, init, k);
      assert xs == init + [xs[|xs| - 1]];
    }
  }

  /**
   `R.groupBy(f, xs)`: a left fold that appends each element to the group of
   its key. A key has a group exactly when some element has that key, and the
   group holds those elements in their original order.
   */
  function GroupBy<T, K(==,!new)>(f: T -> K, xs: seq<T>): (groups: map<K, seq<T>>)
    ensures forall k :: k in groups <==> Filter(f, xs, k) != []
    ensures forall k | k in groups :: groups[k] == Filter(f, xs, k)
    decreases |xs|
  {
    if xs == [] then map[]
    else
      var init, x := xs[..|xs| - 1], xs[|xs| - 1];
      var g := GroupBy(f, init);
      var key := f(x);
      g[key := (if key in g then g[key] else []) + [x]]
  }

  /** `countBy(f, xs)`: the size of each group of `R.groupBy(f, xs)`. */
  function CountBy<T, K(==,!new)>(f: T -> K, xs: seq<T>): (counts: map<K, nat>)
    ensures forall k :: k in counts <==> Filter(f, xs, k) != []
    ensures forall k | k in counts :: counts[k] == |Filter(f, xs, k)| && counts[k] > 0
  {
    var groups := GroupBy(f, xs);
    map k | k in groups :: |groups[k]|
  }

  /** The sum of all counts in a map. */
  ghost function SumCounts<K>(m: map<K, nat>): nat
    decreases |m|
  {
    if m == map[] then 0
    else
      var k :| k in m;
      m[k] + SumCounts(m - {k})
  }

  lemma {:induction false} SumCountsRemove<K>(m: map<K, nat>, x: K)
    requires x in m
    ensures SumCounts(m) == m[x] + SumCounts(m - {x})
    decreases |m|
  {
    var y :| y in m && SumCounts(m) == m[y] + SumCounts(m - {y});
    if y != x {
      SumCountsRemove(m - {y}, x);
      SumCountsRemove(m - {x}, y);
      assert m - {y} - {x} == m - {x} - {y};
    }
  }

  /** Adding one to a single count (a new key starts from zero) adds one to the sum. */
  lemma SumCountsIncrement<K>(before: map<K, nat>, after: map<K, nat>, key: K)
    requires after.Keys == before.Keys + {key}
    requires after[key] == (if key in before then before[key] else 0) + 1
    requires forall k | k in before && k != key :: after[k] == before[k]
    ensures SumCounts(after) == SumCounts(before) + 1
  {
    assert after - {key} == before - {key};
    SumCountsRemove(after, key);
    if key in before {
      SumCountsRemove(before, key);
    } else {
      assert before - {key} == before;
    }
  }

  lemma {:induction false} CountByLast<T, K(!new)>(f: T -> K, xs: seq<T>)
    requires xs != []
    ensures SumCounts(CountBy(f, xs)) == SumCounts(CountBy(f, xs[..|xs| - 1])) + 1
  {
    var init, x := xs[..|xs| - 1], xs[|xs| - 1];
    var before, after := CountBy(f, init), CountBy(f, xs);
    var key := f(x);
    assert after.Keys == before.Keys + {key};
    SumCountsIncrement(before, after, key);
  }

  /** The counts of `countBy(f, xs)` add up to the length of `xs`. */
  lemma {:induction false} CountByTotal<T, K(!new)>(f: T -> K, xs: seq<T>)
    ensures SumCounts(CountBy(f, xs)) == |xs|
    decreases |xs|
  {
    if xs == [] {
      assert CountBy(f, xs) == map[];
    } else {
      CountByTotal(f, xs[..|xs| - 1]);
      CountByLast(f, xs);
    }
  }

  /** The set of values of an object given as its entries. */
  function Values<K, V>(entries: seq<(K, V)>): set<V>
  {
    set i | 0 <= i < |entries| :: entries[i].1
  }

  /**
   `invert(obj)`, with the object given as its entries in key-enumeration
   order: a fold that maps each value to its key, so that a later key with
   the same value overwrites an earlier one.
   */
  function Invert<K, V(==)>(entries: seq<(K, V)>): (inv: map<V, K>)
    ensures inv.Keys == Values(entries)
    ensures forall v | v in inv :: (inv[v], v) in entries
    ensures forall i | 0 <= i < |entries| && LastWithValue(entries, i) :: inv[entries[i].1] == entries[i].0
    decreases |entries|
  {
    if entries == [] then map[]
    else
      var init, e := entries[..|entries| - 1], entries[|entries| - 1];
      var inv := Invert(init);
      assert entries == init + [e];
      forall i | 0 <= i < |init| && LastWithValue(entries, i) ensures LastWithValue(init, i) { }
      inv[e.1 := e.0]
  }

  /** No entry after position `i` has the value of entry `i`. */
  predicate LastWithValue<K, V(==)>(entries: seq<(K, V)>, i: int)
    requires 0 <= i < |entries|
  {
    forall j | i < j < |entries| :: entries[j].1 != entries[i].1
  }

  /** When no two keys share a value, `invert` maps every value back to its own key. */
  lemma InvertInjective<K, V>(entries: seq<(K, V)>)
    requires forall i, j | 0 <= i < j < |entries| :: entries[i].1 != entries[j].1
    ensures forall i | 0 <= i < |entries| :: Invert(entries)[entries[i].1] == entries[i].0
  {
    forall i | 0 <= i < |entries| ensures LastWithValue(entries, i) { }
  }
}
