/**
 The assignment half of a K-Means iteration: every (scaled) fact is given the
 index of the first (scaled) centroid at least distance, and `classifyFacts`
 writes those indices into the `cluster` field of the original facts.
 */
module Assignment {
  import opened Facts
  import opened Collections
  import opened Distance

  /** `j` is the first position of a least value of `ds`. */
  predicate FirstLeast(ds: seq<real>, j: int)
  {
    && 0 <= j < |ds|
    && (forall i | 0 <= i < |ds| :: ds[j] <= ds[i])
    && (forall i | 0 <= i < j :: ds[j] < ds[i])
  }

  /**
   `R.indexOf(minimum(ds), ds)`: the first position of a least distance. With
   no distances at all, `Math.min()` is `Infinity`, which `indexOf` does not
   find, so the result is -1.
   */
  function Nearest(ds: seq<real>): (j: int)
    ensures |ds| == 0 ==> j == -1
    ensures |ds| > 0 ==> FirstLeast(ds, j)
  {
    if |ds| == 0 then -1
    else
      var m := Minimum(ds);
      var j := IndexOf(m, ds);
      assert forall i | 0 <= i < j :: ds[i] == ds[..j][i];
      j
  }

  /** Only one position can be the first least one, so `Nearest` is characterised by `FirstLeast`. */
  lemma NearestUnique(ds: seq<real>, j: int)
    requires |ds| > 0
    ensures FirstLeast(ds, j) <==> j == Nearest(ds)
  {
  }

  /** Every centroid has exactly the numeric keys of the fact, so each distance is a number. */
  predicate Comparable(f: Record, cs: seq<Record>)
  {
    forall j | 0 <= j < |cs| :: cs[j].features.Keys == f.features.Keys
  }

  /** `R.map(getDistance(f), cs)`: the (squared) distance from `f` to each centroid. */
  ghost function Distances(f: Record, cs: seq<Record>): (ds: seq<real>)
    requires Comparable(f, cs)
    ensures |ds| == |cs|
    ensures forall j | 0 <= j < |cs| :: SquaredDistance(f, cs[j]) == Finite(ds[j])
  {
    if cs == [] then []
    else
      var rest := Distances(f, cs[1..]);
      assert forall j | 1 <= j < |cs| :: cs[j] == cs[1..][j - 1];
      [SquaredDistance(f, cs[0]).value] + rest
  }

  /**
   `j` is the first centroid at least distance from `f`. Comparing squared
   distances picks the same centroid as comparing distances, since the square
   root is strictly increasing on non-negative numbers.
   */
  ghost predicate FirstNearest(f: Record, cs: seq<Record>, j: int)
    requires Comparable(f, cs)
  {
    && 0 <= j < |cs|
    && (forall i | 0 <= i < |cs| :: SquaredDistance(f, cs[j]).value <= SquaredDistance(f, cs[i]).value)
    && (forall i | 0 <= i < j :: SquaredDistance(f, cs[j]).value < SquaredDistance(f, cs[i]).value)
  }

  predicate AllComparable(facts: seq<Record>, cs: seq<Record>)
  {
    forall i | 0 <= i < |facts| :: Comparable(facts[i], cs)
  }

  /**
   The label list of lines 88-89: for every fact, the first centroid at least
   distance, or -1 for every fact when there are no centroids.
   */
  ghost function Assign(facts: seq<Record>, cs: seq<Record>): (labels: seq<int>)
    requires AllComparable(facts, cs)
    ensures |labels| == |facts|
    ensures |cs| == 0 ==> forall i | 0 <= i < |facts| :: labels[i] == -1
    ensures |cs| > 0 ==> forall i | 0 <= i < |facts| :: FirstNearest(facts[i], cs, labels[i])
  {
    var labels := seq(|facts|, i requires 0 <= i < |facts| => Nearest(Distances(facts[i], cs)));
    assert forall i | 0 <= i < |facts| :: labels[i] == Nearest(Distances(facts[i], cs));
    assert forall i | 0 <= i < |facts| :: (|cs| == 0 ==> labels[i] == -1) && (|cs| > 0 ==> FirstNearest(facts[i], cs, labels[i])) by {
      forall i | 0 <= i < |facts| ensures (|cs| == 0 ==> labels[i] == -1) && (|cs| > 0 ==> FirstNearest(facts[i], cs, labels[i])) {
        NearestIsFirstNearest(facts[i], cs);
      }
    }
    labels
  }

  /** The first least distance belongs to the first nearest centroid. */
  lemma NearestIsFirstNearest(f: Record, cs: seq<Record>)
    requires Comparable(f, cs)
    ensures |cs| == 0 ==> Nearest(Distances(f, cs)) == -1
    ensures |cs| > 0 ==> FirstNearest(f, cs, Nearest(Distances(f, cs)))
  {
    var ds := Distances(f, cs);
    if |cs| > 0 {
      var j := Nearest(ds);
      assert FirstLeast(ds, j);
      assert forall i | 0 <= i < |cs| :: SquaredDistance(f, cs[i]).value == ds[i];
    }
  }

  /** `{...fact, cluster: j}`: the fact with its cluster index set, or replaced. */
  function WithCluster(fact: Record, j: int): (r: Record)
    ensures r.tag == fact.tag
    ensures r.features.Keys == fact.features.Keys + {Cluster}
    ensures r.features[Cluster] == j as real
    ensures forall k | k in fact.features && k != Cluster :: r.features[k] == fact.features[k]
  {
    Record(fact.features[Cluster := j as real], fact.tag)
  }

  /**
   `classifyFacts(givenFacts, labels)`: fact `i` gets cluster `labels[i]`;
   nothing else about any fact changes, and the order is kept.
   */
  function ClassifyFacts(givenFacts: seq<Record>, labels: seq<int>): (classified: seq<Record>)
    requires |givenFacts| <= |labels|
    ensures |classified| == |givenFacts|
    ensures forall i | 0 <= i < |givenFacts| :: classified[i].tag == givenFacts[i].tag
    ensures forall i | 0 <= i < |givenFacts| :: classified[i].features.Keys == givenFacts[i].features.Keys + {Cluster}
    ensures forall i | 0 <= i < |givenFacts| :: classified[i].features[Cluster] == labels[i] as real
    ensures forall i, k | 0 <= i < |givenFacts| && k in givenFacts[i].features && k != Cluster ::
      classified[i].features[k] == givenFacts[i].features[k]
  {
    seq(|givenFacts|, i requires 0 <= i < |givenFacts| => WithCluster(givenFacts[i], labels[i]))
  }

  /** Classifying facts that already carry clusters with the same labels changes nothing. */
  lemma ClassifyFactsIdempotent(givenFacts: seq<Record>, labels: seq<int>)
    requires |givenFacts| <= |labels|
    ensures ClassifyFacts(ClassifyFacts(givenFacts, labels), labels) == ClassifyFacts(givenFacts, labels)
  {
    var once := ClassifyFacts(givenFacts, labels);
    var twice := ClassifyFacts(once, labels);
    forall i | 0 <= i < |givenFacts| ensures twice[i] == once[i] {
      assert twice[i].features == once[i].features;
    }
  }
}
