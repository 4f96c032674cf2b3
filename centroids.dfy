/**
 The update half of a K-Means iteration (lines 93-100 of `src/lib.js`): the
 classified facts are grouped by `cluster`, the groups are taken in the order
 `R.values` enumerates them, and each group becomes a centroid holding the mean
 `experience` and the mean `salary` of its members. Empty clusters have no
 group, so they give no centroid.
 */
module CentroidUpdate {
  import opened Facts
  import opened Collections

  /** `R.sum`. */
  function Sum(xs: seq<real>): real
  {
    if xs == [] then 0.0 else xs[0] + Sum(xs[1..])
  }

  /** Adding a value in [lo, hi] to a sum of `n` such values gives a sum of `n + 1` of them. */
  lemma AddBounds(x: real, s: real, n: real, lo: real, hi: real)
    requires lo <= x <= hi && n * lo <= s <= n * hi
    ensures (n + 1.0) * lo <= x + s <= (n + 1.0) * hi
  {
    assert (n + 1.0) * lo == n * lo + lo;
    assert (n + 1.0) * hi == n * hi + hi;
  }

  /** A sum of `n` values in [lo, hi] lies in [n * lo, n * hi]. */
  lemma {:induction false} SumBounds(xs: seq<real>, lo: real, hi: real)
    requires forall i | 0 <= i < |xs| :: lo <= xs[i] <= hi
    ensures (|xs| as real) * lo <= Sum(xs) <= (|xs| as real) * hi
    decreases |xs|
  {
    if xs != [] {
      var rest := xs[1..];
      assert forall i | 0 <= i < |rest| :: rest[i] == xs[i + 1];
      SumBounds(rest, lo, hi);
      AddBounds(xs[0], Sum(rest), |rest| as real, lo, hi);
      assert |xs| as real == |rest| as real + 1.0;
    }
  }

  /** A quotient by a positive `n` of a number in [n * lo, n * hi] lies in [lo, hi]. */
  lemma QuotientBounds(s: real, n: real, lo: real, hi: real)
    requires n > 0.0 && n * lo <= s <= n * hi
    ensures lo <= s / n <= hi
  {
    assert (s / n) * n == s;
  }

  /** `R.mean`: the sum over the count, which lies between the least and the greatest value. */
  function Mean(xs: seq<real>): (m: real)
    requires xs != []
    ensures Minimum(xs) <= m <= Maximum(xs)
  {
    MeanWithin(xs, Minimum(xs), Maximum(xs));
    Sum(xs) / (|xs| as real)
  }

  /** The sum over the count of values in [lo, hi] lies in [lo, hi]. */
  lemma MeanWithin(xs: seq<real>, lo: real, hi: real)
    requires xs != [] && forall i | 0 <= i < |xs| :: lo <= xs[i] <= hi
    ensures lo <= Sum(xs) / (|xs| as real) <= hi
  {
    SumBounds(xs, lo, hi);
    QuotientBounds(Sum(xs), |xs| as real, lo, hi);
  }

  /** The mean of equal values is that value. */
  lemma MeanConstant(xs: seq<real>, c: real)
    requires xs != [] && forall i | 0 <= i < |xs| :: xs[i] == c
    ensures Mean(xs) == c
  {
    assert Minimum(xs) == c && Maximum(xs) == c;
  }

  /** The group key `fact => fact.cluster`: the cluster index, or none when the fact has not been classified. */
  function ClusterKey(r: Record): Option<real>
  {
    if Cluster in r.features then Some(r.features[Cluster]) else None
  }

  /** `r` is tagged with cluster `j`. */
  predicate InCluster(r: Record, j: int)
  {
    ClusterKey(r) == Some(j as real)
  }

  /** The facts of cluster `j`, in their original order. */
  function Members(facts: seq<Record>, j: int): seq<Record>
  {
    Filter(ClusterKey, facts, Some(j as real))
  }

  /** Every fact has the two features a centroid is made of. */
  predicate Measured(facts: seq<Record>)
  {
    forall i | 0 <= i < |facts| :: Experience in facts[i].features && Salary in facts[i].features
  }

  /**
   The centroid of a non-empty group: its mean `experience` and its mean
   `salary`, each between the least and the greatest member value. It has no
   other key and no label.
   */
  function CentroidOf(members: seq<Record>): (c: Record)
    requires members != [] && Measured(members)
    ensures c.tag == None && c.features.Keys == {Experience, Salary}
    ensures Minimum(Column(members, Experience)) <= c.features[Experience] <= Maximum(Column(members, Experience))
    ensures Minimum(Column(members, Salary)) <= c.features[Salary] <= Maximum(Column(members, Salary))
  {
    assert HasKey(members, Experience) && HasKey(members, Salary);
    Centroid(Mean(Column(members, Experience)), Mean(Column(members, Salary)))
  }

  /** `{experience, salary}`: a record with just these two features and no label. */
  function Centroid(experience: real, salary: real): (c: Record)
    ensures c.tag == None && c.features.Keys == {Experience, Salary}
    ensures c.features[Experience] == experience && c.features[Salary] == salary
  {
    Record(map[Experience := experience, Salary := salary], None)
  }

  /** A new centroid holds exactly the mean `experience` and the mean `salary` of its members. */
  lemma CentroidMeans(members: seq<Record>)
    requires members != [] && Measured(members)
    ensures HasKey(members, Experience) && HasKey(members, Salary)
    ensures CentroidOf(members).features[Experience] == Mean(Column(members, Experience))
    ensures CentroidOf(members).features[Salary] == Mean(Column(members, Salary))
  {
  }

  /** Strictly increasing. */
  predicate Increasing(s: seq<int>)
  {
    forall a, b | 0 <= a < b < |s| :: s[a] < s[b]
  }

  /**
   The keys that can occur in the grouping, in the order `R.values` lists
   them: integer-like keys come in ascending order, so the centroid indices
   0 .. k-1; with no centroids every fact is in cluster -1.
   */
  function ClusterIds(k: nat): (ids: seq<int>)
    ensures k == 0 ==> ids == [-1]
    ensures k > 0 ==> |ids| == k && forall j | 0 <= j < k :: ids[j] == j
    ensures Increasing(ids)
  {
    if k == 0 then [-1] else seq(k, j => j)
  }

  /** The ids of `ids`, in order, that have a group. */
  function PresentIds(groups: map<Option<real>, seq<Record>>, ids: seq<int>): (present: seq<int>)
    ensures |present| <= |ids|
    ensures forall j :: j in present <==> j in ids && Some(j as real) in groups
    ensures Increasing(ids) ==> Increasing(present)
  {
    if ids == [] then []
    else
      var tail := ids[1..];
      var rest := PresentIds(groups, tail);
      assert forall j :: j in ids <==> j == ids[0] || j in tail;
      ConsIncreasing(ids, rest);
      if Some(ids[0] as real) in groups then [ids[0]] + rest else rest
  }

  /**
   An increasing list drawn from the tail of an increasing list stays
   increasing with or without the head in front.
   */
  lemma ConsIncreasing(ids: seq<int>, rest: seq<int>)
    requires ids != [] && (Increasing(ids[1..]) ==> Increasing(rest))
    requires forall j | j in rest :: j in ids[1..]
    ensures Increasing(ids) ==> Increasing(rest) && Increasing([ids[0]] + rest)
  {
    if Increasing(ids) {
      assert Increasing(ids[1..]);
      var s := [ids[0]] + rest;
      forall a, b | 0 <= a < b < |s| ensures s[a] < s[b] {
        assert s[b] == rest[b - 1] && rest[b - 1] in rest;
        var m :| 0 <= m < |ids[1..]| && ids[1..][m] == rest[b - 1];
        assert ids[m + 1] == s[b];
        if a > 0 {
          assert s[a] == rest[a - 1];
        }
      }
    }
  }

  /**
   `R.values(R.groupBy(fact => fact.cluster, facts))` as a list of cluster
   ids: exactly the ids with at least one member, in ascending order.
   */
  function InUse(facts: seq<Record>, k: nat): (used: seq<int>)
    ensures |used| <= |ClusterIds(k)| && Increasing(used)
    ensures forall j :: j in used <==> j in ClusterIds(k) && Members(facts, j) != []
  {
    var groups := GroupBy(ClusterKey, facts);
    assert forall j: int :: Some(j as real) in groups <==> Members(facts, j) != [];
    PresentIds(groups, ClusterIds(k))
  }

  /** Members of a group are facts of the list. */
  lemma MembersMeasured(facts: seq<Record>, j: int)
    requires Measured(facts)
    ensures Measured(Members(facts, j))
  {
    var members := Members(facts, j);
    FilterMembers(ClusterKey, facts, Some(j as real));
    forall i | 0 <= i < |members| ensures Experience in members[i].features && Salary in members[i].features {
      assert members[i] in facts;
    }
  }

  /**
   The updated centroids: one per cluster id in use, in ascending id order,
   each the centroid of that cluster's members.
   */
  function UpdateCentroids(facts: seq<Record>, k: nat): (centroids: seq<Record>)
    requires Measured(facts)
    ensures |centroids| == |InUse(facts, k)|
    ensures forall t | 0 <= t < |centroids| ::
      var j := InUse(facts, k)[t];
      Members(facts, j) != [] && Measured(Members(facts, j)) && centroids[t] == CentroidOf(Members(facts, j))
  {
    var groups := GroupBy(ClusterKey, facts);
    var used := InUse(facts, k);
    forall t | 0 <= t < |used|
      ensures Some(used[t] as real) in groups && groups[Some(used[t] as real)] == Members(facts, used[t])
      ensures Members(facts, used[t]) != [] && Measured(Members(facts, used[t]))
    {
      GroupOfUsed(facts, k, used[t]);
    }
    seq(|used|, t requires 0 <= t < |used| => CentroidOf(groups[Some(used[t] as real)]))
  }

  /** The group of a cluster id in use is its non-empty list of members, each with both features. */
  lemma GroupOfUsed(facts: seq<Record>, k: nat, j: int)
    requires Measured(facts) && j in InUse(facts, k)
    ensures Some(j as real) in GroupBy(ClusterKey, facts)
    ensures GroupBy(ClusterKey, facts)[Some(j as real)] == Members(facts, j)
    ensures Members(facts, j) != [] && Measured(Members(facts, j))
  {
    MembersMeasured(facts, j);
  }

  /** A cluster id in use is carried by some fact. */
  lemma InUseCarried(facts: seq<Record>, k: nat, j: int)
    requires j in InUse(facts, k)
    ensures exists i | 0 <= i < |facts| :: InCluster(facts[i], j)
  {
    var members := Members(facts, j);
    assert members != [];
    var y := members[0];
    assert y in members;
    FilterMembers(ClusterKey, facts, Some(j as real));
    assert y in facts && ClusterKey(y) == Some(j as real);
    var i :| 0 <= i < |facts| && facts[i] == y;
    assert InCluster(facts[i], j);
  }

  /** A cluster id carried by some fact that the grouping enumerates is in use. */
  lemma CarriedInUse(facts: seq<Record>, k: nat, i: int, j: int)
    requires 0 <= i < |facts| && InCluster(facts[i], j)
    requires exists j' | j' in ClusterIds(k) :: InCluster(facts[i], j')
    ensures j in InUse(facts, k)
  {
    var j' :| j' in ClusterIds(k) && InCluster(facts[i], j');
    assert j' == j;
    FilterMembers(ClusterKey, facts, Some(j as real));
    assert facts[i] in Members(facts, j);
  }

  /**
   When every fact is tagged with an id the grouping enumerates, the ids in
   use are exactly the ids some fact is tagged with.
   */
  lemma InUseExactly(facts: seq<Record>, k: nat)
    requires forall i | 0 <= i < |facts| :: exists j | j in ClusterIds(k) :: InCluster(facts[i], j)
    ensures forall j :: j in InUse(facts, k) <==> exists i | 0 <= i < |facts| :: InCluster(facts[i], j)
  {
    forall j ensures j in InUse(facts, k) <==> exists i | 0 <= i < |facts| :: InCluster(facts[i], j) {
      if j in InUse(facts, k) {
        InUseCarried(facts, k, j);
      }
      if i :| 0 <= i < |facts| && InCluster(facts[i], j) {
        CarriedInUse(facts, k, i, j);
      }
    }
  }
}
