/**
 A worked iteration: the facts (1, 1), (1, 1), (10, 10) and the centroids
 (0, 0), (10, 10), as (experience, salary) pairs. The two equal facts go to the
 first centroid and the outlier to the second, and the updated centroids are
 the means (1, 1) and (10, 10).
 */
module Scenario {
  import opened Facts
  import opened Collections
  import opened Scaling
  import opened Distance
  import opened Assignment
  import opened CentroidUpdate
  import opened KMeans

  /** `r` is the point (`e`, `s`): an `experience` and a `salary` and nothing else. */
  predicate IsPoint(r: Record, e: real, s: real)
  {
    && r.tag == None
    && r.features.Keys == {Experience, Salary}
    && r.features[Experience] == e
    && r.features[Salary] == s
  }

  /** The facts (1, 1), (1, 1), (10, 10). */
  predicate IsFacts0(facts: seq<Record>)
  {
    |facts| == 3 && IsPoint(facts[0], 1.0, 1.0) && IsPoint(facts[1], 1.0, 1.0) && IsPoint(facts[2], 10.0, 10.0)
  }

  /** The centroids (0, 0), (10, 10). */
  predicate IsCentroids0(centroids: seq<Record>)
  {
    |centroids| == 2 && IsPoint(centroids[0], 0.0, 0.0) && IsPoint(centroids[1], 10.0, 10.0)
  }

  /** Between two points the squared distance is the sum of the two squared differences. */
  lemma PointDistance(a: Record, b: Record)
    requires a.features.Keys == {Experience, Salary} && b.features.Keys == {Experience, Salary}
    ensures SquaredDistance(a, b) == Finite(
      Square(a.features[Experience] - b.features[Experience]) + Square(a.features[Salary] - b.features[Salary]))
  {
    var keys := {Experience, Salary};
    assert a.features.Keys + b.features.Keys == keys;
    SumSquaresRemove(a.features, b.features, keys, Experience);
    assert keys - {Experience} == {Salary};
    SumSquaresRemove(a.features, b.features, {Salary}, Salary);
    assert {Salary} - {Salary} == {};
  }

  /** A two-element column whose values differ scales to 0 and 1. */
  lemma ScaleTwo(col: seq<real>)
    requires |col| == 2 && col[0] < col[1]
    ensures Spread(col) && Scale(col)[0] == 0.0 && Scale(col)[1] == 1.0
  {
    assert Minimum(col) == col[0] && Maximum(col) == col[1];
  }

  /** A column `lo`, `lo`, `hi` with `lo < hi` scales to 0, 0, 1. */
  lemma ScaleThree(col: seq<real>)
    requires |col| == 3 && col[0] == col[1] < col[2]
    ensures Spread(col) && Scale(col)[0] == 0.0 && Scale(col)[1] == 0.0 && Scale(col)[2] == 1.0
  {
    assert Minimum(col) == col[0] && Maximum(col) == col[2];
  }

  lemma OmitFacts(facts: seq<Record>)
    requires IsFacts0(facts)
    ensures OmitAll(facts) == facts
  {
    forall i | 0 <= i < 3 ensures Omit(facts[i]) == facts[i] {
      assert facts[i].features - {Cluster} == facts[i].features;
    }
  }

  lemma FactsColumn(facts: seq<Record>, k: string)
    requires IsFacts0(facts) && (k == Experience || k == Salary)
    ensures HasKey(facts, k) && Spread(Column(facts, k))
  {
    var col := Column(facts, k);
    assert col[0] == 1.0 && col[1] == 1.0 && col[2] == 10.0;
    ScaleThree(col);
  }

  lemma CentroidsColumn(centroids: seq<Record>, k: string)
    requires IsCentroids0(centroids) && (k == Experience || k == Salary)
    ensures HasKey(centroids, k) && Spread(Column(centroids, k))
  {
    var col := Column(centroids, k);
    assert col[0] == 0.0 && col[1] == 10.0;
    ScaleTwo(col);
  }

  lemma FactsScalable(facts: seq<Record>)
    requires IsFacts0(facts)
    ensures Scalable(facts)
  {
    assert SameShape(facts);
    forall k | k in facts[0].features ensures HasKey(facts, k) && Spread(Column(facts, k)) {
      assert k in {Experience, Salary};
      FactsColumn(facts, k);
    }
  }

  lemma CentroidsScalable(centroids: seq<Record>)
    requires IsCentroids0(centroids)
    ensures Scalable(centroids)
  {
    assert SameShape(centroids);
    forall k | k in centroids[0].features ensures HasKey(centroids, k) && Spread(Column(centroids, k)) {
      assert k in {Experience, Salary};
      CentroidsColumn(centroids, k);
    }
  }

  lemma KeysAgree(centroids: seq<Record>, facts: seq<Record>)
    requires IsCentroids0(centroids) && IsFacts0(facts)
    ensures forall i, j | 0 <= i < |facts| && 0 <= j < |centroids| ::
      centroids[j].features.Keys == facts[i].features.Keys - {Cluster}
  {
    assert {Experience, Salary} - {Cluster} == {Experience, Salary};
  }

  /** The worked iteration is one the model computes numbers for. */
  lemma ScenarioReady(centroids: seq<Record>, facts: seq<Record>)
    requires IsCentroids0(centroids) && IsFacts0(facts)
    ensures Ready(centroids, facts)
  {
    OmitFacts(facts);
    FactsScalable(facts);
    assert Scalable(OmitAll(facts));
    CentroidsScalable(centroids);
    KeysAgree(centroids, facts);
    assert Measured(facts) by {
      forall i | 0 <= i < |facts| ensures Experience in facts[i].features && Salary in facts[i].features {
        assert facts[i].features.Keys == {Experience, Salary};
      }
    }
  }

  /** Scaled, the facts become (0, 0), (0, 0), (1, 1). */
  lemma ScaledFacts(facts: seq<Record>)
    requires IsFacts0(facts) && Scalable(facts)
    ensures var s := ScaleFacts(facts);
      |s| == 3 && IsPoint(s[0], 0.0, 0.0) && IsPoint(s[1], 0.0, 0.0) && IsPoint(s[2], 1.0, 1.0)
  {
    ScaleThree(Column(facts, Experience));
    ScaleThree(Column(facts, Salary));
  }

  /** Scaled, the centroids become (0, 0), (1, 1). */
  lemma ScaledCentroids(centroids: seq<Record>)
    requires IsCentroids0(centroids) && Scalable(centroids)
    ensures var s := ScaleFacts(centroids);
      |s| == 2 && IsPoint(s[0], 0.0, 0.0) && IsPoint(s[1], 1.0, 1.0)
  {
    ScaleTwo(Column(centroids, Experience));
    ScaleTwo(Column(centroids, Salary));
  }

  /** The scaled origin is nearest to (0, 0) and the scaled (1, 1) to (1, 1). */
  lemma NearestInScenario(f: Record, cs: seq<Record>, v: real, j: int)
    requires v == 0.0 || v == 1.0
    requires IsPoint(f, v, v)
    requires |cs| == 2 && IsPoint(cs[0], 0.0, 0.0) && IsPoint(cs[1], 1.0, 1.0)
    requires Comparable(f, cs) && FirstNearest(f, cs, j)
    ensures j == (if v == 0.0 then 0 else 1)
  {
    PointDistance(f, cs[0]);
    PointDistance(f, cs[1]);
    assert Square(0.0 - 0.0) == 0.0 && Square(1.0 - 1.0) == 0.0;
    assert Square(0.0 - 1.0) == 1.0 && Square(1.0 - 0.0) == 1.0;
  }

  /** A fact whose scaled point is (v, v) is tagged with the centroid at (v, v). */
  lemma ClusterOfFact(r: Record, f: Record, cs: seq<Record>, v: real)
    requires v == 0.0 || v == 1.0
    requires IsPoint(f, v, v)
    requires |cs| == 2 && IsPoint(cs[0], 0.0, 0.0) && IsPoint(cs[1], 1.0, 1.0)
    requires Comparable(f, cs) && AssignedNearest(r, f, cs)
    ensures InCluster(r, if v == 0.0 then 0 else 1)
  {
    var j :| 0 <= j < |cs| && InCluster(r, j) && FirstNearest(f, cs, j);
    NearestInScenario(f, cs, v, j);
  }

  /** The two equal facts are tagged with cluster 0 and the outlier with cluster 1. */
  lemma ScenarioClusters(centroids: seq<Record>, facts: seq<Record>)
    requires IsCentroids0(centroids) && IsFacts0(facts)
    ensures Ready(centroids, facts)
    ensures var cf := ClusterByKMeans(centroids, facts).clusteredFacts;
      |cf| == 3 && InCluster(cf[0], 0) && InCluster(cf[1], 0) && InCluster(cf[2], 1)
  {
    ScenarioReady(centroids, facts);
    OmitFacts(facts);
    ScaledFacts(facts);
    ScaledCentroids(centroids);
    var cf := ClusterByKMeans(centroids, facts).clusteredFacts;
    var scaled, cs := ScaleFacts(facts), ScaleFacts(centroids);
    assert scaled == ScaleFacts(OmitAll(facts));
    ClusterOfFact(cf[0], scaled[0], cs, 0.0);
    ClusterOfFact(cf[1], scaled[1], cs, 0.0);
    ClusterOfFact(cf[2], scaled[2], cs, 1.0);
  }

  /** The facts of one cluster all have the same point, so the centroid is that point. */
  lemma CentroidOfEqual(members: seq<Record>, e: real, s: real)
    requires members != [] && Measured(members)
    requires forall t | 0 <= t < |members| :: members[t].features[Experience] == e && members[t].features[Salary] == s
    ensures IsPoint(CentroidOf(members), e, s)
  {
    MeanConstant(Column(members, Experience), e);
    MeanConstant(Column(members, Salary), s);
  }

  /** The clustered facts (1, 1) and (1, 1) in cluster 0 and (10, 10) in cluster 1. */
  predicate IsClustered0(cf: seq<Record>)
  {
    && |cf| == 3
    && (forall i | 0 <= i < 3 :: Experience in cf[i].features && Salary in cf[i].features)
    && cf[0].features[Experience] == 1.0 && cf[0].features[Salary] == 1.0 && InCluster(cf[0], 0)
    && cf[1].features[Experience] == 1.0 && cf[1].features[Salary] == 1.0 && InCluster(cf[1], 0)
    && cf[2].features[Experience] == 10.0 && cf[2].features[Salary] == 10.0 && InCluster(cf[2], 1)
  }

  /** Both clusters received facts. */
  lemma UsedScenario(cf: seq<Record>)
    requires IsClustered0(cf)
    ensures InUse(cf, 2) == [0, 1]
  {
    ClusteredInIds(cf);
    InUseExactly(cf, 2);
    var used := InUse(cf, 2);
    assert InCluster(cf[0], 0) && InCluster(cf[2], 1);
    ZeroOne(used);
  }

  /** Every clustered fact carries one of the ids 0 and 1. */
  lemma ClusteredInIds(cf: seq<Record>)
    requires IsClustered0(cf)
    ensures forall i | 0 <= i < |cf| :: exists j | j in ClusterIds(2) :: InCluster(cf[i], j)
  {
    var ids := ClusterIds(2);
    assert ids[0] == 0 && ids[1] == 1;
    assert InCluster(cf[0], ids[0]) && InCluster(cf[1], ids[0]) && InCluster(cf[2], ids[1]);
  }

  /** An increasing list of at most two ids holding 0 and 1 is `[0, 1]`. */
  lemma ZeroOne(used: seq<int>)
    requires |used| <= 2 && Increasing(used) && 0 in used && 1 in used
    ensures used == [0, 1]
  {
  }

  /** The members of cluster 0 all sit at (1, 1) and the member of cluster 1 at (10, 10). */
  lemma ClusterCentroid(cf: seq<Record>, t: int)
    requires IsClustered0(cf) && (t == 0 || t == 1)
    ensures var members := Members(cf, t); var v := if t == 0 then 1.0 else 10.0;
      members != [] && Measured(members) && IsPoint(CentroidOf(members), v, v)
  {
    var members := Members(cf, t);
    FilterMembers(ClusterKey, cf, Some(t as real));
    assert cf[2 * t] in members;
    var v := if t == 0 then 1.0 else 10.0;
    forall m | 0 <= m < |members|
      ensures Experience in members[m].features && Salary in members[m].features
      ensures members[m].features[Experience] == v && members[m].features[Salary] == v
    {
      assert members[m] in cf;
    }
    CentroidOfEqual(members, v, v);
  }

  /** Grouping those clustered facts gives the centroids (1, 1) and (10, 10). */
  lemma UpdateScenario(cf: seq<Record>)
    requires IsClustered0(cf)
    ensures Measured(cf)
    ensures var u := UpdateCentroids(cf, 2); |u| == 2 && IsPoint(u[0], 1.0, 1.0) && IsPoint(u[1], 10.0, 10.0)
  {
    UsedScenario(cf);
    ClusterCentroid(cf, 0);
    ClusterCentroid(cf, 1);
  }

  /** After the iteration the centroids sit at the cluster means, (1, 1) and (10, 10). */
  lemma ScenarioCentroids(centroids: seq<Record>, facts: seq<Record>)
    requires IsCentroids0(centroids) && IsFacts0(facts)
    ensures Ready(centroids, facts)
    ensures var u := ClusterByKMeans(centroids, facts).updatedCentroids;
      |u| == 2 && IsPoint(u[0], 1.0, 1.0) && IsPoint(u[1], 10.0, 10.0)
  {
    ScenarioClusters(centroids, facts);
    var it := ClusterByKMeans(centroids, facts);
    var cf := it.clusteredFacts;
    assert Experience != Cluster && Salary != Cluster;
    assert IsClustered0(cf);
    UpdateScenario(cf);
    assert it.updatedCentroids == UpdateCentroids(cf, 2);
  }
}
