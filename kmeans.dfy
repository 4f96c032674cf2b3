/**
 `clusterByKMeans`: one iteration of Lloyd's algorithm. The facts (without
 `cluster` and `label`) and the centroids are each min-max scaled on their own;
 every fact is assigned the index of the first scaled centroid at least
 distance; the original, unscaled facts are tagged with those indices; and one
 new centroid is made per cluster that received a fact.
 */
module KMeans {
  import opened Facts
  import opened Collections
  import opened Scaling
  import opened Distance
  import opened Assignment
  import opened CentroidUpdate

  /** The result pair `[updatedCentroids, clusteredFacts]`. */
  datatype Iteration = Iteration(updatedCentroids: seq<Record>, clusteredFacts: seq<Record>)

  /**
   Inputs on which the iteration computes numbers throughout: the facts (once
   `cluster` is dropped) and the centroids can each be scaled, every centroid
   has exactly the numeric keys of every fact, and every fact has an
   `experience` and a `salary`.
   */
  predicate Ready(centroids: seq<Record>, givenFacts: seq<Record>)
  {
    && Scalable(OmitAll(givenFacts))
    && Scalable(centroids)
    && (forall i, j | 0 <= i < |givenFacts| && 0 <= j < |centroids| ::
          centroids[j].features.Keys == givenFacts[i].features.Keys - {Cluster})
    && Measured(givenFacts)
  }

  /** The scaled facts and the scaled centroids can be compared key by key. */
  lemma ScaledComparable(centroids: seq<Record>, givenFacts: seq<Record>)
    requires Ready(centroids, givenFacts)
    ensures AllComparable(ScaleFacts(OmitAll(givenFacts)), ScaleFacts(centroids))
  {
  }

  /**
   `r` carries the index of the first centroid of `cs` at least distance from
   `f`, or -1 when there are no centroids.
   */
  ghost predicate AssignedNearest(r: Record, f: Record, cs: seq<Record>)
    requires Comparable(f, cs)
  {
    && Cluster in r.features
    && (|cs| == 0 ==> r.features[Cluster] == -1.0)
    && (|cs| > 0 ==> exists j | 0 <= j < |cs| :: InCluster(r, j) && FirstNearest(f, cs, j))
  }

  /**
   One K-Means iteration. The clustered facts are the given facts, in the same
   order and with the same values and labels, each with `cluster` set to the
   first centroid nearest to it in scaled space.
   */
  ghost function ClusterByKMeans(centroids: seq<Record>, givenFacts: seq<Record>): (it: Iteration)
    requires Ready(centroids, givenFacts)
    ensures |it.clusteredFacts| == |givenFacts|
    ensures forall i | 0 <= i < |givenFacts| ::
      it.clusteredFacts[i].tag == givenFacts[i].tag
      && it.clusteredFacts[i].features.Keys == givenFacts[i].features.Keys + {Cluster}
    ensures forall i, k | 0 <= i < |givenFacts| && k in givenFacts[i].features && k != Cluster ::
      it.clusteredFacts[i].features[k] == givenFacts[i].features[k]
    ensures forall i | 0 <= i < |givenFacts| ::
      AssignedNearest(it.clusteredFacts[i], ScaleFacts(OmitAll(givenFacts))[i], ScaleFacts(centroids))
    ensures Measured(it.clusteredFacts) && it.updatedCentroids == UpdateCentroids(it.clusteredFacts, |centroids|)
  {
    var scaledGivenFacts := ScaleFacts(OmitAll(givenFacts));
    var scaledCentroids := ScaleFacts(centroids);
    ScaledComparable(centroids, givenFacts);
    var labels := Assign(scaledGivenFacts, scaledCentroids);
    var clusteredFacts := ClassifyFacts(givenFacts, labels);
    ClassifiedNearest(scaledGivenFacts, scaledCentroids, givenFacts);
    ClassifiedMeasured(givenFacts, labels);
    Iteration(UpdateCentroids(clusteredFacts, |centroids|), clusteredFacts)
  }

  /** Tagging the facts with the labels of `Assign` tags each with its first nearest centroid. */
  lemma ClassifiedNearest(scaled: seq<Record>, cs: seq<Record>, givenFacts: seq<Record>)
    requires AllComparable(scaled, cs) && |scaled| == |givenFacts|
    ensures forall i | 0 <= i < |givenFacts| ::
      AssignedNearest(ClassifyFacts(givenFacts, Assign(scaled, cs))[i], scaled[i], cs)
  {
    var labels := Assign(scaled, cs);
    var cf := ClassifyFacts(givenFacts, labels);
    forall i | 0 <= i < |givenFacts| ensures AssignedNearest(cf[i], scaled[i], cs) {
      assert InCluster(cf[i], labels[i]);
      if |cs| > 0 {
        assert FirstNearest(scaled[i], cs, labels[i]);
      }
    }
  }

  /** Tagging keeps `experience` and `salary`. */
  lemma ClassifiedMeasured(givenFacts: seq<Record>, labels: seq<int>)
    requires Measured(givenFacts) && |givenFacts| <= |labels|
    ensures Measured(ClassifyFacts(givenFacts, labels))
  {
    var cf := ClassifyFacts(givenFacts, labels);
    forall i | 0 <= i < |cf| ensures Experience in cf[i].features && Salary in cf[i].features {
      assert Experience in givenFacts[i].features && Salary in givenFacts[i].features;
    }
  }

  /** A fact tagged with its nearest centroid carries a cluster id the grouping enumerates. */
  lemma AssignedInRange(r: Record, f: Record, cs: seq<Record>)
    requires Comparable(f, cs) && AssignedNearest(r, f, cs)
    ensures exists j | j in ClusterIds(|cs|) :: InCluster(r, j)
  {
    if |cs| == 0 {
      assert InCluster(r, -1) && ClusterIds(0)[0] == -1;
    } else {
      var j :| 0 <= j < |cs| && InCluster(r, j) && FirstNearest(f, cs, j);
      assert ClusterIds(|cs|)[j] == j;
    }
  }

  /** Every clustered fact carries a cluster id the grouping enumerates. */
  lemma ClusteredInRange(centroids: seq<Record>, givenFacts: seq<Record>)
    requires Ready(centroids, givenFacts)
    ensures var cf := ClusterByKMeans(centroids, givenFacts).clusteredFacts;
      forall i | 0 <= i < |cf| :: exists j | j in ClusterIds(|centroids|) :: InCluster(cf[i], j)
  {
    var cf := ClusterByKMeans(centroids, givenFacts).clusteredFacts;
    var scaled, cs := ScaleFacts(OmitAll(givenFacts)), ScaleFacts(centroids);
    forall i | 0 <= i < |cf| ensures exists j | j in ClusterIds(|centroids|) :: InCluster(cf[i], j) {
      AssignedInRange(cf[i], scaled[i], cs);
    }
  }

  /**
   `updated` is the update of the clustered facts `cf` with `k` centroids: one
   centroid per cluster that received a fact, in ascending cluster order (so
   never more than there were centroids, or one when there were none), each
   holding the means of its members' `experience` and `salary`.
   */
  ghost predicate UpdatedFrom(cf: seq<Record>, k: nat, updated: seq<Record>)
  {
    var used := InUse(cf, k);
    && |updated| == |used|
    && (k > 0 ==> |used| <= k)
    && (k == 0 ==> |used| <= 1)
    && Increasing(used)
    && (forall j :: j in used <==> exists i | 0 <= i < |cf| :: InCluster(cf[i], j))
    && forall t | 0 <= t < |used| ::
         var members := Members(cf, used[t]);
         members != [] && Measured(members) && updated[t] == CentroidOf(members)
  }

  /** The updated centroids of an iteration are the update of its clustered facts. */
  lemma UpdatedCentroids(centroids: seq<Record>, givenFacts: seq<Record>)
    requires Ready(centroids, givenFacts)
    ensures
      var it := ClusterByKMeans(centroids, givenFacts);
      UpdatedFrom(it.clusteredFacts, |centroids|, it.updatedCentroids)
  {
    var it := ClusterByKMeans(centroids, givenFacts);
    var cf := it.clusteredFacts;
    ClusteredInRange(centroids, givenFacts);
    UpdateInRange(cf, |centroids|);
  }

  /** Updating facts that all carry enumerable cluster ids gives one centroid per id carried. */
  lemma UpdateInRange(cf: seq<Record>, k: nat)
    requires Measured(cf)
    requires forall i | 0 <= i < |cf| :: exists j | j in ClusterIds(k) :: InCluster(cf[i], j)
    ensures UpdatedFrom(cf, k, UpdateCentroids(cf, k))
  {
    var used, updated := InUse(cf, k), UpdateCentroids(cf, k);
    InUseExactly(cf, k);
    assert |used| <= |ClusterIds(k)| && |updated| == |used|;
    assert forall t | 0 <= t < |used| ::
      Members(cf, used[t]) != [] && Measured(Members(cf, used[t])) && updated[t] == CentroidOf(Members(cf, used[t]));
  }
}
