/**
 Min-max normalisation: `scale` over a list of numbers and `scaleFacts`, which
 normalises every numeric feature of a list of records column by column.
 The two-decimal rounding the library applies after scaling is not modelled;
 values are exact.
 */
module Scaling {
  import opened Facts
  import opened Collections

  /** A list `scale` can normalise: not empty and not constant. */
  predicate Spread(ns: seq<real>)
  {
    |ns| > 0 && Minimum(ns) < Maximum(ns)
  }

  /** The position of `n` within [lo, hi], as a fraction of the width. */
  function Ratio(n: real, lo: real, hi: real): real
    requires lo < hi
  {
    (n - lo) / (hi - lo)
  }

  /** For `n` in [lo, hi] the ratio lies in [0, 1], hitting 0 and 1 at the ends only. */
  lemma RatioBounds(n: real, lo: real, hi: real)
    requires lo <= n <= hi && lo < hi
    ensures 0.0 <= Ratio(n, lo, hi) <= 1.0
    ensures Ratio(n, lo, hi) == 0.0 <==> n == lo
    ensures Ratio(n, lo, hi) == 1.0 <==> n == hi
  {
    var d := hi - lo;
    assert ((n - lo) / d) * d == n - lo;
  }

  /** Each value `n` of `ns` mapped to `(n - lo) / (hi - lo)`. */
  function ScaleBy(ns: seq<real>, lo: real, hi: real): (r: seq<real>)
    requires lo < hi
    ensures |r| == |ns|
    ensures forall i | 0 <= i < |ns| :: r[i] == Ratio(ns[i], lo, hi)
  {
    if ns == [] then [] else [Ratio(ns[0], lo, hi)] + ScaleBy(ns[1..], lo, hi)
  }

  /**
   `scale`: maps each value `n` to `(n - min) / (max - min)`. Every result lies
   in [0, 1]; exactly the minimal inputs map to 0 and the maximal ones to 1.
   The empty list maps to the empty list.
   */
  function Scale(ns: seq<real>): (r: seq<real>)
    requires ns == [] || Spread(ns)
    ensures |r| == |ns|
    ensures forall i | 0 <= i < |ns| :: 0.0 <= r[i] <= 1.0
    ensures forall i | 0 <= i < |ns| :: r[i] == 0.0 <==> ns[i] == Minimum(ns)
    ensures forall i | 0 <= i < |ns| :: r[i] == 1.0 <==> ns[i] == Maximum(ns)
  {
    if ns == [] then [] else
    var lo, hi := Minimum(ns), Maximum(ns);
    var r := ScaleBy(ns, lo, hi);
    assert forall i | 0 <= i < |ns| :: 0.0 <= r[i] <= 1.0 && (r[i] == 0.0 <==> ns[i] == lo) && (r[i] == 1.0 <==> ns[i] == hi) by {
      forall i | 0 <= i < |ns| ensures 0.0 <= r[i] <= 1.0 && (r[i] == 0.0 <==> ns[i] == lo) && (r[i] == 1.0 <==> ns[i] == hi) {
        RatioBounds(ns[i], lo, hi);
      }
    }
    r
  }

  /** The ratio preserves order, in both directions. */
  lemma RatioMonotone(a: real, b: real, lo: real, hi: real)
    requires lo < hi
    ensures a <= b <==> Ratio(a, lo, hi) <= Ratio(b, lo, hi)
  {
    var d := hi - lo;
    assert (Ratio(b, lo, hi) - Ratio(a, lo, hi)) * d == b - a;
  }

  /** Scaling preserves the order of the values, in both directions. */
  lemma ScaleMonotone(ns: seq<real>, i: int, j: int)
    requires Spread(ns) && 0 <= i < |ns| && 0 <= j < |ns|
    ensures ns[i] <= ns[j] <==> Scale(ns)[i] <= Scale(ns)[j]
  {
    var lo, hi := Minimum(ns), Maximum(ns);
    var r := Scale(ns);
    assert r == ScaleBy(ns, lo, hi);
    assert r[i] == Ratio(ns[i], lo, hi) && r[j] == Ratio(ns[j], lo, hi);
    RatioMonotone(ns[i], ns[j], lo, hi);
  }

  /** A scaled value `r` mapped back to `lo + r * (hi - lo)`. */
  function Unscaled(r: real, lo: real, hi: real): real
  {
    lo + r * (hi - lo)
  }

  /** Each scaled value mapped back by `Unscaled`. */
  function UnscaleBy(rs: seq<real>, lo: real, hi: real): (ns: seq<real>)
    ensures |ns| == |rs|
  {
    if rs == [] then [] else [Unscaled(rs[0], lo, hi)] + UnscaleBy(rs[1..], lo, hi)
  }

  /** `UnscaleBy` of a non-empty list, unfolded once. */
  lemma UnscaleByCons(rs: seq<real>, lo: real, hi: real)
    requires rs != []
    ensures UnscaleBy(rs, lo, hi) == [Unscaled(rs[0], lo, hi)] + UnscaleBy(rs[1..], lo, hi)
  {
  }

  lemma {:induction false} UnscaleScaleBy(ns: seq<real>, lo: real, hi: real)
    requires lo < hi
    ensures UnscaleBy(ScaleBy(ns, lo, hi), lo, hi) == ns
    decreases |ns|
  {
    if ns != [] {
      var r := ScaleBy(ns, lo, hi);
      assert r == [Ratio(ns[0], lo, hi)] + ScaleBy(ns[1..], lo, hi);
      assert r != [] && r[1..] == ScaleBy(ns[1..], lo, hi);
      UnscaleScaleBy(ns[1..], lo, hi);
      Unscale(ns[0], r[0], lo, hi);
      UnscaleByCons(r, lo, hi);
      var head := Unscaled(r[0], lo, hi);
      assert head == ns[0];
      assert UnscaleBy(r[1..], lo, hi) == ns[1..];
      assert UnscaleBy(r, lo, hi) == [head] + ns[1..];
      assert ns == [ns[0]] + ns[1..];
    }
  }

  /** Scaling is undone by `min + r * (max - min)`: no information is lost. */
  lemma ScaleInverse(ns: seq<real>)
    requires Spread(ns)
    ensures UnscaleBy(Scale(ns), Minimum(ns), Maximum(ns)) == ns
  {
    UnscaleScaleBy(ns, Minimum(ns), Maximum(ns));
  }

  /** `Ratio` is undone by `Unscaled`. */
  lemma Unscale(n: real, r: real, lo: real, hi: real)
    requires lo < hi && r == Ratio(n, lo, hi)
    ensures n == Unscaled(r, lo, hi)
  {
  }

  /** A scaled list has minimum 0 and maximum 1. */
  lemma ScaleExtremes(ns: seq<real>)
    requires Spread(ns)
    ensures Spread(Scale(ns)) && Minimum(Scale(ns)) == 0.0 && Maximum(Scale(ns)) == 1.0
  {
    var r := Scale(ns);
    var iLo :| 0 <= iLo < |ns| && ns[iLo] == Minimum(ns);
    var iHi :| 0 <= iHi < |ns| && ns[iHi] == Maximum(ns);
    assert r[iLo] == 0.0 && r[iHi] == 1.0;
  }

  /** A list with minimum 0 and maximum 1 is its own scaling. */
  lemma ScaleUnit(r: seq<real>)
    requires Spread(r) && Minimum(r) == 0.0 && Maximum(r) == 1.0
    ensures Scale(r) == r
  {
    var rr := Scale(r);
    assert rr == ScaleBy(r, 0.0, 1.0);
    forall i | 0 <= i < |r| ensures rr[i] == r[i] {
      assert rr[i] == (r[i] - 0.0) / (1.0 - 0.0);
    }
  }

  /** Scaling a scaled list again changes nothing. */
  lemma ScaleIdempotent(ns: seq<real>)
    requires Spread(ns)
    ensures Spread(Scale(ns)) && Minimum(Scale(ns)) == 0.0 && Maximum(Scale(ns)) == 1.0
    ensures Scale(Scale(ns)) == Scale(ns)
  {
    ScaleExtremes(ns);
    ScaleUnit(Scale(ns));
  }

  /** Every fact carries exactly the numeric keys of the first one. */
  predicate SameShape(facts: seq<Record>)
  {
    forall i | 0 <= i < |facts| :: facts[i].features.Keys == facts[0].features.Keys
  }

  /** A list `scaleFacts` can normalise: one shape, and no feature constant across the facts. */
  predicate Scalable(facts: seq<Record>)
  {
    && SameShape(facts)
    && (|facts| > 0 ==> forall k | k in facts[0].features :: HasKey(facts, k) && Spread(Column(facts, k)))
  }

  /** The scaled copy of the `i`-th fact, given the scaled columns. */
  function ScaledFact(fact: Record, columns: map<string, seq<real>>, i: nat): (r: Record)
    requires forall k | k in fact.features :: k in columns && i < |columns[k]|
    ensures r.tag == fact.tag && r.features.Keys == fact.features.Keys
    ensures forall k | k in fact.features :: r.features[k] == columns[k][i]
  {
    Record(map k | k in fact.features :: columns[k][i], fact.tag)
  }

  /** The scaled value lists of `scaleFacts`, one per numeric key of the first fact. */
  function ScaledColumns(facts: seq<Record>): (columns: map<string, seq<real>>)
    requires Scalable(facts) && |facts| > 0
    ensures forall k | k in facts[0].features :: k in columns && columns[k] == Scale(Column(facts, k))
    ensures forall k | k in facts[0].features :: k in columns && |columns[k]| == |facts|
  {
    map k | k in facts[0].features :: Scale(Column(facts, k))
  }

  /**
   `scaleFacts`: replaces every numeric value by its `scale`d value within its
   column, keeping each fact's position, keys and label.
   */
  function ScaleFacts(facts: seq<Record>): (scaled: seq<Record>)
    requires Scalable(facts)
    ensures |scaled| == |facts| && SameShape(scaled)
    ensures forall i | 0 <= i < |facts| :: scaled[i].tag == facts[i].tag && scaled[i].features.Keys == facts[i].features.Keys
    ensures forall i, k | 0 <= i < |facts| && k in facts[i].features ::
      scaled[i].features[k] == Scale(Column(facts, k))[i] && 0.0 <= scaled[i].features[k] <= 1.0
  {
    if facts == [] then []
    else
      var columns := ScaledColumns(facts);
      var scaled := seq(|facts|, i requires 0 <= i < |facts| => ScaledFactAt(facts, columns, i));
      forall i | 0 <= i < |facts|
        ensures scaled[i].tag == facts[i].tag && scaled[i].features.Keys == facts[i].features.Keys
        ensures forall k | k in facts[i].features ::
          scaled[i].features[k] == Scale(Column(facts, k))[i] && 0.0 <= scaled[i].features[k] <= 1.0
      {
        assert scaled[i] == ScaledFactAt(facts, columns, i);
      }
      scaled
  }

  /** The `i`-th scaled fact: its keys and label, and entry `i` of each scaled column. */
  function ScaledFactAt(facts: seq<Record>, columns: map<string, seq<real>>, i: int): (r: Record)
    requires Scalable(facts) && 0 <= i < |facts| && columns == ScaledColumns(facts)
    ensures r.tag == facts[i].tag && r.features.Keys == facts[i].features.Keys
    ensures forall k | k in facts[i].features ::
      r.features[k] == Scale(Column(facts, k))[i] && 0.0 <= r.features[k] <= 1.0
  {
    assert facts[i].features.Keys == facts[0].features.Keys;
    ScaledFact(facts[i], columns, i)
  }

  /** Scaled facts keep the shape, and each scaled column is the `scale` of the original column. */
  lemma ScaleFactsColumns(facts: seq<Record>, k: string)
    requires Scalable(facts) && |facts| > 0 && k in facts[0].features
    ensures HasKey(ScaleFacts(facts), k)
    ensures Column(ScaleFacts(facts), k) == Scale(Column(facts, k))
  {
    var s := ScaleFacts(facts);
    var b := Scale(Column(facts, k));
    forall i | 0 <= i < |s| ensures k in s[i].features && s[i].features[k] == b[i] {
      assert facts[i].features.Keys == facts[0].features.Keys;
    }
    assert HasKey(s, k);
  }

  /** Scaled facts can be scaled again: the shape is kept and no column becomes constant. */
  lemma ScaleFactsScalable(facts: seq<Record>)
    requires Scalable(facts)
    ensures Scalable(ScaleFacts(facts))
  {
    var s := ScaleFacts(facts);
    if facts != [] {
      forall k | k in s[0].features ensures HasKey(s, k) && Spread(Column(s, k)) {
        ScaleFactsColumns(facts, k);
        ScaleIdempotent(Column(facts, k));
      }
    }
  }

  /** Scaling already scaled facts a second time changes nothing. */
  lemma ScaleFactsIdempotent(facts: seq<Record>)
    requires Scalable(facts)
    ensures Scalable(ScaleFacts(facts))
    ensures ScaleFacts(ScaleFacts(facts)) == ScaleFacts(facts)
  {
    ScaleFactsScalable(facts);
    var s := ScaleFacts(facts);
    var ss := ScaleFacts(s);
    forall i | 0 <= i < |s| ensures ss[i] == s[i] {
      forall k | k in s[i].features ensures ss[i].features[k] == s[i].features[k] {
        ScaleFactsColumns(facts, k);
        ScaleIdempotent(Column(facts, k));
        assert Scale(Column(s, k)) == Column(s, k);
      }
      assert ss[i].features == s[i].features;
    }
  }
}
