/**
 `getDistance`: the Euclidean distance between two records over the union of
 their keys, `label` excluded (and `cluster` not excluded). The model keeps the
 squared distance: the square root is monotone, so it changes neither which
 centroid is nearest nor which distances tie.
 */
module Distance {
  import opened Facts

  /** A number as the distance computation can produce it: a real, or NaN. */
  datatype Number = Finite(value: real) | NaN

  function Square(x: real): real
  {
    x * x
  }

  lemma ProductPositive(x: real, y: real)
    requires x > 0.0 && y > 0.0
    ensures x * y > 0.0
  {
  }

  /** The square of a non-zero number is positive. */
  lemma SquarePositive(x: real)
    requires x != 0.0
    ensures Square(x) > 0.0
  {
    if x < 0.0 {
      calc {
        Square(x);
        x * x;
        (-x) * (-x);
      > { ProductPositive(-x, -x); }
        0.0;
      }
    } else {
      calc {
        Square(x);
        x * x;
      > { ProductPositive(x, x); }
        0.0;
      }
    }
  }

  /** No square is negative. */
  lemma SquareNonNegative(x: real)
    ensures Square(x) >= 0.0
  {
    if x != 0.0 {
      SquarePositive(x);
    }
  }

  /** The sum of `(a[k] - b[k])^2` over the keys `ks`, taken in any order. */
  ghost function SumSquares(a: Features, b: Features, ks: set<string>): (s: real)
    requires ks <= a.Keys && ks <= b.Keys
    ensures s >= 0.0
    decreases ks
  {
    if ks == {} then 0.0
    else
      var k :| k in ks;
      SquareNonNegative(a[k] - b[k]);
      Square(a[k] - b[k]) + SumSquares(a, b, ks - {k})
  }

  /** Any key of `ks` can be taken first: the order of the keys does not matter. */
  lemma {:induction false} SumSquaresRemove(a: Features, b: Features, ks: set<string>, x: string)
    requires ks <= a.Keys && ks <= b.Keys && x in ks
    ensures SumSquares(a, b, ks) == Square(a[x] - b[x]) + SumSquares(a, b, ks - {x})
    decreases ks
  {
    var y :| y in ks && SumSquares(a, b, ks) == Square(a[y] - b[y]) + SumSquares(a, b, ks - {y});
    if y != x {
      SumSquaresRemove(a, b, ks - {y}, x);
      SumSquaresRemove(a, b, ks - {x}, y);
      assert ks - {y} - {x} == ks - {x} - {y};
    }
  }

  /**
   `getDistance(a, b)`, squared. Every key of either record (none is `label`)
   contributes `(a[k] - b[k])^2`; a key missing from one of them makes its
   term, and so the whole sum, NaN.
   */
  ghost function SquaredDistance(a: Record, b: Record): (d: Number)
    ensures d.NaN? <==> a.features.Keys != b.features.Keys
    ensures d.Finite? ==> d.value >= 0.0
  {
    var keys := a.features.Keys + b.features.Keys;
    if keys <= a.features.Keys && keys <= b.features.Keys then
      Finite(SumSquares(a.features, b.features, keys))
    else
      NaN
  }

  lemma {:induction false} SumSquaresSymmetric(a: Features, b: Features, ks: set<string>)
    requires ks <= a.Keys && ks <= b.Keys
    ensures SumSquares(a, b, ks) == SumSquares(b, a, ks)
    decreases ks
  {
    if ks != {} {
      var k :| k in ks;
      SumSquaresRemove(a, b, ks, k);
      SumSquaresRemove(b, a, ks, k);
      SumSquaresSymmetric(a, b, ks - {k});
      assert Square(a[k] - b[k]) == Square(b[k] - a[k]);
    }
  }

  /** The distance is symmetric. */
  lemma DistanceSymmetric(a: Record, b: Record)
    ensures SquaredDistance(a, b) == SquaredDistance(b, a)
  {
    if a.features.Keys == b.features.Keys {
      var keys := a.features.Keys;
      assert a.features.Keys + b.features.Keys == keys == b.features.Keys + a.features.Keys;
      SumSquaresSymmetric(a.features, b.features, keys);
    }
  }

  /** Records that agree on every summed key contribute nothing. */
  lemma {:induction false} SumSquaresEqual(a: Features, b: Features, ks: set<string>)
    requires ks <= a.Keys && ks <= b.Keys
    requires forall k | k in ks :: a[k] == b[k]
    ensures SumSquares(a, b, ks) == 0.0
    decreases ks
  {
    if ks != {} {
      var k :| k in ks;
      SumSquaresRemove(a, b, ks, k);
      SumSquaresEqual(a, b, ks - {k});
      assert Square(a[k] - b[k]) == 0.0 * 0.0;
    }
  }

  /** One summed key on which the records differ makes the sum positive. */
  lemma SumSquaresPositive(a: Features, b: Features, ks: set<string>, k: string)
    requires ks <= a.Keys && ks <= b.Keys
    requires k in ks && a[k] != b[k]
    ensures SumSquares(a, b, ks) > 0.0
  {
    SumSquaresRemove(a, b, ks, k);
    SquarePositive(a[k] - b[k]);
  }

  /** A record is at distance zero from itself. */
  lemma DistanceToSelf(a: Record)
    ensures SquaredDistance(a, a) == Finite(0.0)
  {
    assert a.features.Keys + a.features.Keys == a.features.Keys;
    SumSquaresEqual(a.features, a.features, a.features.Keys);
  }

  /** The distance is zero exactly when the two records have the same numeric fields. */
  lemma DistanceZero(a: Record, b: Record)
    ensures SquaredDistance(a, b) == Finite(0.0) <==> a.features == b.features
  {
    var keys := a.features.Keys;
    if keys == b.features.Keys {
      assert a.features.Keys + b.features.Keys == keys;
      if a.features == b.features {
        SumSquaresEqual(a.features, b.features, keys);
      } else {
        var k :| k in keys && a.features[k] != b.features[k];
        SumSquaresPositive(a.features, b.features, keys, k);
      }
    }
  }
}
