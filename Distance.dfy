/**
 * `distance(pointA, pointB)` (score.js): the Euclidean distance of two points of the same
 * dimension. Reals have no square root here, so the model keeps the sum of squared
 * coordinate differences; `RootPreservesOrder` shows that any non-negative square root
 * orders distances exactly as their squares do, and ordering is all the classifier uses.
 */
module Distance {

  /** `v ** 2` */
  function Sq(v: real): real
  {
    v * v
  }

  /** `_.zip(pointA, pointB)`, each pair mapped to its squared difference, then `_.sum`. */
  function SqDist(a: seq<real>, b: seq<real>): (d: real)
    requires |a| == |b|
    ensures d >= 0.0
  {
    if |a| == 0 then 0.0
    else
      SquareNonNegative(a[0] - b[0]);
      Sq(a[0] - b[0]) + SqDist(a[1..], b[1..])
  }

  lemma {:induction false} SqDistSymmetric(a: seq<real>, b: seq<real>)
    requires |a| == |b|
    ensures SqDist(a, b) == SqDist(b, a)
  {
    if |a| > 0 {
      SqDistSymmetric(a[1..], b[1..]);
      SquareOfNegation(a[0] - b[0]);
      assert b[0] - a[0] == -(a[0] - b[0]);
    }
  }

  /** The distance is zero exactly when the two points coincide. */
  lemma {:induction false} SqDistZeroIffEqual(a: seq<real>, b: seq<real>)
    requires |a| == |b|
    ensures SqDist(a, b) == 0.0 <==> a == b
  {
    if |a| > 0 {
      SqDistZeroIffEqual(a[1..], b[1..]);
      assert a == [a[0]] + a[1..] && b == [b[0]] + b[1..];
      if a[0] != b[0] {
        SquarePositive(a[0] - b[0]);
      }
    }
  }

  /** `r` is `x ** 0.5`: the non-negative square root of `x`. */
  ghost predicate IsRoot(x: real, r: real)
  {
    0.0 <= r && Sq(r) == x
  }

  /** Comparing two distances or comparing their squares gives the same answer. */
  lemma RootPreservesOrder(x: real, y: real, rx: real, ry: real)
    requires IsRoot(x, rx) && IsRoot(y, ry)
    ensures x <= y <==> rx <= ry
  {
    if rx <= ry {
      SquareMonotone(rx, ry);
    } else {
      SquareStrictlyMonotone(ry, rx);
    }
  }

  lemma SquareNonNegative(v: real)
    ensures Sq(v) >= 0.0
  {
  }

  lemma SquareOfNegation(v: real)
    ensures Sq(-v) == Sq(v)
  {
  }

  lemma SquarePositive(v: real)
    requires v != 0.0
    ensures Sq(v) > 0.0
  {
    if v < 0.0 {
      SquareStrictlyMonotone(0.0, -v);
      SquareOfNegation(v);
    } else {
      SquareStrictlyMonotone(0.0, v);
    }
  }

  lemma SquareMonotone(a: real, b: real)
    requires 0.0 <= a <= b
    ensures Sq(a) <= Sq(b)
  {
  }

  lemma SquareStrictlyMonotone(a: real, b: real)
    requires 0.0 <= a < b
    ensures Sq(a) < Sq(b)
  {
    var p, q := b - a, b + a;
    ProductPositive(p, q);
    DifferenceOfSquares(a, b, p, q);
  }

  lemma ProductPositive(p: real, q: real)
    requires 0.0 < p && 0.0 < q
    ensures 0.0 < p * q
  {
  }

  lemma DifferenceOfSquares(a: real, b: real, p: real, q: real)
    requires p == b - a && q == b + a && p * q > 0.0
    ensures Sq(a) < Sq(b)
  {
  }
}
