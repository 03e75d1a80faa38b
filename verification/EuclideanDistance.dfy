/** The Euclidean distance of two points, and why a matrix of such distances is a metric. */
module EuclideanDistance {
  import opened Prelude
  import opened Vectors

  type Point = seq<real>

  function SquaredDistance(a: Point, b: Point): (d: real)
    ensures d >= 0.0
  {
    if a == [] || b == [] then 0.0
    else SquaredDistance(a[1..], b[1..]) + SquaredGap(a[0], b[0])
  }

  function SquaredGap(x: real, y: real): (d: real)
    ensures d >= 0.0
  {
    Square(x - y, Mul(x - y, x - y));
    Mul(x - y, x - y)
  }

  /** Every coordinate counts, and counts once. */
  lemma {:induction false} DistanceAdds(a: Point, b: Point, c: Point, d: Point)
    requires |a| == |c|
    ensures SquaredDistance(a + b, c + d) == SquaredDistance(a, c) + SquaredDistance(b, d)
  {
    if a == [] {
      assert a + b == b && c + d == d;
    } else {
      DistanceAdds(a[1..], b, c[1..], d);
      assert (a + b)[1..] == a[1..] + b && (c + d)[1..] == c[1..] + d;
    }
  }

  lemma {:induction false} DistanceSymmetric(a: Point, b: Point)
    ensures SquaredDistance(a, b) == SquaredDistance(b, a)
  {
    if a != [] && b != [] {
      DistanceSymmetric(a[1..], b[1..]);
      GapSymmetric(a[0], b[0]);
    }
  }

  lemma GapSymmetric(x: real, y: real)
    ensures SquaredGap(x, y) == SquaredGap(y, x)
  {
  }

  /** It is the squared length of the difference. */
  lemma {:induction false} DistanceIsLength(a: Point, b: Point)
    requires |a| == |b|
    ensures SquaredDistance(a, b) == Dot(Sub(a, b), Sub(a, b), |a|)
  {
    if a != [] {
      DistanceIsLength(a[1..], b[1..]);
      FirstCoordinate(Sub(a, b), [a[0] - b[0]], a[0], b[0], Sub(a[1..], b[1..]));
    }
  }

  lemma FirstCoordinate(d: Vec, one: Vec, x: real, y: real, rest: Vec)
    requires |one| == 1 && one[0] == x - y && d == one + rest
    ensures Dot(d, d, |d|) == SquaredGap(x, y) + Dot(rest, rest, |rest|)
  {
    DotConcat(one, rest, one, rest, |rest|);
    OneSquare(one, one[0]);
    GapSquared(one[0], x, y);
  }

  lemma OneSquare(one: Vec, z: real)
    requires one == [z]
    ensures Dot(one, one, 1) == Mul(z, z)
  {
  }

  lemma GapSquared(z: real, x: real, y: real)
    requires z == x - y
    ensures Mul(z, z) == SquaredGap(x, y)
  {
  }

  /** Points at no distance are the same point. */
  lemma NoDistance(a: Point, b: Point)
    requires |a| == |b|
    ensures SquaredDistance(a, b) == 0.0 <==> a == b
  {
    var v := Sub(a, b);
    DistanceIsLength(a, b);
    if a == b {
      DotZero(v, v, |v|);
    } else {
      var i :| 0 <= i < |a| && a[i] != b[i];
      DotPositive(v, |v|, i);
    }
  }

  // ----- the triangle inequality

  /** The inner product never exceeds the product of the lengths. */
  lemma InnerBelow(x: Vec, y: Vec, p: real, q: real, r: real)
    requires |x| == |y| && p == Dot(x, x, |x|) && q == Dot(x, y, |x|) && r == Dot(y, y, |x|)
    ensures Bounded(p, q, r)
  {
    DotComm(x, y, |x|);
    DotSelf(y, |x|);
    forall t
      ensures Along(p, q, r, t) >= 0.0
    {
      SplitQuad(x, y, x, y, t, q, |x|);
      DotSelf(AddScaled(x, t, y), |x|);
    }
    Discriminant(p, q, r);
  }

  lemma RootsMultiply(p: real, q: real, r: real, sp: real, sr: real)
    requires Bounded(p, q, r) && sp >= 0.0 && sr >= 0.0 && sp * sp == p && sr * sr == r
    ensures q <= Mul(sp, sr)
  {
    var m := Mul(sp, sr);
    Times(sp, sr);
    assert m * m == p * r;
    if q > m {
      SquaresIncrease(m, q);
    }
  }

  lemma SquaresIncrease(x: real, y: real)
    requires 0.0 <= x < y
    ensures x * x < y * y
  {
    Positive(y - x, y, (y - x) * y);
    Times(y - x, x);
  }

  lemma RootsAdd(p: real, q: real, r: real, sp: real, sr: real, s: real)
    requires Bounded(p, q, r) && sp >= 0.0 && sr >= 0.0 && sp * sp == p && sr * sr == r
    requires s >= 0.0 && s * s == p + 2.0 * q + r
    ensures s <= sp + sr
  {
    RootsMultiply(p, q, r, sp, sr);
    assert (sp + sr) * (sp + sr) == p + 2.0 * Mul(sp, sr) + r;
    if s > sp + sr {
      SquaresIncrease(sp + sr, s);
    }
  }

  /** The squared length of a sum. */
  lemma LengthOfSum(x: Vec, y: Vec, z: Vec)
    requires |x| == |y| && z == Add(x, y)
    ensures Dot(z, z, |x|) == Dot(x, x, |x|) + 2.0 * Dot(x, y, |x|) + Dot(y, y, |x|)
  {
    DotAdd(x, y, z, |x|);
    DotAdd(x, y, x, |x|);
    DotAdd(x, y, y, |x|);
    DotComm(x, y, |x|);
  }

  lemma LengthsAdd(x: Vec, y: Vec, z: Vec, sx: real, sy: real, sz: real)
    requires |x| == |y| && z == Add(x, y) && sx >= 0.0 && sy >= 0.0 && sz >= 0.0
    requires sx * sx == Dot(x, x, |x|) && sy * sy == Dot(y, y, |x|) && sz * sz == Dot(z, z, |x|)
    ensures sz <= sx + sy
  {
    LengthOfSum(x, y, z);
    InnerBelow(x, y, Dot(x, x, |x|), Dot(x, y, |x|), Dot(y, y, |x|));
    RootsAdd(Dot(x, x, |x|), Dot(x, y, |x|), Dot(y, y, |x|), sx, sy, sz);
  }

  lemma RootIsLength(sqrt: real -> real, a: Point, b: Point, s: real)
    requires IsSqrt(sqrt) && |a| == |b| && s == sqrt(SquaredDistance(a, b))
    ensures s >= 0.0 && s * s == Dot(Sub(a, b), Sub(a, b), |a|)
  {
    DistanceIsLength(a, b);
    RootSquared(sqrt, SquaredDistance(a, b), s);
  }

  lemma RootSquared(sqrt: real -> real, q: real, s: real)
    requires IsSqrt(sqrt) && q >= 0.0 && s == sqrt(q)
    ensures s >= 0.0 && s * s == q
  {
  }

  lemma DifferencesAdd(a: Point, b: Point, c: Point)
    requires |a| == |b| == |c|
    ensures Sub(a, c) == Add(Sub(a, b), Sub(b, c))
  {
  }

  /** The way over a third point is never shorter. */
  lemma TriangleInequality(sqrt: real -> real, a: Point, b: Point, c: Point)
    requires IsSqrt(sqrt) && |a| == |b| == |c|
    ensures sqrt(SquaredDistance(a, c)) <= sqrt(SquaredDistance(a, b)) + sqrt(SquaredDistance(b, c))
  {
    var sx, sy, sz := sqrt(SquaredDistance(a, b)), sqrt(SquaredDistance(b, c)), sqrt(SquaredDistance(a, c));
    RootIsLength(sqrt, a, b, sx);
    RootIsLength(sqrt, b, c, sy);
    RootIsLength(sqrt, a, c, sz);
    DifferencesAdd(a, b, c);
    LengthsAdd(Sub(a, b), Sub(b, c), Sub(a, c), sx, sy, sz);
  }
}
