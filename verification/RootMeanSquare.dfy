/** `stable_rms`: the root mean square by a recurrence on scaled squares. */
module RootMeanSquare {
  import opened Prelude
  import opened Vectors

  /** The scaled accumulator stands for the sum of squares. */
  predicate Stands(scale: real, squares: real, total: real) {
    scale >= 0.0 && squares >= 1.0 && (if scale == 0.0 then total == 0.0 else scale * scale * squares == total)
  }

  lemma Rescale(scale: real, squares: real, total: real, v: real, ratio: real)
    requires Stands(scale, squares, total) && scale < v && v > 0.0
    requires ratio == if scale == 0.0 then 0.0 else scale / v
    ensures Stands(v, 1.0 + squares * ratio * ratio, total + v * v)
  {
    Square(ratio, ratio * ratio);
    Times(squares, ratio * ratio);
    assert squares * ratio * ratio == squares * (ratio * ratio);
    if scale == 0.0 {
      assert squares * ratio * ratio == 0.0;
    } else {
      assert ratio * v == scale;
      assert v * v * (squares * ratio * ratio) == (ratio * v) * (ratio * v) * squares;
      assert v * v * (1.0 + squares * ratio * ratio) == v * v + v * v * (squares * ratio * ratio);
    }
  }

  lemma AddRatio(scale: real, squares: real, total: real, v: real, ratio: real)
    requires Stands(scale, squares, total) && scale > 0.0 && ratio == v / scale
    ensures Stands(scale, squares + ratio * ratio, total + v * v)
  {
    Square(ratio, ratio * ratio);
    assert ratio * scale == v;
    assert scale * scale * (ratio * ratio) == (ratio * scale) * (ratio * scale);
    assert scale * scale * (squares + ratio * ratio) == scale * scale * squares + scale * scale * (ratio * ratio);
  }

  lemma NextTotal(values: Vec, k: nat)
    requires k < |values|
    ensures Dot(values, values, k + 1) == Dot(values, values, k) + Abs(values[k]) * Abs(values[k])
  {
  }

  /** One value through the recurrence. */
  method Absorb(scale: real, squares: real, absolute: real, ghost total: real) returns (scale': real, squares': real)
    requires Stands(scale, squares, total) && absolute >= 0.0
    ensures Stands(scale', squares', total + absolute * absolute)
  {
    scale', squares' := scale, squares;
    if absolute == 0.0 {
      return;
    }
    if scale < absolute {
      var ratio := if scale == 0.0 then 0.0 else scale / absolute;
      Rescale(scale, squares, total, absolute, ratio);
      squares' := 1.0 + squares * ratio * ratio;
      scale' := absolute;
    } else {
      var ratio := absolute / scale;
      AddRatio(scale, squares, total, absolute, ratio);
      squares' := squares + ratio * ratio;
    }
  }

  /** The overflow-resistant recurrence computes the root mean square. */
  method StableRms(sqrt: real -> real, values: Vec) returns (r: Result<real>)
    requires IsSqrt(sqrt)
    ensures r.Ok? <==> values != []
    ensures r.Ok? ==> IsRms(r.value, |values|, Dot(values, values, |values|))
  {
    var scale, squares := 0.0, 1.0;
    for k := 0 to |values|
      invariant Stands(scale, squares, Dot(values, values, k))
    {
      NextTotal(values, k);
      scale, squares := Absorb(scale, squares, Abs(values[k]), Dot(values, values, k));
    }
    if values == [] {
      return Err("stable_rms_empty");
    }
    Finish(sqrt, scale, squares, |values|, Dot(values, values, |values|));
    r := Ok(if scale == 0.0 then 0.0 else scale * sqrt(squares / |values| as real));
  }

  /** `r` is the root mean square of `n` values whose squares add up to `total`. */
  predicate IsRms(r: real, n: nat, total: real) {
    r >= 0.0 && r * r * n as real == total
  }

  lemma Finish(sqrt: real -> real, scale: real, squares: real, n: nat, total: real)
    requires IsSqrt(sqrt) && n > 0 && Stands(scale, squares, total)
    ensures IsRms(if scale == 0.0 then 0.0 else scale * sqrt(squares / n as real), n, total)
  {
    if scale > 0.0 {
      FinishRoot(sqrt, scale, squares, n as real, total);
    }
  }

  lemma FinishRoot(sqrt: real -> real, scale: real, squares: real, count: real, total: real)
    requires IsSqrt(sqrt) && scale > 0.0 && squares >= 1.0 && count > 0.0 && scale * scale * squares == total
    ensures scale * sqrt(squares / count) >= 0.0
    ensures (scale * sqrt(squares / count)) * (scale * sqrt(squares / count)) * count == total
  {
    var q := squares / count;
    assert q * count == squares;
    PositiveQuotient(q, count, squares);
    var s := sqrt(q);
    Times(scale, s);
    FinishSquare(scale, s, q, count, squares, total);
  }

  lemma PositiveQuotient(q: real, count: real, squares: real)
    requires q * count == squares && count > 0.0 && squares > 0.0
    ensures q >= 0.0
  {
    if q < 0.0 {
      Positive(-q, count, -q * count);
    }
  }

  lemma FinishSquare(scale: real, s: real, q: real, count: real, squares: real, total: real)
    requires s * s == q && q * count == squares && scale * scale * squares == total
    ensures (scale * s) * (scale * s) * count == total
  {
    calc {
      (scale * s) * (scale * s) * count;
      (scale * scale) * ((s * s) * count);
      (scale * scale) * squares;
      total;
    }
  }
}
