/** Result and option types shared by the models. */
module Prelude {

  datatype Option<+T> = None | Some(value: T)

  /** The source's `BrainResult`: a value, or the code of the error that was raised. */
  datatype Result<+T> = Ok(value: T) | Err(code: string)

  /** 2^-52, the spacing of f64 at one. */
  const EPSILON: real := 1.0 / 4503599627370496.0

  /** 2^-26, its square root. */
  const ROOT: real := 1.0 / 67108864.0

  function Abs(x: real): (r: real)
    ensures r >= 0.0 && (r == x || r == -x)
  {
    if x < 0.0 then -x else x
  }

  function Max(x: real, y: real): (r: real)
    ensures r >= x && r >= y && (r == x || r == y)
  {
    if x < y then y else x
  }

  function Min(x: real, y: real): (r: real)
    ensures r <= x && r <= y && (r == x || r == y)
  {
    if y < x then y else x
  }

  function Clamp(x: real, lo: real, hi: real): (r: real)
    requires lo <= hi
    ensures lo <= r <= hi && (lo <= x <= hi ==> r == x)
  {
    if x < lo then lo else if hi < x then hi else x
  }

  /** A square root on the nonnegative reals. */
  ghost predicate IsSqrt(sqrt: real -> real) {
    forall x :: x >= 0.0 ==> sqrt(x) >= 0.0 && sqrt(x) * sqrt(x) == x
  }

  /** The set {lo, ..., hi - 1}. */
  function Interval(lo: nat, hi: nat): (s: set<nat>)
    ensures forall k: nat :: k in s <==> lo <= k < hi
    ensures |s| == if lo <= hi then hi - lo else 0
  {
    if lo < hi then Interval(lo, hi - 1) + {hi - 1} else {}
  }

  lemma {:induction false} SubsetSize<T>(s: set<T>, t: set<T>)
    requires s <= t
    ensures |s| <= |t|
    ensures |s| == |t| ==> s == t
  {
    assert t == s + (t - s);
    if |s| == |t| {
      assert |t - s| == 0;
    }
  }

  /** A larger set has a member outside a smaller one. */
  lemma PickOutside<T>(s: set<T>, t: set<T>) returns (c: T)
    requires |s| < |t|
    ensures c in t && c !in s
  {
    if t <= s {
      SubsetSize(t, s);
    }
    c :| c in t && c !in s;
  }
}
