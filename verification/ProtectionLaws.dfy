/** What a protected projection accepts, in plain numbers: the truncation, the residual gate, the active directions and
    the brake. */
module ProtectionLaws {
  import opened Prelude
  import opened Vectors
  import opened LeastSquares
  import opened Spectral
  import opened SafeSubspace
  import opened Protection
  import opened DirtySpectrum

  // ----- which eigenvalues are kept

  /** The greatest of one and the values. */
  ghost predicate IsScale(values: Vec, scale: real) {
    && scale >= 1.0 && (forall e | 0 <= e < |values| :: values[e] <= scale)
    && (scale == 1.0 || exists e :: 0 <= e < |values| && values[e] == scale)
  }

  lemma {:induction false} LargestIs(values: Vec, k: nat, scale: real)
    requires k <= |values| && scale >= 0.0 && (forall e | 0 <= e < |values| :: 0.0 <= values[e] <= scale)
    ensures Largest(values, k) <= scale
    ensures forall e | 0 <= e < k :: values[e] <= Largest(values, k)
  {
    if k > 0 {
      LargestIs(values, k - 1, scale);
    }
  }

  /** The tolerance is a 2^-26 part of the scale for every direction. */
  lemma ToleranceMeans(values: Vec, scale: real)
    requires values != [] && IsScale(values, scale) && forall e | 0 <= e < |values| :: values[e] >= 0.0
    ensures 67108864.0 * GramTolerance(values) == Mul(|values| as real, scale)
  {
    LargestIs(values, |values|, scale);
    assert Max(Largest(values, |values|), 1.0) == scale;
    Multiples(|values| as real, scale);
  }

  lemma Multiples(m: real, scale: real)
    ensures 67108864.0 * (ROOT * scale * m) == Mul(m, scale)
  {
  }

  lemma ValuesNonneg(eigen: Mat -> Spectrum, us: Mat, w: Vec)
    requires Diagonalises(eigen) && Frame(us, w)
    ensures forall e | 0 <= e < |us| :: GramSpectrum(eigen, us, w).values[e] >= 0.0
  {
    forall e | 0 <= e < |us|
      ensures GramSpectrum(eigen, us, w).values[e] >= 0.0
    {
      EigenEnergy(Gram(us, w), us, w, Zeros(|w|), GramSpectrum(eigen, us, w), e);
    }
  }

  /** An eigenvalue counts when it exceeds a 2^-26 part, for every direction, of the larger of one and the greatest. */
  lemma KeptMeans(eigen: Mat -> Spectrum, us: Mat, w: Vec, scale: real, e: nat)
    requires Diagonalises(eigen) && Frame(us, w) && e < |us| && IsScale(GramSpectrum(eigen, us, w).values, scale)
    ensures var values := GramSpectrum(eigen, us, w).values;
            values[e] > GramTolerance(values) <==> 67108864.0 * values[e] > Mul(|us| as real, scale)
  {
    ValuesNonneg(eigen, us, w);
    ToleranceMeans(GramSpectrum(eigen, us, w).values, scale);
  }

  /** The rank is the number of those eigenvalues. */
  ghost function Counting(values: Vec, bound: real, k: nat): (s: set<nat>)
    requires k <= |values|
  {
    set e: nat | e < k && 67108864.0 * values[e] > bound
  }

  lemma {:induction false} KeptCounts(values: Vec, tolerance: real, bound: real, k: nat)
    requires k <= |values| && 67108864.0 * tolerance == bound
    ensures Kept(values, tolerance, k) == |Counting(values, bound, k)|
  {
    if k == 0 {
      assert Counting(values, bound, 0) == {};
    } else {
      KeptCounts(values, tolerance, bound, k - 1);
      CountOneMore(values, bound, k - 1);
    }
  }

  lemma CountOneMore(values: Vec, bound: real, k: nat)
    requires k < |values|
    ensures |Counting(values, bound, k + 1)|
         == |Counting(values, bound, k)| + if 67108864.0 * values[k] > bound then 1 else 0
  {
    if 67108864.0 * values[k] > bound {
      assert Counting(values, bound, k + 1) == Counting(values, bound, k) + {k};
    } else {
      assert Counting(values, bound, k + 1) == Counting(values, bound, k);
    }
  }

  lemma RankMeans(eigen: Mat -> Spectrum, us: Mat, w: Vec, scale: real)
    requires Diagonalises(eigen) && Frame(us, w) && us != [] && IsScale(GramSpectrum(eigen, us, w).values, scale)
    ensures Rank(eigen, us, w)
         == |Counting(GramSpectrum(eigen, us, w).values, Mul(|us| as real, scale), |us|)|
  {
    var values := GramSpectrum(eigen, us, w).values;
    ValuesNonneg(eigen, us, w);
    ToleranceMeans(values, scale);
    KeptCounts(values, GramTolerance(values), Mul(|us| as real, scale), |us|);
  }

  // ----- directions that must be accepted

  /** Directions of unit energy that are orthogonal to each other in the metric. */
  ghost predicate Orthonormal(us: Mat, w: Vec) {
    && Frame(us, w)
    && (forall i, j | 0 <= i < |us| && 0 <= j < |us| :: Wdot(us[i], us[j], w) == Delta(i, j))
  }

  lemma IdentityRow(g: Mat, m: nat, v: Vec, i: nat)
    requires Rows(g, m, m) && |v| == m && i < m && forall j | 0 <= j < m :: g[i][j] == Delta(i, j)
    ensures MatVec(g, v)[i] == v[i]
  {
    assert g[i] == Unit(m, i);
    DotUnit(v, m, i, m);
  }

  /** The Gram matrix of orthonormal directions has no eigenvalue but one. */
  lemma UnitSpectrum(g: Mat, us: Mat, w: Vec, sp: Spectrum, e: nat)
    requires Orthonormal(us, w) && IsGram(g, us, w) && IsEigenbasis(g, |us|, sp) && e < |us|
    ensures sp.values[e] == 1.0
  {
    var m, v := |us|, sp.vectors[e];
    forall i | 0 <= i < m
      ensures MatVec(g, v)[i] == v[i]
    {
      IdentityRow(g, m, v, i);
    }
    assert MatVec(g, v) == v;
    assert Dot(v, v, m) == Delta(e, e);
    OwnEigenvalue(v, sp.values[e], m);
  }

  lemma OwnEigenvalue(v: Vec, lambda: real, m: nat)
    requires |v| == m && v == Scaled(lambda, v) && Dot(v, v, m) == 1.0
    ensures lambda == 1.0
  {
    DotScaled(lambda, v, v, m);
  }

  /** Fewer than 2^26 orthonormal directions are all kept, and nothing lies in the truncated range. */
  lemma OrthonormalKept(eigen: Mat -> Spectrum, us: Mat, w: Vec)
    requires Diagonalises(eigen) && Orthonormal(us, w) && 0 < |us| < 67108864
    ensures Observable(us, w) && CleanGram(eigen, us, w) && Rank(eigen, us, w) == |us|
  {
    var sp := GramSpectrum(eigen, us, w);
    forall e | 0 <= e < |us|
      ensures sp.values[e] == 1.0
    {
      UnitSpectrum(Gram(us, w), us, w, sp, e);
    }
    ToleranceMeans(sp.values, 1.0);
    AllKept(sp.values, GramTolerance(sp.values), |us|);
    forall i | 0 <= i < |us|
      ensures Wdot(us[i], us[i], w) != 0.0
    {
      assert Wdot(us[i], us[i], w) == Delta(i, i);
    }
  }

  lemma {:induction false} AllKept(values: Vec, tolerance: real, k: nat)
    requires k <= |values| && forall e | 0 <= e < |values| :: values[e] > tolerance
    ensures Kept(values, tolerance, k) == k
  {
    if k > 0 {
      AllKept(values, tolerance, k - 1);
    }
  }

  lemma {:induction false} WorstZero(sqrt: real -> real, us: Mat, w: Vec, x: Vec, reference: real, k: nat)
    requires IsSqrt(sqrt) && Frame(us, w) && |x| == |w| && reference >= 0.0 && k <= |us|
    requires Orthogonalised(us, w, x)
    ensures Worst(sqrt, us, w, x, reference, k) == 0.0
  {
    if k > 0 {
      WorstZero(sqrt, us, w, x, reference, k - 1);
      RelativeZero(sqrt, w, us[k-1], x, reference);
    }
  }

  lemma RelativeZero(sqrt: real -> real, w: Vec, u: Vec, x: Vec, reference: real)
    requires |u| == |x| == |w| && reference >= 0.0 && Wdot(u, x, w) == 0.0
    ensures Relative(sqrt, w, u, x, reference) == 0.0
  {
  }

  /** With a clean spectrum every proposal is accepted and left orthogonal to every direction. */
  lemma CleanAccepts(eigen: Mat -> Spectrum, sqrt: real -> real, us: Mat, w: Vec, delta: Vec, braked: Vec)
    requires Diagonalises(eigen) && IsSqrt(sqrt) && Frame(us, w) && |delta| == |braked| == |w|
    requires Observable(us, w) && CleanGram(eigen, us, w) && Rank(eigen, us, w) > 0
    ensures Accepts(eigen, sqrt, us, w, delta, braked) && Orthogonalised(us, w, Left(eigen, us, w, braked))
    ensures Remaining(eigen, sqrt, us, w, delta, braked) == 0.0
  {
    var sp := GramSpectrum(eigen, us, w);
    var tolerance := GramTolerance(sp.values);
    ExactIffClean(Gram(us, w), us, w, sp, Truncated(|us|, sp, tolerance), tolerance);
    WeightedNonneg(w, delta, |w|);
    WorstZero(sqrt, us, w, Left(eigen, us, w, braked), sqrt(Wdot(delta, delta, w)), |us|);
    TolerancePositive(sqrt, |us|);
  }

  /** Fewer than 2^26 active directions, orthonormal in the metric, never lead to a refusal: every valid input passes,
      all directions count, and nothing of any of them is left. */
  lemma OrthonormalPasses(eigen: Mat -> Spectrum, sqrt: real -> real, delta: Vec, cortex: Cortex)
    requires Diagonalises(eigen) && IsSqrt(sqrt) && ValidInput(delta, cortex)
    requires Orthonormal(Active(cortex.directions), cortex.importance) && 0 < |Active(cortex.directions)| < 67108864
    ensures Passes(eigen, sqrt, delta, cortex) && Rank(eigen, Active(cortex.directions), cortex.importance)
                                                  == |Active(cortex.directions)|
    ensures Orthogonalised(Active(cortex.directions), cortex.importance,
              Left(eigen, Active(cortex.directions), cortex.importance, Brake(delta, cortex.importance)))
  {
    var us, w := Active(cortex.directions), cortex.importance;
    OrthonormalKept(eigen, us, w);
    CleanAccepts(eigen, sqrt, us, w, delta, Brake(delta, w));
  }

  /** The spectrum of a single direction is its energy. */
  lemma SingleSpectrum(g: Mat, us: Mat, w: Vec, sp: Spectrum)
    requires Frame(us, w) && |us| == 1 && IsGram(g, us, w) && IsEigenbasis(g, 1, sp)
    ensures sp.values[0] == Wdot(us[0], us[0], w)
  {
    var v := sp.vectors[0];
    assert Dot(v, v, 1) == Delta(0, 0);
    assert v == [v[0]];
    assert MatVec(g, v)[0] == Scaled(sp.values[0], v)[0];
    SingleEntry(g[0], v);
    SingleValue(g[0][0], sp.values[0], v[0]);
  }

  lemma SingleEntry(row: Vec, v: Vec)
    requires |row| == |v| == 1
    ensures Dot(row, v, 1) == Mul(row[0], v[0]) && Dot(v, v, 1) == Mul(v[0], v[0])
  {
  }

  lemma SingleValue(energy: real, lambda: real, x: real)
    requires Mul(energy, x) == Mul(lambda, x) && Mul(x, x) == 1.0
    ensures lambda == energy
  {
    assert (energy - lambda) * x == 0.0;
    assert ((energy - lambda) * x) * x == energy - lambda;
  }

  /** A single active direction passes exactly when its energy exceeds a 2^-26 part of one, and is then removed. */
  lemma SingleDirection(eigen: Mat -> Spectrum, sqrt: real -> real, delta: Vec, cortex: Cortex, u: Vec)
    requires Diagonalises(eigen) && IsSqrt(sqrt) && ValidInput(delta, cortex)
    requires Active(cortex.directions) == [u] && |u| == |cortex.importance|
    ensures Passes(eigen, sqrt, delta, cortex) <==> 67108864.0 * Wdot(u, u, cortex.importance) > 1.0
    ensures Frame([u], cortex.importance)
    ensures Passes(eigen, sqrt, delta, cortex) ==> Rank(eigen, [u], cortex.importance) == 1
    ensures Passes(eigen, sqrt, delta, cortex) ==>
              Orthogonalised([u], cortex.importance,
                Left(eigen, [u], cortex.importance, Brake(delta, cortex.importance)))
  {
    InputFrame(delta, cortex);
    var us, w := [u], cortex.importance;
    SingleRank(eigen, us, w);
    if 67108864.0 * Wdot(u, u, w) > 1.0 {
      CleanAccepts(eigen, sqrt, us, w, delta, Brake(delta, w));
    }
  }

  lemma SingleRank(eigen: Mat -> Spectrum, us: Mat, w: Vec)
    requires Diagonalises(eigen) && Frame(us, w) && |us| == 1
    ensures Wdot(us[0], us[0], w) >= 0.0
    ensures Rank(eigen, us, w) == if 67108864.0 * Wdot(us[0], us[0], w) > 1.0 then 1 else 0
    ensures Rank(eigen, us, w) > 0 ==> Observable(us, w) && CleanGram(eigen, us, w)
  {
    var sp := GramSpectrum(eigen, us, w);
    var energy := Wdot(us[0], us[0], w);
    SingleSpectrum(Gram(us, w), us, w, sp);
    ValuesNonneg(eigen, us, w);
    ToleranceMeans(sp.values, Max(energy, 1.0));
    assert Kept(sp.values, GramTolerance(sp.values), 0) == 0;
  }

  // ----- the residual gate

  /** What direction `u` still sees of `x` is at most `bound` of the lengths of the proposal and of the direction. */
  predicate Sees(sqrt: real -> real, w: Vec, u: Vec, x: Vec, reference: real, bound: real)
    requires |u| == |x| == |w|
  {
    reference > 0.0 ==> Abs(Wdot(u, x, w)) <= Mul(bound, Mul(reference, sqrt(Wdot(u, u, w))))
  }

  lemma RelativeMeans(sqrt: real -> real, w: Vec, u: Vec, x: Vec, reference: real, bound: real)
    requires IsSqrt(sqrt) && |u| == |x| == |w| && reference >= 0.0 && bound >= 0.0 && Wdot(u, u, w) > 0.0
    ensures Relative(sqrt, w, u, x, reference) <= bound <==> Sees(sqrt, w, u, x, reference, bound)
  {
    RootPositive(sqrt, Wdot(u, u, w));
    if reference > 0.0 {
      Positive(reference, sqrt(Wdot(u, u, w)), Mul(reference, sqrt(Wdot(u, u, w))));
      QuotientMeans(Relative(sqrt, w, u, x, reference), Mul(reference, sqrt(Wdot(u, u, w))), Abs(Wdot(u, x, w)), bound);
    }
  }

  lemma QuotientMeans(r: real, d: real, num: real, bound: real)
    requires d > 0.0 && r * d == num
    ensures r <= bound <==> num <= Mul(bound, d)
  {
    assert (bound - r) * d == Mul(bound, d) - num;
    if r <= bound {
      Times(bound - r, d);
    } else {
      Positive(r - bound, d, (r - bound) * d);
    }
  }

  predicate AllSee(sqrt: real -> real, us: Mat, w: Vec, x: Vec, reference: real, bound: real, k: nat)
    requires Frame(us, w) && |x| == |w| && k <= |us|
  {
    forall i | 0 <= i < k :: Sees(sqrt, w, us[i], x, reference, bound)
  }

  lemma WorstNext(sqrt: real -> real, us: Mat, w: Vec, x: Vec, reference: real, bound: real, k: nat)
    requires Frame(us, w) && |x| == |w| && reference >= 0.0 && k < |us|
    ensures Worst(sqrt, us, w, x, reference, k + 1) <= bound
       <==> Worst(sqrt, us, w, x, reference, k) <= bound && Relative(sqrt, w, us[k], x, reference) <= bound
  {
  }

  lemma SeesNext(sqrt: real -> real, us: Mat, w: Vec, x: Vec, reference: real, bound: real, k: nat)
    requires Frame(us, w) && |x| == |w| && k < |us|
    ensures AllSee(sqrt, us, w, x, reference, bound, k + 1)
       <==> AllSee(sqrt, us, w, x, reference, bound, k) && Sees(sqrt, w, us[k], x, reference, bound)
  {
  }

  lemma {:induction false} WorstMeans(sqrt: real -> real, us: Mat, w: Vec, x: Vec, reference: real, bound: real, k: nat)
    requires IsSqrt(sqrt) && Frame(us, w) && |x| == |w| && reference >= 0.0 && bound >= 0.0 && k <= |us|
    requires Energetic(us, w)
    ensures Worst(sqrt, us, w, x, reference, k) <= bound <==> AllSee(sqrt, us, w, x, reference, bound, k)
  {
    if k > 0 {
      WorstMeans(sqrt, us, w, x, reference, bound, k - 1);
      RelativeMeans(sqrt, w, us[k-1], x, reference, bound);
      NextMeans(sqrt, us, w, x, reference, bound, k - 1);
    }
  }

  lemma NextMeans(sqrt: real -> real, us: Mat, w: Vec, x: Vec, reference: real, bound: real, k: nat)
    requires Frame(us, w) && |x| == |w| && reference >= 0.0 && k < |us|
    requires Relative(sqrt, w, us[k], x, reference) <= bound <==> Sees(sqrt, w, us[k], x, reference, bound)
    requires Worst(sqrt, us, w, x, reference, k) <= bound <==> AllSee(sqrt, us, w, x, reference, bound, k)
    ensures Worst(sqrt, us, w, x, reference, k + 1) <= bound <==> AllSee(sqrt, us, w, x, reference, bound, k + 1)
  {
    WorstNext(sqrt, us, w, x, reference, bound, k);
    SeesNext(sqrt, us, w, x, reference, bound, k);
  }

  /** Every direction has positive energy. */
  predicate Energetic(us: Mat, w: Vec)
    requires Frame(us, w)
  {
    forall i | 0 <= i < |us| :: Wdot(us[i], us[i], w) > 0.0
  }

  lemma ObservableMeans(us: Mat, w: Vec)
    requires Frame(us, w)
    ensures Observable(us, w) <==> Energetic(us, w)
  {
    forall i | 0 <= i < |us|
      ensures Wdot(us[i], us[i], w) >= 0.0
    {
      WeightedNonneg(w, us[i], |w|);
    }
  }

  lemma GateIs(sqrt: real -> real, m: nat)
    requires IsSqrt(sqrt) && m > 0
    ensures 67108864.0 * ResidualTolerance(sqrt, m) == 16.0 * sqrt(m as real)
    ensures ResidualTolerance(sqrt, m) >= 0.0
  {
    TolerancePositive(sqrt, m);
  }

  /** Sixteen times the root of the number of directions, in 2^-26 parts: more than that no direction may still see. */
  lemma AcceptsMeans(eigen: Mat -> Spectrum, sqrt: real -> real, us: Mat, w: Vec, delta: Vec, braked: Vec, gate: real)
    requires Diagonalises(eigen) && IsSqrt(sqrt) && Frame(us, w) && |delta| == |braked| == |w| && us != []
    requires 67108864.0 * gate == 16.0 * sqrt(|us| as real)
    ensures Wdot(delta, delta, w) >= 0.0
    ensures Accepts(eigen, sqrt, us, w, delta, braked) <==>
            && Energetic(us, w)
            && Rank(eigen, us, w) > 0
            && AllSee(sqrt, us, w, Left(eigen, us, w, braked), sqrt(Wdot(delta, delta, w)), gate, |us|)
  {
    WeightedNonneg(w, delta, |w|);
    GateIs(sqrt, |us|);
    ObservableMeans(us, w);
    if Observable(us, w) {
      WorstMeans(sqrt, us, w, Left(eigen, us, w, braked), sqrt(Wdot(delta, delta, w)), gate, |us|);
    }
  }

  // ----- the directions that count, and the brake

  /** Exactly the directions with positive importance are protected. */
  lemma {:induction false} ActiveMeans(ds: seq<Direction>, u: Vec)
    ensures u in Active(ds) <==> exists i :: 0 <= i < |ds| && ds[i].importance > 0.0 && ds[i].direction == u
  {
    if ds != [] {
      ActiveMeans(ds[1..], u);
      assert ds == [ds[0]] + ds[1..];
      if i :| 0 <= i < |ds| && ds[i].importance > 0.0 && ds[i].direction == u {
        if i > 0 {
          assert ds[1..][i-1] == ds[i];
        }
      }
    }
  }

  /** They are protected in their order, and one without importance may as well be absent. */
  lemma {:induction false} ActiveSplits(ds: seq<Direction>, es: seq<Direction>)
    ensures Active(ds + es) == Active(ds) + Active(es)
  {
    if ds == [] {
      assert ds + es == es;
    } else {
      ActiveSplits(ds[1..], es);
      ConsSplits(ds[0], ds[1..], es);
      assert ds == [ds[0]] + ds[1..];
      assert ds + es == [ds[0]] + (ds[1..] + es);
    }
  }

  function Counted(d: Direction): Mat {
    if d.importance > 0.0 then [d.direction] else []
  }

  lemma ActiveCons(d: Direction, rest: seq<Direction>)
    ensures Active([d] + rest) == Counted(d) + Active(rest)
  {
    assert ([d] + rest)[1..] == rest;
  }

  lemma ConsSplits(d: Direction, rest: seq<Direction>, es: seq<Direction>)
    requires Active(rest + es) == Active(rest) + Active(es)
    ensures Active([d] + (rest + es)) == Active([d] + rest) + Active(es)
  {
    ActiveCons(d, rest);
    ActiveCons(d, rest + es);
    AppendAssociates(Counted(d), Active(rest), Active(es));
  }

  lemma AppendAssociates(a: Mat, b: Mat, c: Mat)
    ensures (a + b) + c == a + (b + c)
  {
  }

  /** The brake gives back the step when multiplied by one plus the importance: it never turns or lengthens a
      coordinate, and leaves as it is only what has no importance. */
  lemma BrakeMeans(delta: Vec, w: Vec, k: nat)
    requires |w| == |delta| && k < |w| && forall j | 0 <= j < |w| :: w[j] >= 0.0
    ensures Mul(Brake(delta, w)[k], 1.0 + w[k]) == delta[k]
    ensures Abs(Brake(delta, w)[k]) <= Abs(delta[k])
    ensures Brake(delta, w)[k] == delta[k] <==> w[k] == 0.0 || delta[k] == 0.0
  {
    DivideTimes(delta[k], 1.0 + w[k]);
    Braked(Brake(delta, w)[k], w[k], delta[k]);
  }

  lemma Braked(b: real, w: real, d: real)
    requires b * (1.0 + w) == d && w >= 0.0
    ensures Abs(b) <= Abs(d)
    ensures b == d <==> w == 0.0 || d == 0.0
  {
    assert d - b == b * w;
    if b > 0.0 {
      Times(b, w);
    } else if b < 0.0 {
      Times(-b, w);
    }
    if b != 0.0 && w != 0.0 {
      Positive(Abs(b), w, Abs(b) * w);
    }
  }

  /** The damage reported is the length removed over the length proposed. */
  lemma DamageMeans(sqrt: real -> real, removed: real, whole: real)
    requires IsSqrt(sqrt) && removed >= 0.0 && whole > 0.0
    ensures Damage(sqrt, removed, whole) >= 0.0
    ensures Mul(Mul(Damage(sqrt, removed, whole), Damage(sqrt, removed, whole)), whole) == removed
  {
    var r, s, d := sqrt(removed), sqrt(whole), Damage(sqrt, removed, whole);
    RootPositive(sqrt, whole);
    DivideTimes(r, s);
    QuotientNonneg(r, s);
    SquaredQuotient(d, s, r, removed, whole);
  }

  lemma SquaredQuotient(d: real, s: real, r: real, removed: real, whole: real)
    requires d * s == r && r * r == removed && s * s == whole
    ensures Mul(Mul(d, d), whole) == removed
  {
    assert (d * s) * (d * s) == (d * d) * (s * s);
  }
}
