/** Worked inputs, at the edges of what is accepted, with the answers the code gives. */
module Examples {
  import opened Prelude
  import opened Vectors
  import Topology
  import SkillBank
  import Protection
  import ProtectionLaws
  import SafeSubspace
  import Spectral
  import ActiveStep
  import ActivePlan
  import ActiveLaws
  import ActiveAccount
  import CausalContraction
  import CausalLaws
  import MeasurementGraph
  import Inversion
  import DriftLaws
  import LinearTrend
  import RootMeanSquare
  import PairedStatistics
  import Binomial
  import Transport
  import Trajectory

  // ----- a protected projection

  const STEP: Vec := [1.0, 1.0]

  /** The first coordinate is protected; a direction without importance and a coordinate without importance are not. */
  const CORTEX: Protection.Cortex :=
    Protection.Cortex([Protection.Direction([1.0, 0.0], 1.0), Protection.Direction([0.0, 1.0], 0.0)], [1.0, 0.0], 0.0)

  lemma StepIsValid()
    ensures Protection.ValidInput(STEP, CORTEX)
    ensures Protection.Active(CORTEX.directions) == [[1.0, 0.0]]
    ensures Protection.Brake(STEP, CORTEX.importance) == [0.5, 1.0]
  {
    FirstActive(CORTEX.directions[0], CORTEX.directions[1]);
    assert CORTEX.directions == [CORTEX.directions[0]] + ([CORTEX.directions[1]] + []);
    Halved(Protection.Brake(STEP, CORTEX.importance));
  }

  lemma FirstActive(d: Protection.Direction, e: Protection.Direction)
    requires d.importance > 0.0 && e.importance == 0.0
    ensures Protection.Active([d] + ([e] + [])) == [d.direction]
  {
    ProtectionLaws.ActiveCons(e, []);
    ProtectionLaws.ActiveCons(d, [e] + []);
  }

  lemma Halved(b: Vec)
    requires |b| == 2 && b[0] == 1.0 / 2.0 && b[1] == 1.0 / 1.0
    ensures b == [0.5, 1.0]
  {
  }

  lemma FirstEnergy(x: Vec)
    requires |x| == 2
    ensures SafeSubspace.Wdot([1.0, 0.0], x, [1.0, 0.0]) == x[0]
  {
    var z := Weighted([1.0, 0.0], x);
    assert Dot([1.0, 0.0], z, 0) == 0.0;
    assert Dot([1.0, 0.0], z, 1) == x[0];
  }

  /** The protected coordinate goes to zero, the other one stays. */
  lemma StepProjected(eigen: Mat -> Spectral.Spectrum, sqrt: real -> real)
    requires Protection.Diagonalises(eigen) && IsSqrt(sqrt)
    ensures Protection.Passes(eigen, sqrt, STEP, CORTEX)
    ensures SafeSubspace.Frame([[1.0, 0.0]], [1.0, 0.0])
    ensures Protection.Left(eigen, [[1.0, 0.0]], [1.0, 0.0], [0.5, 1.0]) == [0.0, 1.0]
  {
    var u, w := [1.0, 0.0], CORTEX.importance;
    StepIsValid();
    FirstEnergy(u);
    ProtectionLaws.SingleDirection(eigen, sqrt, STEP, CORTEX, u);
    var x := Protection.Left(eigen, [u], w, Protection.Brake(STEP, w));
    FirstEnergy(x);
    assert SafeSubspace.Wdot([u][0], x, w) == 0.0;
    Protection.UntouchedCoordinate([u], w, STEP, x, 1);
  }

  // ----- a plan

  const CHEAP: ActiveStep.Candidate := ActiveStep.Candidate("a", [1.0], 1.0, 0.0, 0.0)
  const DEAR: ActiveStep.Candidate := ActiveStep.Candidate("b", [1.0], 1.0, 2.0, 1.0)

  const ONE_STEP: ActivePlan.Request :=
    ActivePlan.Request([DEAR, CHEAP], [[1.0]], ActiveStep.Weights(1.0, 0.0), 1, false)

  lemma UnitIsPsd()
    ensures IsPsd([[1.0]], 1)
  {
    forall x: Vec | |x| == 1
      ensures Quad([[1.0]], 1, x) >= 0.0
    {
      assert MatVec([[1.0]], x) == x by {
        assert Dot([1.0], x, 0) == 0.0;
      }
      DotSelf(x, 1);
    }
  }

  lemma UnitEnergy()
    ensures Dot([1.0], [1.0], 1) == 1.0
  {
    assert Dot([1.0], [1.0], 0) == 0.0;
  }

  /** Both apertures may be planned, and one step takes the cheap one. */
  lemma CheapPlanned(ln: real -> real, chosen: seq<ActiveStep.Candidate>, rest: seq<ActiveStep.Candidate>,
                     p: ActivePlan.Plan)
    requires ActiveStep.Increasing(ln) && ActivePlan.IsPlan(ln, ONE_STEP, chosen, rest, p)
    ensures ActiveLaws.ProperRequest(ONE_STEP) && chosen == [CHEAP]
  {
    UnitIsPsd();
    UnitEnergy();
    assert |multiset(chosen)| + |multiset(rest)| == |multiset(ONE_STEP.pool)|;
    assert |chosen| == 1;
    assert chosen[0] in multiset(chosen) && chosen[0] in multiset(ONE_STEP.pool);
    if chosen[0] == DEAR {
      ActiveAccount.DearerWaits(ln, ONE_STEP, chosen, rest, p, 0, CHEAP);
    }
  }

  // ----- a contraction

  /** Of two equal magnitudes the one with half the utility for each unit of relief goes. */
  lemma SecondSacrificed(i: nat)
    requires CausalLaws.Chosen([[1.0, 0.0], [0.0, 4.0]], [1.0, 2.0], [1.0, 1.0], i)
    ensures i == 1
  {
    var t, m, ps := [[1.0, 0.0], [0.0, 4.0]], [1.0, 1.0], [1.0, 2.0];
    SlopesAre(t, m);
    CausalLaws.EligibleMeans(m, [1.0, 4.0], 1);
    SizesAre();
    assert CausalContraction.Eligible(m, MatVec(t, m), 1);
    assert !CausalLaws.Preferred([1.0, 4.0], ps, CausalContraction.CandidateTolerance(m, [1.0, 4.0]), 0, 1);
  }

  lemma SlopesAre(t: Mat, m: Vec)
    requires t == [[1.0, 0.0], [0.0, 4.0]] && m == [1.0, 1.0]
    ensures MatVec(t, m) == [1.0, 4.0]
  {
    assert Dot(t[0], m, 0) == 0.0 && Dot(t[0], m, 1) == 1.0;
    assert Dot(t[1], m, 0) == 0.0 && Dot(t[1], m, 1) == 0.0;
  }

  lemma SizesAre()
    ensures CausalLaws.Size([1.0, 1.0]) == 2.0 && CausalLaws.Size([1.0, 4.0]) == 5.0
  {
    var a, b := CausalContraction.Magnitudes([1.0, 1.0]), CausalContraction.Magnitudes([1.0, 4.0]);
    assert Dot(a, Ones(2), 0) == 0.0 && Dot(a, Ones(2), 1) == 1.0;
    assert Dot(b, Ones(2), 0) == 0.0 && Dot(b, Ones(2), 1) == 1.0;
  }

  // ----- a steady drift

  const DRIFT: seq<Inversion.Pair> := [Inversion.Pair(0, 1, 2.0), Inversion.Pair(1, 2, 2.0)]

  /** Two steps of two, not regularised, are accepted and recovered: a line of slope two, nothing left around it. */
  lemma SteadyDrift(ceiling: real, t: Inversion.TimeSeries)
    requires MeasurementGraph.WellFormed(3, Inversion.Measurements(DRIFT))
    requires Inversion.IsSeries(3, Inversion.Measurements(DRIFT), 0.0, ceiling, t)
    ensures Inversion.Accepted(3, DRIFT, 0.0)
    ensures t.cumulative == [0.0, 2.0, 4.0] && t.velocity == 2.0 && t.residualRms == 0.0
  {
    var u := [0.0, 2.0, 4.0];
    DriftLaws.RecoversDrift(3, DRIFT, u, t.cumulative);
    var c :| LinearTrend.IsTrend(u, LinearTrend.Trend(t.velocity, c, t.residualRms));
    var trend := LinearTrend.Trend(t.velocity, c, t.residualRms);
    LineIs();
    LinearTrend.NothingLeft(u, trend);
    LineFits(u);
    if t.velocity != 2.0 {
      DotSelf(Sub(u, LinearTrend.LineOf(3, t.velocity, c)), 3);
    }
  }

  lemma LineIs()
    ensures LinearTrend.LineOf(3, 2.0, 0.0) == [0.0, 2.0, 4.0]
  {
  }

  lemma LineFits(u: Vec)
    requires u == LinearTrend.LineOf(3, 2.0, 0.0) && |u| == 3
    ensures LinearTrend.Misfit(u, 2.0, 0.0) == 0.0
  {
    var r := Sub(u, LinearTrend.LineOf(3, 2.0, 0.0));
    DotZero(r, r, 3);
  }

  // ----- p-values

  lemma PValues()
    ensures PairedStatistics.P(0, 0) == 1.0 && PairedStatistics.P(1, 0) == 1.0 && PairedStatistics.P(5, 0) == 0.0625
  {
    assert Binomial.Tail(5, 1) == 1 && Binomial.Pow2(5) == 32;
    assert Binomial.Tail(1, 1) == 1 && Binomial.Pow2(1) == 2;
  }

  // ----- inputs that must be accepted

  lemma Accepted()
    ensures Topology.SameDimension(Topology.POINTS) && Topology.SameDimension([[]])
    ensures Transport.Acceptable([[0.0], [1.0], [2.0]], [[0.0], [1.0], [2.0]], 1.0)
    ensures Trajectory.Accepted([Trajectory.Observation("base", "next", [0.0], 1.0)], 1.0)
  {
    assert !Trajectory.IsSpace("base"[0]) && !Trajectory.IsSpace("next"[0]);
  }

  // ----- a merge

  /** A direction seen from behind: turned around, it pulls the prior towards itself. */
  lemma PooledFromBehind(prior: SkillBank.SkillField, newf: SkillBank.SkillField)
    requires prior.direction == [1.0, 0.0] && newf.direction == [-0.8, 0.6]
    requires |prior.evidence| == 1 && |newf.evidence| == 1
    ensures SkillBank.Pooled(prior, newf, -1.0) == [1.8, -0.6]
  {
    var a, b := prior.direction, newf.direction;
    assert SkillBank.Weight(prior) == 1.0 && SkillBank.SignedWeight(newf, -1.0) == -1.0;
    assert a[1..] == [0.0] && b[1..] == [0.6] && a[1..][1..] == [] && b[1..][1..] == [];
    assert SkillBank.Blend(a[1..][1..], 1.0, b[1..][1..], -1.0) == [];
    assert SkillBank.Blend(a[1..], 1.0, b[1..], -1.0) == [-0.6];
  }
}
