/** What a merge makes of the fields it joins: their directions, their qualities and their ancestry. */
module MergeLaws {
  import opened Prelude
  import opened Vectors
  import opened Sorting
  import opened SkillBank
  import Text

  // ----- the direction

  /** The field with its direction turned around. */
  function Negated(f: SkillField): (r: SkillField)
    ensures |r.direction| == |f.direction| && forall i | 0 <= i < |r.direction| :: r.direction[i] == -f.direction[i]
    ensures r == f.(direction := r.direction)
  {
    f.(direction := seq(|f.direction|, i requires 0 <= i < |f.direction| => -f.direction[i]))
  }

  lemma {:induction false} BlendAt(a: Vec, wa: real, b: Vec, wb: real)
    requires |a| == |b|
    ensures |Blend(a, wa, b, wb)| == |a|
    ensures forall i {:trigger Blend(a, wa, b, wb)[i]} | 0 <= i < |a| ::
              Blend(a, wa, b, wb)[i] == Pool(wa, a[i], wb, b[i])
  {
    if a != [] {
      BlendAt(a[1..], wa, b[1..], wb);
    }
  }

  lemma {:induction false} BlendNegated(a: Vec, wa: real, b: Vec, wb: real, nb: Vec, nwb: real)
    requires |nb| == |b| && (forall i | 0 <= i < |b| :: nb[i] == -b[i]) && nwb == -wb
    ensures Blend(a, wa, nb, nwb) == Blend(a, wa, b, wb)
  {
    if a != [] && b != [] {
      BlendNegated(a[1..], wa, b[1..], wb, nb[1..], nwb);
      PoolNegated(wa, a[0], wb, b[0], nb[0], nwb);
    }
  }

  lemma PoolNegated(wa: real, x: real, wb: real, y: real, ny: real, nwb: real)
    requires ny == -y && nwb == -wb
    ensures Pool(wa, x, nwb, ny) == Pool(wa, x, wb, y)
  {
    TwoMinus(wb, y);
  }

  lemma TwoMinus(x: real, y: real)
    ensures (-x) * (-y) == x * y
  {
  }

  lemma FlipNegated(sign: real, v: Vec, nv: Vec)
    requires |nv| == |v| && forall i | 0 <= i < |v| :: nv[i] == -v[i]
    ensures Flip(-sign, nv) == Flip(sign, v)
  {
    forall i | 0 <= i < |v|
      ensures Flip(-sign, nv)[i] == Flip(sign, v)[i]
    {
      TwoMinus(sign, v[i]);
    }
  }

  /** A direction is known up to its sign: turning the incoming one around, and so the sign of its cosine, changes
      nothing that is written, nor whether the merge is refused. */
  lemma SignFree(k: Kernels, prior: SkillField, newf: SkillField, sign: real)
    ensures Merged(k, prior, Negated(newf), -sign) == Merged(k, prior, newf, sign)
  {
    ReplacementSignFree(prior, newf, sign);
    DirectionSignFree(k, prior, newf, sign);
    SameMerge(k, prior, newf, Negated(newf), sign, -sign);
  }

  /** Apart from its direction the two incoming fields are the same. */
  lemma SameMerge(k: Kernels, prior: SkillField, f: SkillField, g: SkillField, s: real, t: real)
    requires g == f.(direction := g.direction)
    requires Replacement(prior, g, t) == Replacement(prior, f, s)
    requires MergedDirection(k, prior, g, t) == MergedDirection(k, prior, f, s)
    ensures Merged(k, prior, g, t) == Merged(k, prior, f, s)
  {
    var d := MergedDirection(k, prior, f, s);
    if d.Ok? {
      SameAbsorbed(prior, f, g, d.value);
    }
  }

  lemma SameAbsorbed(prior: SkillField, f: SkillField, g: SkillField, d: Vec)
    requires g == f.(direction := g.direction)
    ensures Absorbed(prior, g, d) == Absorbed(prior, f, d)
  {
  }

  lemma ReplacementSignFree(prior: SkillField, newf: SkillField, sign: real)
    ensures Replacement(prior, Negated(newf), -sign) == Replacement(prior, newf, sign)
  {
    FlipNegated(sign, newf.direction, Negated(newf).direction);
  }

  lemma DirectionSignFree(k: Kernels, prior: SkillField, newf: SkillField, sign: real)
    ensures MergedDirection(k, prior, Negated(newf), -sign) == MergedDirection(k, prior, newf, sign)
  {
    var turned := Negated(newf);
    assert Weight(turned) == Weight(newf);
    SignOut(newf, turned, sign);
    BlendNegated(prior.direction, Weight(prior), newf.direction, SignedWeight(newf, sign), turned.direction,
      SignedWeight(turned, -sign));
  }

  lemma SignOut(f: SkillField, g: SkillField, s: real)
    requires Weight(f) == Weight(g)
    ensures SignedWeight(g, -s) == -SignedWeight(f, s)
  {
  }

  lemma BlendIsSum(a: Vec, wa: real, b: Vec, wb: real)
    requires |a| == |b|
    ensures Blend(a, wa, b, wb) == Add(Scaled(wa, a), Scaled(wb, b))
  {
    BlendAt(a, wa, b, wb);
  }

  /** Along every direction the pooled vector is the weighted sum of the two. */
  lemma BlendAlong(a: Vec, wa: real, b: Vec, wb: real, z: Vec)
    requires |a| == |b| == |z|
    ensures |Blend(a, wa, b, wb)| == |z|
    ensures Dot(Blend(a, wa, b, wb), z, |z|) == Mul(wa, Dot(a, z, |z|)) + Mul(wb, Dot(b, z, |z|))
  {
    BlendIsSum(a, wa, b, wb);
    DotAdd(Scaled(wa, a), Scaled(wb, b), z, |z|);
    DotScaled(wa, a, z, |z|);
    DotScaled(wb, b, z, |z|);
  }

  /** Along every direction, for the pooled vector of a merge. */
  lemma PooledAlong(prior: SkillField, newf: SkillField, sign: real, z: Vec)
    requires |prior.direction| == |newf.direction| == |z|
    ensures |Pooled(prior, newf, sign)| == |z|
    ensures Dot(Pooled(prior, newf, sign), z, |z|)
         == Mul(Weight(prior), Dot(prior.direction, z, |z|))
          + Mul(SignedWeight(newf, sign), Dot(newf.direction, z, |z|))
  {
    BlendAlong(prior.direction, Weight(prior), newf.direction, SignedWeight(newf, sign), z);
  }

  /** A claimed field reinforces the prior: the pooled vector keeps at least the prior's own weight along the prior's
      direction, whenever the sign agrees with the inner product. */
  lemma Reinforces(prior: SkillField, newf: SkillField, sign: real, n: nat)
    requires |prior.direction| == |newf.direction| == n
    requires Mul(sign, Dot(prior.direction, newf.direction, n)) >= 0.0
    ensures |Pooled(prior, newf, sign)| == n
    ensures Dot(Pooled(prior, newf, sign), prior.direction, n)
         >= Mul(Weight(prior), Dot(prior.direction, prior.direction, n))
  {
    PooledAlong(prior, newf, sign, prior.direction);
    DotComm(prior.direction, newf.direction, n);
    Agreeing(newf, sign, Dot(prior.direction, newf.direction, n));
  }

  lemma Agreeing(f: SkillField, sign: real, d: real)
    requires Mul(sign, d) >= 0.0
    ensures Mul(SignedWeight(f, sign), d) >= 0.0
  {
    Times(Weight(f), Mul(sign, d));
    Associate(Weight(f), sign, d);
  }

  lemma Associate(w: real, s: real, d: real)
    ensures Mul(w * s, d) == w * Mul(s, d)
  {
  }

  /** And it keeps at least the incoming field's weight along the incoming direction, turned to agree. */
  lemma ReinforcesIncoming(prior: SkillField, newf: SkillField, sign: real, n: nat)
    requires |prior.direction| == |newf.direction| == n && (sign == 1.0 || sign == -1.0)
    requires Mul(sign, Dot(prior.direction, newf.direction, n)) >= 0.0
    ensures |Pooled(prior, newf, sign)| == n
    ensures Mul(sign, Dot(Pooled(prior, newf, sign), newf.direction, n))
         >= Mul(Weight(newf), Dot(newf.direction, newf.direction, n))
  {
    PooledAlong(prior, newf, sign, newf.direction);
    OwnWeight(prior, newf, sign, Dot(prior.direction, newf.direction, n), Dot(newf.direction, newf.direction, n));
  }

  lemma OwnWeight(prior: SkillField, f: SkillField, sign: real, across: real, own: real)
    requires (sign == 1.0 || sign == -1.0) && Mul(sign, across) >= 0.0
    ensures Mul(sign, Mul(Weight(prior), across) + Mul(SignedWeight(f, sign), own)) >= Mul(Weight(f), own)
  {
    Times(Weight(prior), Mul(sign, across));
    if sign == -1.0 {
      assert SignedWeight(f, sign) == -Weight(f);
    }
  }

  /** Which of the two was there first decides nothing but the sign of the pooled vector. */
  lemma Exchanged(prior: SkillField, newf: SkillField, sign: real)
    requires |prior.direction| == |newf.direction| && (sign == 1.0 || sign == -1.0)
    ensures Pooled(newf, prior, sign) == Flip(sign, Pooled(prior, newf, sign))
  {
    var a, b := prior.direction, newf.direction;
    BlendAt(a, Weight(prior), b, SignedWeight(newf, sign));
    BlendAt(b, Weight(newf), a, SignedWeight(prior, sign));
    forall i | 0 <= i < |a|
      ensures Pool(Weight(newf), b[i], SignedWeight(prior, sign), a[i])
           == sign * Pool(Weight(prior), a[i], SignedWeight(newf, sign), b[i])
    {
      PoolExchanged(prior, a[i], newf, b[i], sign);
    }
    ScaledEntries(Pooled(newf, prior, sign), sign, Pooled(prior, newf, sign));
  }

  lemma ScaledEntries(u: Vec, sign: real, v: Vec)
    requires |u| == |v| && forall i | 0 <= i < |v| :: u[i] == sign * v[i]
    ensures u == Flip(sign, v)
  {
  }

  lemma PoolExchanged(p: SkillField, x: real, q: SkillField, y: real, s: real)
    requires s == 1.0 || s == -1.0
    ensures Pool(Weight(q), y, SignedWeight(p, s), x) == s * Pool(Weight(p), x, SignedWeight(q, s), y)
  {
    if s == -1.0 {
      assert SignedWeight(p, s) == -Weight(p) && SignedWeight(q, s) == -Weight(q);
    }
  }

  // ----- what a merge writes

  /** A merge of independent or uncounted evidence pools the two fields; any other replaces the prior. */
  predicate Pools(prior: SkillField, newf: SkillField) {
    newf.evidence == [] || (prior.evidence != [] && !SameMembers(prior.evidence, newf.evidence))
  }

  lemma MergedIs(k: Kernels, prior: SkillField, newf: SkillField, sign: real, c: SkillField)
    requires Merged(k, prior, newf, sign) == Ok(c)
    ensures !Pools(prior, newf) ==> c == Replacement(prior, newf, sign)
    ensures Pools(prior, newf) ==> MergedDirection(k, prior, newf, sign).Ok?
    ensures Pools(prior, newf) ==> c == Absorbed(prior, newf, MergedDirection(k, prior, newf, sign).value)
    ensures NoDuplicates(prior.evidence) && NoDuplicates(newf.evidence)
    ensures Pools(prior, newf) && newf.evidence != [] ==> !Overlap(prior.evidence, newf.evidence)
  {
  }

  /** `v` sums the two directions, each with its weight and the incoming one with its sign, as seen from anywhere. */
  ghost predicate Sums(prior: SkillField, newf: SkillField, sign: real, v: Vec) {
    && |v| == |prior.direction| == |newf.direction|
    && (forall z: Vec {:trigger Dot(v, z, |v|)} | |z| == |v| ::
          Dot(v, z, |v|) == Mul(Weight(prior), Dot(prior.direction, z, |v|))
                          + Mul(SignedWeight(newf, sign), Dot(newf.direction, z, |v|)))
  }

  /** The direction written by a merge: the weighted sum of both, normalised; or the new one alone, turned to agree. */
  lemma MergeDirected(k: Kernels, prior: SkillField, newf: SkillField, sign: real, c: SkillField) returns (v: Vec)
    requires Merged(k, prior, newf, sign) == Ok(c) && |prior.direction| == |newf.direction|
    ensures Pools(prior, newf) ==> Sums(prior, newf, sign, v) && k.normalize(v) == Ok(c.direction)
    ensures !Pools(prior, newf) ==> c.direction == v == Flip(sign, newf.direction)
  {
    MergedIs(k, prior, newf, sign, c);
    if Pools(prior, newf) {
      v := Pooled(prior, newf, sign);
      PooledSums(prior, newf, sign, v);
    } else {
      v := Flip(sign, newf.direction);
    }
  }

  lemma PooledSums(prior: SkillField, newf: SkillField, sign: real, v: Vec)
    requires |prior.direction| == |newf.direction| && v == Pooled(prior, newf, sign)
    ensures Sums(prior, newf, sign, v)
  {
    PooledAlong(prior, newf, sign, prior.direction);
    forall z: Vec | |z| == |v|
      ensures Dot(v, z, |v|) == Mul(Weight(prior), Dot(prior.direction, z, |v|))
                              + Mul(SignedWeight(newf, sign), Dot(newf.direction, z, |v|))
    {
      PooledAlong(prior, newf, sign, z);
    }
  }

  /** A normaliser only changes the length. */
  ghost predicate Normalises(normalize: Vec -> Result<Vec>) {
    forall v :: normalize(v).Ok? ==> exists t :: t > 0.0 && normalize(v).value == Scaled(t, v)
  }

  /** The cosine compares vectors of one dimension and has the sign of their inner product. */
  ghost predicate SignedCosine(cosine: (Vec, Vec) -> Result<real>) {
    forall a, b :: cosine(a, b).Ok? ==>
      |a| == |b| && (cosine(a, b).value >= 0.0 <==> Dot(a, b, |a|) >= 0.0)
  }

  lemma FlipAlong(sign: real, v: Vec, z: Vec, n: nat)
    requires |v| == |z| == n
    ensures Dot(Flip(sign, v), z, n) == Mul(sign, Dot(z, v, n))
  {
    assert Flip(sign, v) == Scaled(sign, v);
    DotScaled(sign, v, z, n);
    DotComm(v, z, n);
  }

  lemma ScaledAlong(t: real, v: Vec, z: Vec, n: nat)
    requires |v| == |z| == n && t > 0.0 && Dot(v, z, n) >= 0.0
    ensures Dot(Scaled(t, v), z, n) >= 0.0
    ensures Dot(v, z, n) > 0.0 ==> Dot(Scaled(t, v), z, n) > 0.0
  {
    DotScaled(t, v, z, n);
    Times(t, Dot(v, z, n));
    if Dot(v, z, n) > 0.0 {
      Positive(t, Dot(v, z, n), Mul(t, Dot(v, z, n)));
    }
  }

  /** What is written never points away from the prior, and a pooled direction strictly towards it. */
  lemma MergeAgrees(k: Kernels, prior: SkillField, newf: SkillField, sign: real, c: SkillField, n: nat)
    requires Normalises(k.normalize) && Merged(k, prior, newf, sign) == Ok(c)
    requires |prior.direction| == |newf.direction| == n
    requires Mul(sign, Dot(prior.direction, newf.direction, n)) >= 0.0
    ensures |c.direction| == n && Dot(c.direction, prior.direction, n) >= 0.0
    ensures Pools(prior, newf) && prior.direction != Zeros(n) ==> Dot(c.direction, prior.direction, n) > 0.0
  {
    MergedIs(k, prior, newf, sign, c);
    if Pools(prior, newf) {
      PooledAgrees(k, prior, newf, sign, c.direction, n);
    } else {
      FlipAlong(sign, newf.direction, prior.direction, n);
    }
  }

  lemma PooledAgrees(k: Kernels, prior: SkillField, newf: SkillField, sign: real, d: Vec, n: nat)
    requires Normalises(k.normalize) && k.normalize(Pooled(prior, newf, sign)) == Ok(d)
    requires |prior.direction| == |newf.direction| == n
    requires Mul(sign, Dot(prior.direction, newf.direction, n)) >= 0.0
    ensures |d| == n && Dot(d, prior.direction, n) >= 0.0
    ensures prior.direction != Zeros(n) ==> Dot(d, prior.direction, n) > 0.0
  {
    var v := Pooled(prior, newf, sign);
    Reinforces(prior, newf, sign, n);
    OwnLength(Weight(prior), prior.direction, n);
    var t :| t > 0.0 && d == Scaled(t, v);
    ScaledAlong(t, v, prior.direction, n);
  }

  lemma OwnLength(w: real, a: Vec, n: nat)
    requires w > 0.0 && |a| == n
    ensures Mul(w, Dot(a, a, n)) >= 0.0
    ensures a != Zeros(n) ==> Mul(w, Dot(a, a, n)) > 0.0
  {
    DotSelf(a, n);
    Times(w, Dot(a, a, n));
    if a != Zeros(n) {
      var i :| 0 <= i < n && a[i] != 0.0;
      DotPositive(a, n, i);
      Positive(w, Dot(a, a, n), Mul(w, Dot(a, a, n)));
    }
  }

  /** In a successful call no claim turns a skill against itself. */
  lemma ClaimsAgree(k: Kernels, threshold: real, before: Bank, incoming: seq<SkillField>, after: Bank, al: Alignment,
                    cs: seq<SkillField>, j: nat)
    requires AssimilatesBy(k, threshold, before, incoming, after, al, cs) && j < |al| && al[j].Some?
    requires Normalises(k.normalize) && SignedCosine(k.cosine)
    ensures var prior := before.fields[al[j].value.0].direction;
            |cs[j].direction| == |prior| && Dot(cs[j].direction, prior, |prior|) >= 0.0
  {
    var (i, sign) := al[j].value;
    var a, b := before.fields[i].direction, incoming[j].direction;
    ClaimSign(k, threshold, before.fields, incoming, al, j);
    assert Contribution(k, before.fields, incoming[j], al[j]) == Ok(cs[j]);
    MergeAgrees(k, before.fields[i], incoming[j], sign, cs[j], |a|);
  }

  lemma ClaimSign(k: Kernels, threshold: real, priors: seq<SkillField>, incoming: seq<SkillField>, al: Alignment,
                  j: nat)
    requires GoodAlignment(k.cosine, priors, incoming, threshold, al) && InBounds(al, incoming, priors)
    requires j < |al| && al[j].Some? && SignedCosine(k.cosine)
    ensures var a, b := priors[al[j].value.0].direction, incoming[j].direction;
            |a| == |b| && Mul(al[j].value.1, Dot(a, b, |a|)) >= 0.0
  {
    var a, b := priors[al[j].value.0].direction, incoming[j].direction;
    assert Similarity(k.cosine, priors[al[j].value.0], incoming[j]).Ok?;
    assert k.cosine(a, b).Ok?;
  }

  // ----- weights and qualities

  /** A single observation weighs one. */
  lemma UnitWeight(f: SkillField)
    ensures |f.evidence| == 1 || (f.evidence == [] && f.support <= 1) ==> Weight(f) == 1.0
  {
  }

  lemma DisjointUnion(a: seq<Digest>, b: seq<Digest>)
    requires !Overlap(a, b)
    ensures Missing(a, b) == b
  {
    if b != [] {
      assert b == [b[0]] + b[1..];
      assert b[0] !in a;
      DisjointUnion(a, b[1..]);
    }
  }

  /** Neither field counts its evidence, and their supports do not saturate the counter. */
  predicate Uncounted(prior: SkillField, newf: SkillField) {
    && prior.evidence == [] && newf.evidence == [] && prior.support > 0 && newf.support > 0
    && prior.support + newf.support <= MAX_U64
  }

  /** Pooling adds weights, so that pooling one by one weighs every observation alike: when both fields count their
      evidence, or neither does and no counter saturates. A replacement weighs what replaced it. */
  lemma WeightsAdd(k: Kernels, prior: SkillField, newf: SkillField, sign: real, c: SkillField)
    requires Merged(k, prior, newf, sign) == Ok(c)
    ensures Pools(prior, newf) && newf.evidence != [] ==> Weight(c) == Weight(prior) + Weight(newf)
    ensures Uncounted(prior, newf) ==> Weight(c) == Weight(prior) + Weight(newf)
    ensures prior.evidence != [] && newf.evidence == [] ==> Weight(c) == Weight(prior)
    ensures !Pools(prior, newf) ==> Weight(c) == Weight(newf)
  {
    MergedIs(k, prior, newf, sign, c);
    if Pools(prior, newf) {
      AbsorbedWeight(prior, newf, MergedDirection(k, prior, newf, sign).value);
    } else {
      ReplacedWeight(prior, newf, sign);
    }
  }

  lemma ReplacedWeight(prior: SkillField, newf: SkillField, sign: real)
    requires newf.evidence != []
    ensures Weight(Replacement(prior, newf, sign)) == Weight(newf)
  {
  }

  lemma AbsorbedWeight(prior: SkillField, newf: SkillField, d: Vec)
    requires newf.evidence != [] ==> !Overlap(prior.evidence, newf.evidence) && prior.evidence != []
    ensures newf.evidence != [] || Uncounted(prior, newf) ==>
              Weight(Absorbed(prior, newf, d)) == Weight(prior) + Weight(newf)
    ensures prior.evidence != [] && newf.evidence == [] ==> Weight(Absorbed(prior, newf, d)) == Weight(prior)
  {
    if newf.evidence != [] {
      DisjointUnion(prior.evidence, newf.evidence);
    }
  }

  /** A quality in [0, 1]. */
  predicate Share01(x: real) {
    0.0 <= x <= 1.0
  }

  /** Pooled qualities move three tenths of the way to the incoming ones and need no clamp, uncertainty never rises,
      and a replacement takes the incoming qualities. */
  lemma QualitiesMove(k: Kernels, prior: SkillField, newf: SkillField, sign: real, c: SkillField)
    requires Merged(k, prior, newf, sign) == Ok(c)
    ensures Pools(prior, newf) && Share01(prior.persistence) && Share01(newf.persistence) ==>
              10.0 * (c.persistence - prior.persistence) == 3.0 * (newf.persistence - prior.persistence)
    ensures Pools(prior, newf) && Share01(prior.coherence) && Share01(newf.coherence) ==>
              10.0 * (c.coherence - prior.coherence) == 3.0 * (newf.coherence - prior.coherence)
    ensures Pools(prior, newf) ==> c.uncertainty <= prior.uncertainty && c.uncertainty <= newf.uncertainty
    ensures Pools(prior, newf) ==> c.uncertainty == prior.uncertainty || c.uncertainty == newf.uncertainty
    ensures !Pools(prior, newf) ==> c.persistence == newf.persistence && c.coherence == newf.coherence
    ensures !Pools(prior, newf) ==> c.uncertainty == newf.uncertainty
  {
    MergedIs(k, prior, newf, sign, c);
  }

  /** The latest analysis is always the one attached; a durable skill keeps the generation it was created in. */
  lemma LatestAttached(k: Kernels, prior: SkillField, newf: SkillField, sign: real, c: SkillField)
    requires Merged(k, prior, newf, sign) == Ok(c)
    ensures c.attachments == newf.attachments && c.reconstructionId == newf.reconstructionId
    ensures newf.functionalSignature != [] ==> c.functionalSignature == newf.functionalSignature
    ensures newf.functionalSignature == [] && Pools(prior, newf) ==> c.functionalSignature == prior.functionalSignature
    ensures prior.lineageId != "" ==> c.generationCreated == prior.generationCreated
    ensures Pools(prior, newf) ==> c.singularValue == prior.singularValue
    ensures Pools(prior, newf) ==> c.explainedVariance == prior.explainedVariance
  {
    MergedIs(k, prior, newf, sign, c);
  }

  // ----- what a new field is, and the order of the evidence

  /** An unaligned field is taken as it is, with its evidence in order and counted. */
  lemma FreshKeeps(newf: SkillField, c: SkillField)
    requires Fresh(newf) == Ok(c)
    ensures c == newf.(support := c.support, evidence := c.evidence)
    ensures SameMembers(c.evidence, newf.evidence) && (newf.evidence == [] ==> c == newf)
    ensures newf.evidence != [] ==> c.support == |newf.evidence| && Sorted(c.evidence, DigestLe)
  {
    AscendingSorted(newf.evidence);
  }

  lemma AscendingSorted(a: seq<Digest>)
    ensures Sorted(Ascending(a), DigestLe)
  {
    SortBySorted(a, DigestLe);
  }

  /** Whenever the incoming field brings evidence, what is written lists its evidence in ascending order. */
  lemma EvidenceAscends(k: Kernels, prior: SkillField, newf: SkillField, sign: real, c: SkillField)
    requires Merged(k, prior, newf, sign) == Ok(c)
    ensures newf.evidence != [] ==> Sorted(c.evidence, DigestLe)
    ensures newf.evidence == [] ==> c.evidence == prior.evidence
  {
    MergedIs(k, prior, newf, sign, c);
    AscendingSorted(newf.evidence);
    AscendingSorted(prior.evidence + Missing(prior.evidence, newf.evidence));
  }

  // ----- the revision written back

  /** After a successful call the fields are in the order of their ids, and the generation is the next one or, when a
      field was created later than that, the latest of the fields. */
  lemma RevisionWritten(k: Kernels, threshold: real, before: Bank, incoming: seq<SkillField>, after: Bank)
    requires Assimilates(k, threshold, before, incoming, after)
    ensures Sorted(after.fields, BySkillId)
    ensures after.generation >= SaturatingAdd(before.generation, 1)
    ensures forall f <- after.fields :: f.generationCreated <= after.generation
    ensures after.generation == SaturatingAdd(before.generation, 1)
         || exists f <- after.fields :: f.generationCreated == after.generation
  {
    var al, cs :| AssimilatesBy(k, threshold, before, incoming, after, al, cs);
    ById();
    SortBySorted(Placed(before.fields, al, cs, |cs|), BySkillId);
  }

  lemma ById()
    ensures Total(BySkillId) && Transitive(BySkillId)
  {
    forall a, b
      ensures BySkillId(a, b) || BySkillId(b, a)
    {
      Text.LeTotal(a.skillId, b.skillId);
    }
    forall a, b, c | BySkillId(a, b) && BySkillId(b, c)
      ensures BySkillId(a, c)
    {
      Text.LeTransitive(a.skillId, b.skillId, c.skillId);
    }
  }
}
