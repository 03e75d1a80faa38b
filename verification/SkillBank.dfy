/** The long-lived skill bank: one global assignment per batch, then evidence-preserving merges. */
module SkillBank {
  import opened Prelude
  import opened Matching
  import opened Sorting
  import Gauge
  import Text

  type Digest = nat
  type Vector = Gauge.Vector

  const MAX_U64: nat := 0xFFFF_FFFF_FFFF_FFFF

  /** Geometry, materialisation, layout and representation, carried along untouched. */
  datatype Attachments = Attachments(geometry: string, materialization: string, layout: string,
                                     representation: Vector)

  datatype SkillField = SkillField(
    skillId: string, reconstructionId: string, lineageId: string, generationCreated: nat,
    direction: Vector, attachments: Attachments, singularValue: real, explainedVariance: real,
    persistence: real, coherence: real, uncertainty: real,
    evidence: seq<Digest>, support: nat, functionalSignature: Vector, parents: seq<string>)

  datatype Bank = Bank(generation: nat, fields: seq<SkillField>)

  /** The kernels whose code lives elsewhere. */
  datatype Kernels = Kernels(cosine: Gauge.Cosine, normalize: Vector -> Result<Vector>)

  type Alignment = seq<Option<(nat, real)>>

  function SaturatingAdd(a: nat, b: nat): (r: nat)
    ensures r == if a + b <= MAX_U64 then a + b else MAX_U64
  {
    if a + b <= MAX_U64 then a + b else MAX_U64
  }

  function Directions(fields: seq<SkillField>): (d: seq<Vector>)
    ensures |d| == |fields| && forall i | 0 <= i < |d| :: d[i] == fields[i].direction
  {
    seq(|fields|, i requires 0 <= i < |fields| => fields[i].direction)
  }

  predicate NoDuplicates<T(==)>(s: seq<T>) {
    forall i, j | 0 <= i < j < |s| :: s[i] != s[j]
  }

  predicate SameMembers(a: seq<Digest>, b: seq<Digest>) {
    && (forall d <- a :: d in b)
    && (forall d <- b :: d in a)
  }

  function EvidenceSet(field: SkillField): Result<seq<Digest>> {
    if NoDuplicates(field.evidence) then Ok(field.evidence)
    else Err("skill_evidence_support_digest_invalid")
  }

  predicate DigestLe(a: Digest, b: Digest) {
    a <= b
  }

  /** The members of `b` that are not in `a`, in order. */
  function Missing(a: seq<Digest>, b: seq<Digest>): (r: seq<Digest>)
    ensures forall d :: d in r <==> d in b && d !in a
  {
    if b == [] then []
    else
      assert b == [b[0]] + b[1..];
      if b[0] in a then Missing(a, b[1..]) else [b[0]] + Missing(a, b[1..])
  }

  /** The ascending list of the members of a duplicate-free list. */
  function Ascending(a: seq<Digest>): (r: seq<Digest>)
    ensures |r| == |a|
    ensures forall d :: d in r <==> d in a
  {
    var r := SortBy(a, DigestLe);
    assert forall d :: d in r <==> d in multiset(r);
    assert forall d :: d in a <==> d in multiset(a);
    r
  }

  function Overlap(a: seq<Digest>, b: seq<Digest>): bool {
    exists d <- a :: d in b
  }

  function Flip(sign: real, v: Vector): (r: Vector)
    ensures |r| == |v| && forall i | 0 <= i < |v| :: r[i] == sign * v[i]
  {
    seq(|v|, i requires 0 <= i < |v| => sign * v[i])
  }

  /** The weighted sum that is renormalised into the merged direction; it stops at the shorter vector. */
  function Blend(a: Vector, wa: real, b: Vector, wb: real): Vector {
    if a == [] || b == [] then [] else [Pool(wa, a[0], wb, b[0])] + Blend(a[1..], wa, b[1..], wb)
  }

  function Pool(wa: real, x: real, wb: real, y: real): real {
    wa * x + wb * y
  }

  function WithParent(parents: seq<string>, id: string, kept: string): seq<string> {
    if id != kept && id !in parents then parents + [id] else parents
  }

  /** Remove repeats from a sorted list. */
  function Dedup(s: seq<string>): seq<string> {
    if |s| < 2 then s
    else if s[0] == s[1] then Dedup(s[1..])
    else [s[0]] + Dedup(s[1..])
  }

  /** `durable_identity`: a prior that already has a lineage keeps its ids. */
  function DurableIdentity(prior: SkillField, incoming: SkillField): (r: (string, string, seq<string>))
    ensures prior.lineageId != "" ==> r.0 == prior.skillId && r.1 == prior.lineageId
  {
    var legacy := prior.lineageId == "";
    var skillId := if legacy then incoming.skillId else prior.skillId;
    var lineageId := if legacy then incoming.lineageId else prior.lineageId;
    var parents := WithParent(WithParent(prior.parents, prior.skillId, skillId), incoming.skillId, skillId);
    (skillId, lineageId, Dedup(SortBy(parents, Text.Le)))
  }

  /** The new analysis replaces the prior: legacy priors, and replays of the same evidence. */
  function Replacement(prior: SkillField, newf: SkillField, sign: real): SkillField {
    var (skillId, lineageId, parents) := DurableIdentity(prior, newf);
    newf.(direction := Flip(sign, newf.direction), skillId := skillId, lineageId := lineageId,
          generationCreated := if prior.lineageId == "" then newf.generationCreated else prior.generationCreated,
          parents := parents, support := |newf.evidence|, evidence := Ascending(newf.evidence))
  }

  function Weight(field: SkillField): (w: real)
    ensures w >= 1.0
  {
    if field.evidence == [] then (if field.support > 1 then field.support else 1) as real
    else |field.evidence| as real
  }

  /** Independent evidence: the prior absorbs the new analysis. */
  function Absorbed(prior: SkillField, newf: SkillField, direction: Vector): SkillField {
    var (skillId, lineageId, parents) := DurableIdentity(prior, newf);
    var union := Ascending(prior.evidence + Missing(prior.evidence, newf.evidence));
    prior.(skillId := skillId, reconstructionId := newf.reconstructionId, lineageId := lineageId,
           direction := direction, attachments := newf.attachments, parents := parents,
           support := if newf.evidence != [] then |union| else SaturatingAdd(prior.support, newf.support),
           evidence := if newf.evidence != [] then union else prior.evidence,
           persistence := Clamp(0.7 * prior.persistence + 0.3 * newf.persistence, 0.0, 1.0),
           coherence := Clamp(0.7 * prior.coherence + 0.3 * newf.coherence, 0.0, 1.0),
           uncertainty := Min(prior.uncertainty, newf.uncertainty),
           functionalSignature := if newf.functionalSignature != [] then newf.functionalSignature
                                  else prior.functionalSignature)
  }

  function SignedWeight(field: SkillField, sign: real): real {
    Weight(field) * sign
  }

  /** The vector that a merge normalises. */
  function Pooled(prior: SkillField, newf: SkillField, sign: real): Vector {
    Blend(prior.direction, Weight(prior), newf.direction, SignedWeight(newf, sign))
  }

  /** The direction of the support-weighted sum, the incoming one turned to agree in sign. */
  function MergedDirection(k: Kernels, prior: SkillField, newf: SkillField, sign: real): Result<Vector> {
    k.normalize(Pooled(prior, newf, sign))
  }

  /** What an aligned incoming field does to its prior. */
  function Merged(k: Kernels, prior: SkillField, newf: SkillField, sign: real): Result<SkillField> {
    var priorEvidence := EvidenceSet(prior);
    var incomingEvidence := EvidenceSet(newf);
    if priorEvidence.Err? then Err(priorEvidence.code)
    else if incomingEvidence.Err? then Err(incomingEvidence.code)
    else
      var exact := newf.evidence != [];
      var same := exact && prior.evidence != [] && SameMembers(prior.evidence, newf.evidence);
      if exact && prior.evidence != [] && Overlap(prior.evidence, newf.evidence) && !same then
        Err("skill_evidence_partial_overlap_requires_union_reconstruction")
      else if exact && (prior.evidence == [] || same) then Ok(Replacement(prior, newf, sign))
      else
        var direction := MergedDirection(k, prior, newf, sign);
        if direction.Err? then Err(direction.code) else Ok(Absorbed(prior, newf, direction.value))
  }

  /** What an unaligned incoming field contributes. */
  function Fresh(newf: SkillField): Result<SkillField> {
    if newf.evidence == [] then Ok(newf)
    else if EvidenceSet(newf).Err? then Err(EvidenceSet(newf).code)
    else Ok(newf.(support := |newf.evidence|, evidence := Ascending(newf.evidence)))
  }

  /** Every aligned index names a prior. */
  predicate InBounds(al: Alignment, incoming: seq<SkillField>, priors: seq<SkillField>) {
    |al| == |incoming| && forall i | 0 <= i < |al| && al[i].Some? :: al[i].value.0 < |priors|
  }

  /** No prior is claimed twice. */
  predicate OneClaim(al: Alignment) {
    forall i, j | 0 <= i < j < |al| && al[i].Some? && al[j].Some? :: al[i].value.0 != al[j].value.0
  }

  /** What incoming field `i` writes: a merge into the prior it claims, or a new field. */
  function Contribution(k: Kernels, priors: seq<SkillField>, newf: SkillField, claim: Option<(nat, real)>)
    : Result<SkillField>
    requires claim.Some? ==> claim.value.0 < |priors|
  {
    match claim
    case Some((prior, sign)) => Merged(k, priors[prior], newf, sign)
    case None => Fresh(newf)
  }

  /** The working copy after the first `m` contributions have been written. */
  function Placed(priors: seq<SkillField>, al: Alignment, cs: seq<SkillField>, m: nat): (next: seq<SkillField>)
    requires m <= |cs| <= |al|
    requires forall i | 0 <= i < |al| && al[i].Some? :: al[i].value.0 < |priors|
    ensures |next| >= |priors|
  {
    if m == 0 then priors
    else
      var rest := Placed(priors, al, cs, m - 1);
      match al[m-1]
      case Some((prior, _)) => rest[prior := cs[m-1]]
      case None => rest + [cs[m-1]]
  }

  predicate BySkillId(a: SkillField, b: SkillField) {
    Text.Le(a.skillId, b.skillId)
  }

  function NewestGeneration(fields: seq<SkillField>, otherwise: nat): (g: nat)
    ensures forall f <- fields :: f.generationCreated <= g
    ensures fields != [] ==> exists f <- fields :: f.generationCreated == g
  {
    if fields == [] then otherwise
    else
      assert fields == [fields[0]] + fields[1..];
      if |fields| == 1 then fields[0].generationCreated
      else
        var g := NewestGeneration(fields[1..], otherwise);
        if g < fields[0].generationCreated then fields[0].generationCreated else g
  }

  /** The revision written back once every field has merged. */
  function NextBank(generation: nat, next: seq<SkillField>): Bank {
    var fields := SortBy(next, BySkillId);
    var revision := SaturatingAdd(generation, 1);
    var newest := NewestGeneration(fields, revision);
    Bank(if revision < newest then newest else revision, fields)
  }

  // ----- evidence

  function Evidence(fields: seq<SkillField>): set<Digest> {
    set f, d | f in fields && d in f.evidence :: d
  }

  function SetOf(digests: seq<Digest>): set<Digest> {
    set d | d in digests
  }

  lemma EvidenceOf(fields: seq<SkillField>, d: Digest)
    ensures d in Evidence(fields) <==> exists i :: 0 <= i < |fields| && d in fields[i].evidence
  {
    if i :| 0 <= i < |fields| && d in fields[i].evidence {
      assert fields[i] in fields;
    }
  }

  /** A contribution supports what its prior, if any, and its incoming field supported. */
  predicate CarriesEvidence(priors: seq<SkillField>, newf: SkillField, claim: Option<(nat, real)>, field: SkillField)
    requires claim.Some? ==> claim.value.0 < |priors|
  {
    && (forall d <- field.evidence :: d in newf.evidence || (claim.Some? && d in priors[claim.value.0].evidence))
    && (forall d <- newf.evidence :: d in field.evidence)
    && (claim.Some? ==> forall d <- priors[claim.value.0].evidence :: d in field.evidence)
  }

  lemma ContributionEvidence(k: Kernels, priors: seq<SkillField>, newf: SkillField, claim: Option<(nat, real)>)
    requires claim.Some? ==> claim.value.0 < |priors|
    requires Contribution(k, priors, newf, claim).Ok?
    ensures CarriesEvidence(priors, newf, claim, Contribution(k, priors, newf, claim).value)
  {
  }

  /** A prior that no field claims is still in its slot; this is where a double claim would lose evidence. */
  lemma {:induction false} UnclaimedSlot(priors: seq<SkillField>, al: Alignment, cs: seq<SkillField>, m: nat, i: nat)
    requires m <= |cs| <= |al| && i < |priors|
    requires forall j | 0 <= j < |al| && al[j].Some? :: al[j].value.0 < |priors|
    requires forall j | 0 <= j < m && al[j].Some? :: al[j].value.0 != i
    ensures Placed(priors, al, cs, m)[i] == priors[i]
  {
    if m > 0 {
      UnclaimedSlot(priors, al, cs, m - 1, i);
    }
  }

  lemma ReplaceEvidence(fields: seq<SkillField>, i: nat, field: SkillField, added: seq<Digest>)
    requires i < |fields|
    requires forall d :: d in field.evidence <==> d in fields[i].evidence || d in added
    ensures Evidence(fields[i := field]) == Evidence(fields) + SetOf(added)
  {
    var next := fields[i := field];
    forall d
      ensures d in Evidence(next) <==> d in Evidence(fields) || d in added
    {
      EvidenceOf(next, d);
      EvidenceOf(fields, d);
      assert next[i] == field;
      if j :| 0 <= j < |fields| && d in fields[j].evidence {
        assert d in next[j].evidence;
      }
    }
  }

  lemma AppendEvidence(fields: seq<SkillField>, field: SkillField)
    ensures Evidence(fields + [field]) == Evidence(fields) + SetOf(field.evidence)
  {
    var next := fields + [field];
    forall d
      ensures d in Evidence(next) <==> d in Evidence(fields) || d in field.evidence
    {
      EvidenceOf(next, d);
      EvidenceOf(fields, d);
      assert next[|fields|] == field;
      if j :| 0 <= j < |fields| && d in fields[j].evidence {
        assert next[j] == fields[j];
      }
    }
  }

  lemma AddedTo(start: set<Digest>, added: set<Digest>, more: set<Digest>, total: set<Digest>)
    requires total == added + more
    ensures (start + added) + more == start + total
  {
  }

  lemma PrefixEvidence(incoming: seq<SkillField>, m: nat)
    requires 0 < m <= |incoming|
    ensures Evidence(incoming[..m]) == Evidence(incoming[..m-1]) + SetOf(incoming[m-1].evidence)
  {
    AppendEvidence(incoming[..m-1], incoming[m-1]);
    assert incoming[..m] == incoming[..m-1] + [incoming[m-1]];
  }

  /** Writing one contribution adds exactly the evidence of its incoming field. */
  lemma OnePlaced(priors: seq<SkillField>, newf: SkillField, al: Alignment, cs: seq<SkillField>, m: nat,
                  rest: seq<SkillField>)
    requires OneClaim(al) && 0 < m <= |cs| <= |al|
    requires forall i | 0 <= i < |al| && al[i].Some? :: al[i].value.0 < |priors|
    requires rest == Placed(priors, al, cs, m - 1) && CarriesEvidence(priors, newf, al[m-1], cs[m-1])
    ensures Evidence(Placed(priors, al, cs, m)) == Evidence(rest) + SetOf(newf.evidence)
  {
    match al[m-1]
    case Some((i, _)) =>
      UnclaimedSlot(priors, al, cs, m - 1, i);
      ReplaceEvidence(rest, i, cs[m-1], newf.evidence);
    case None =>
      AppendEvidence(rest, cs[m-1]);
      assert SetOf(cs[m-1].evidence) == SetOf(newf.evidence);
  }

  /** The working copy holds exactly the evidence of the priors and of the fields processed so far. */
  lemma {:induction false} PlacedEvidence(priors: seq<SkillField>, incoming: seq<SkillField>, al: Alignment,
                                          cs: seq<SkillField>, m: nat)
    requires InBounds(al, incoming, priors) && OneClaim(al) && m <= |cs| <= |incoming|
    requires forall i | 0 <= i < |cs| :: CarriesEvidence(priors, incoming[i], al[i], cs[i])
    ensures Evidence(Placed(priors, al, cs, m)) == Evidence(priors) + Evidence(incoming[..m])
  {
    if m > 0 {
      PlacedEvidence(priors, incoming, al, cs, m - 1);
      assert CarriesEvidence(priors, incoming[m-1], al[m-1], cs[m-1]);
      OnePlaced(priors, incoming[m-1], al, cs, m, Placed(priors, al, cs, m - 1));
      PrefixAdds(priors, incoming, m, Placed(priors, al, cs, m - 1), Placed(priors, al, cs, m));
    } else {
      assert incoming[..0] == [];
    }
  }

  lemma PrefixAdds(priors: seq<SkillField>, incoming: seq<SkillField>, m: nat, prev: seq<SkillField>,
                   next: seq<SkillField>)
    requires 0 < m <= |incoming| && Evidence(prev) == Evidence(priors) + Evidence(incoming[..m-1])
    requires Evidence(next) == Evidence(prev) + SetOf(incoming[m-1].evidence)
    ensures Evidence(next) == Evidence(priors) + Evidence(incoming[..m])
  {
    PrefixEvidence(incoming, m);
    AddedTo(Evidence(priors), Evidence(incoming[..m-1]), SetOf(incoming[m-1].evidence), Evidence(incoming[..m]));
  }

  lemma SortKeepsEvidence(fields: seq<SkillField>)
    ensures Evidence(SortBy(fields, BySkillId)) == Evidence(fields)
  {
    forall f: SkillField
      ensures f in fields <==> f in SortBy(fields, BySkillId)
    {
      InMultiset(fields, SortBy(fields, BySkillId), f);
    }
  }

  // ----- identity

  predicate HasIds(f: SkillField, skillId: string, lineageId: string) {
    f.skillId == skillId && f.lineageId == lineageId
  }

  /** How many fields carry these two ids. */
  function IdCount(fields: seq<SkillField>, skillId: string, lineageId: string): nat {
    if fields == [] then 0
    else IdCount(fields[1..], skillId, lineageId) + if HasIds(fields[0], skillId, lineageId) then 1 else 0
  }

  lemma {:induction false} IdCountAppend(s: seq<SkillField>, t: seq<SkillField>, skillId: string, lineageId: string)
    ensures IdCount(s + t, skillId, lineageId) == IdCount(s, skillId, lineageId) + IdCount(t, skillId, lineageId)
  {
    if s == [] {
      assert s + t == t;
    } else {
      assert (s + t)[1..] == s[1..] + t;
      IdCountAppend(s[1..], t, skillId, lineageId);
    }
  }

  lemma IdCountReplace(s: seq<SkillField>, i: nat, field: SkillField, skillId: string, lineageId: string)
    requires i < |s| && (HasIds(s[i], skillId, lineageId) ==> HasIds(field, skillId, lineageId))
    ensures IdCount(s, skillId, lineageId) <= IdCount(s[i := field], skillId, lineageId)
  {
    assert s == s[..i] + ([s[i]] + s[i+1..]);
    assert s[i := field] == s[..i] + ([field] + s[i+1..]);
    IdCountAppend(s[..i], [s[i]] + s[i+1..], skillId, lineageId);
    IdCountAppend(s[..i], [field] + s[i+1..], skillId, lineageId);
  }

  /** A prior with a lineage keeps its skill and lineage ids through a merge. */
  lemma ContributionIdentity(k: Kernels, priors: seq<SkillField>, newf: SkillField, claim: Option<(nat, real)>)
    requires claim.Some? && claim.value.0 < |priors| && priors[claim.value.0].lineageId != ""
    requires Contribution(k, priors, newf, claim).Ok?
    ensures HasIds(Contribution(k, priors, newf, claim).value,
                   priors[claim.value.0].skillId, priors[claim.value.0].lineageId)
  {
  }

  /** No durable identity is lost by merging. */
  lemma {:induction false} PlacedIds(priors: seq<SkillField>, al: Alignment, cs: seq<SkillField>, m: nat,
                                     skillId: string, lineageId: string)
    requires m <= |cs| <= |al| && OneClaim(al)
    requires forall j | 0 <= j < |al| && al[j].Some? :: al[j].value.0 < |priors|
    requires forall i | 0 <= i < |cs| && al[i].Some? && HasIds(priors[al[i].value.0], skillId, lineageId) ::
               HasIds(cs[i], skillId, lineageId)
    ensures IdCount(priors, skillId, lineageId) <= IdCount(Placed(priors, al, cs, m), skillId, lineageId)
  {
    if m > 0 {
      PlacedIds(priors, al, cs, m - 1, skillId, lineageId);
      var rest := Placed(priors, al, cs, m - 1);
      match al[m-1]
      case Some((i, _)) =>
        UnclaimedSlot(priors, al, cs, m - 1, i);
        IdCountReplace(rest, i, cs[m-1], skillId, lineageId);
      case None =>
        IdCountAppend(rest, [cs[m-1]], skillId, lineageId);
    }
  }

  lemma {:induction false} InsertKeepsIds(x: SkillField, s: seq<SkillField>, skillId: string, lineageId: string)
    ensures IdCount(Insert(x, s, BySkillId), skillId, lineageId)
         == IdCount(s, skillId, lineageId) + if HasIds(x, skillId, lineageId) then 1 else 0
  {
    if s != [] && !BySkillId(x, s[0]) {
      InsertKeepsIds(x, s[1..], skillId, lineageId);
    }
  }

  lemma {:induction false} SortKeepsIds(s: seq<SkillField>, skillId: string, lineageId: string)
    ensures IdCount(SortBy(s, BySkillId), skillId, lineageId) == IdCount(s, skillId, lineageId)
  {
    if s != [] {
      SortKeepsIds(s[1..], skillId, lineageId);
      InsertKeepsIds(s[0], SortBy(s[1..], BySkillId), skillId, lineageId);
    }
  }

  // ----- support

  /** A field with exact evidence counts that evidence, no more and no less. */
  predicate SupportExact(f: SkillField) {
    f.evidence != [] ==> f.support == |f.evidence|
  }

  /** Merging keeps the count exact unless an evidence-free field adds support to an exact prior. */
  lemma MergedSupport(k: Kernels, prior: SkillField, newf: SkillField, sign: real)
    requires SupportExact(prior) && prior.support <= MAX_U64 && Merged(k, prior, newf, sign).Ok?
    ensures SupportExact(Merged(k, prior, newf, sign).value)
       <==> newf.evidence != [] || prior.evidence == [] || newf.support == 0 || prior.support == MAX_U64
  {
  }

  lemma ContributionSupport(k: Kernels, priors: seq<SkillField>, newf: SkillField, claim: Option<(nat, real)>)
    requires claim.Some? ==> claim.value.0 < |priors|
    requires Contribution(k, priors, newf, claim).Ok?
    requires forall f <- priors :: SupportExact(f) && f.support <= MAX_U64
    ensures SupportExact(Contribution(k, priors, newf, claim).value)
       <==> claim.None? || !InflatesSupport(priors[claim.value.0], newf)
  {
    if claim.Some? {
      MergedSupport(k, priors[claim.value.0], newf, claim.value.1);
    }
  }

  /** Overlapping but different evidence: a merge would count the shared digests twice. */
  predicate PartialOverlap(prior: SkillField, newf: SkillField) {
    Overlap(prior.evidence, newf.evidence) && !SameMembers(prior.evidence, newf.evidence)
  }

  /** Exactly what a merge refuses: repeated digests, partly shared evidence, and, for evidence that is independent
      or absent, a blend that has no direction. */
  lemma MergeRefused(k: Kernels, prior: SkillField, newf: SkillField, sign: real)
    ensures Merged(k, prior, newf, sign).Err?
       <==> || !NoDuplicates(prior.evidence) || !NoDuplicates(newf.evidence) || PartialOverlap(prior, newf)
            || ((newf.evidence == [] || (prior.evidence != [] && !Overlap(prior.evidence, newf.evidence)))
                && MergedDirection(k, prior, newf, sign).Err?)
  {
    if newf.evidence != [] && SameMembers(prior.evidence, newf.evidence) {
      var d := newf.evidence[0];
      assert d in newf.evidence && d in prior.evidence;
      assert Overlap(prior.evidence, newf.evidence);
    }
  }

  /** A list without repeats has as many members as entries. */
  lemma {:induction false} DistinctSize(s: seq<Digest>)
    requires NoDuplicates(s)
    ensures |SetOf(s)| == |s|
  {
    if s != [] {
      var init, last := s[..|s|-1], s[|s|-1];
      DistinctSize(init);
      assert s == init + [last];
      assert SetOf(s) == SetOf(init) + {last};
      assert forall i | 0 <= i < |init| :: init[i] == s[i];
      assert last !in init;
    }
  }

  lemma {:induction false} MissingDistinct(a: seq<Digest>, b: seq<Digest>)
    requires NoDuplicates(b)
    ensures NoDuplicates(Missing(a, b))
  {
    if b != [] {
      assert forall i, j | 0 <= i < j < |b[1..]| :: b[1..][i] == b[i+1] && b[1..][j] == b[j+1];
      MissingDistinct(a, b[1..]);
      assert b[0] !in b[1..];
    }
  }

  lemma AppendDistinct(a: seq<Digest>, b: seq<Digest>)
    requires NoDuplicates(a) && NoDuplicates(b) && forall d <- b :: d !in a
    ensures NoDuplicates(a + b)
  {
    forall i, j | 0 <= i < j < |a + b|
      ensures (a + b)[i] != (a + b)[j]
    {
      if i < |a| <= j {
        assert (a + b)[j] == b[j-|a|] && b[j-|a|] in b;
      }
    }
  }

  /** A rearrangement of a list without repeats has none either. */
  lemma RearrangedDistinct(a: seq<Digest>, b: seq<Digest>)
    requires NoDuplicates(a) && multiset(a) == multiset(b)
    ensures NoDuplicates(b)
  {
    DistinctSize(a);
    assert SetOf(b) == SetOf(a) by {
      forall d
        ensures d in SetOf(a) <==> d in SetOf(b)
      {
        InMultiset(a, b, d);
      }
    }
    assert |a| == |multiset(a)| == |multiset(b)| == |b|;
    FullSizeDistinct(b);
  }

  /** As many members as entries means no repeats. */
  lemma {:induction false} FullSizeDistinct(s: seq<Digest>)
    requires |SetOf(s)| >= |s|
    ensures NoDuplicates(s)
  {
    if s != [] {
      var init, last := s[..|s|-1], s[|s|-1];
      assert s == init + [last];
      assert SetOf(s) == SetOf(init) + {last};
      SizeAtMost(init);
      FullSizeDistinct(init);
      assert last !in SetOf(init);
      forall i, j | 0 <= i < j < |s|
        ensures s[i] != s[j]
      {
        assert s[i] == init[i] && init[i] in init;
      }
    }
  }

  lemma {:induction false} SizeAtMost(s: seq<Digest>)
    ensures |SetOf(s)| <= |s|
  {
    if s != [] {
      var init, last := s[..|s|-1], s[|s|-1];
      SizeAtMost(init);
      assert s == init + [last];
      assert SetOf(s) == SetOf(init) + {last};
    }
  }

  lemma AscendingDistinct(a: seq<Digest>)
    requires NoDuplicates(a)
    ensures NoDuplicates(Ascending(a))
  {
    RearrangedDistinct(a, SortBy(a, DigestLe));
  }

  /** Whatever is written to the bank lists every digest once. */
  lemma ContributionDistinct(k: Kernels, priors: seq<SkillField>, newf: SkillField, claim: Option<(nat, real)>)
    requires claim.Some? ==> claim.value.0 < |priors|
    requires Contribution(k, priors, newf, claim).Ok?
    ensures NoDuplicates(Contribution(k, priors, newf, claim).value.evidence)
  {
    AscendingDistinct(newf.evidence);
    if claim.Some? {
      var prior := priors[claim.value.0].evidence;
      MissingDistinct(prior, newf.evidence);
      AppendDistinct(prior, Missing(prior, newf.evidence));
      AscendingDistinct(prior + Missing(prior, newf.evidence));
    }
  }

  predicate InflatesSupport(prior: SkillField, newf: SkillField) {
    newf.evidence == [] && prior.evidence != [] && newf.support != 0 && prior.support != MAX_U64
  }

  // ----- alignment

  function Similarity(cosine: Gauge.Cosine, prior: SkillField, newf: SkillField): Result<real> {
    cosine(prior.direction, newf.direction)
  }

  /** The claim of incoming field `i` names its assigned prior, and the sign of their cosine. */
  ghost predicate ClaimOf(cosine: Gauge.Cosine, priors: seq<SkillField>, incoming: seq<SkillField>, threshold: real,
                          best: Partial, i: nat, o: nat, sign: real)
    requires |best| == |priors|
  {
    && i < |incoming| && o < |priors| && best[o] == Some(i)
    && Similarity(cosine, priors[o], incoming[i]).Ok?
    && var c := Similarity(cosine, priors[o], incoming[i]).value;
       Abs(c) >= threshold && sign == if c >= 0.0 then 1.0 else -1.0
  }

  /** The assigned pairs of the first `k` priors, cut at the threshold. */
  ghost predicate Cuts(cosine: Gauge.Cosine, priors: seq<SkillField>, incoming: seq<SkillField>, threshold: real,
                       best: Partial, k: nat, al: Alignment)
    requires |best| == |priors| && k <= |priors|
  {
    && |al| == |incoming|
    && (forall i | 0 <= i < |al| && al[i].Some? ::
          && al[i].value.0 < k
          && ClaimOf(cosine, priors, incoming, threshold, best, i, al[i].value.0, al[i].value.1))
    && (forall o, sign | 0 <= o < k && best[o].Some?
                         && ClaimOf(cosine, priors, incoming, threshold, best, best[o].value, o, sign) ::
          al[best[o].value] == Some((o, sign)))
  }

  ghost predicate GoodAlignment(cosine: Gauge.Cosine, priors: seq<SkillField>, incoming: seq<SkillField>,
                                threshold: real, al: Alignment) {
    if priors == [] || incoming == [] then
      |al| == |incoming| && forall i | 0 <= i < |al| :: al[i] == None
    else
      && Gauge.Comparable(cosine, Directions(priors), Directions(incoming))
      && exists best ::
           && Gauge.IsBest(Gauge.AbsCosines(cosine, Directions(priors), Directions(incoming)),
                           |priors|, |incoming|, best)
           && Cuts(cosine, priors, incoming, threshold, best, |priors|, al)
  }

  lemma GoodAlignmentClaims(cosine: Gauge.Cosine, priors: seq<SkillField>, incoming: seq<SkillField>,
                            threshold: real, al: Alignment)
    requires GoodAlignment(cosine, priors, incoming, threshold, al)
    ensures InBounds(al, incoming, priors) && OneClaim(al)
  {
  }

  /** When an alignment exists: a threshold in [0, 1], and directions the cosine can compare. */
  ghost predicate Alignable(cosine: Gauge.Cosine, priors: seq<SkillField>, incoming: seq<SkillField>, threshold: real) {
    && 0.0 <= threshold <= 1.0
    && (incoming != [] && priors != [] ==>
          && Gauge.SameDimension(Directions(priors), Directions(incoming))
          && Gauge.Comparable(cosine, Directions(priors), Directions(incoming)))
  }

  method GlobalFieldAlignment(cosine: Gauge.Cosine, priors: seq<SkillField>, incoming: seq<SkillField>, threshold: real)
    returns (r: Result<Alignment>)
    requires Gauge.CosineRange(cosine)
    ensures r.Ok? <==> Alignable(cosine, priors, incoming, threshold)
    ensures r.Ok? ==> GoodAlignment(cosine, priors, incoming, threshold, r.value)
  {
    if !(0.0 <= threshold <= 1.0) {
      return Err("skill_alignment_threshold_invalid");
    }
    if incoming == [] {
      return Ok([]);
    }
    if priors == [] {
      return Ok(seq(|incoming|, _ => None));
    }
    var aligned := Gauge.AlignBases(cosine, Directions(priors), Directions(incoming));
    if aligned.Err? {
      return Err(aligned.code);
    }
    var al := CutAlignment(cosine, priors, incoming, threshold, aligned.value.assignment);
    r := Ok(al);
  }

  /** Invert the assignment, keeping the pairs that reach the threshold. */
  method CutAlignment(cosine: Gauge.Cosine, priors: seq<SkillField>, incoming: seq<SkillField>, threshold: real,
                      best: Partial)
    returns (al: Alignment)
    requires Gauge.Comparable(cosine, Directions(priors), Directions(incoming))
    requires IsMatching(best, |priors|, |incoming|)
    ensures Cuts(cosine, priors, incoming, threshold, best, |priors|, al)
  {
    al := seq(|incoming|, _ => None);
    for o := 0 to |priors|
      invariant Cuts(cosine, priors, incoming, threshold, best, o, al)
    {
      if best[o].Some? {
        var i := best[o].value;
        assert cosine(Directions(priors)[o], Directions(incoming)[i]).Ok?;
        var c := Similarity(cosine, priors[o], incoming[i]).value;
        var sign := if c >= 0.0 then 1.0 else -1.0;
        if Abs(c) >= threshold {
          assert ClaimOf(cosine, priors, incoming, threshold, best, i, o, sign);
          al := al[i := Some((o, sign))];
        }
      }
    }
  }

  // ----- assimilation

  ghost predicate AllContribute(k: Kernels, priors: seq<SkillField>, incoming: seq<SkillField>, al: Alignment,
                                cs: seq<SkillField>)
    requires InBounds(al, incoming, priors) && |cs| <= |incoming|
  {
    forall i | 0 <= i < |cs| :: Contribution(k, priors, incoming[i], al[i]) == Ok(cs[i])
  }

  /** One successful call, with the alignment and the contributions it computed. */
  ghost predicate AssimilatesBy(k: Kernels, threshold: real, before: Bank, incoming: seq<SkillField>, after: Bank,
                                al: Alignment, cs: seq<SkillField>) {
    && GoodAlignment(k.cosine, before.fields, incoming, threshold, al)
    && InBounds(al, incoming, before.fields) && OneClaim(al)
    && |cs| == |incoming| && AllContribute(k, before.fields, incoming, al, cs)
    && after == NextBank(before.generation, Placed(before.fields, al, cs, |cs|))
  }

  ghost predicate Assimilates(k: Kernels, threshold: real, before: Bank, incoming: seq<SkillField>, after: Bank) {
    exists al, cs :: AssimilatesBy(k, threshold, before, incoming, after, al, cs)
  }

  /** Some incoming field cannot be merged under a best alignment. */
  ghost predicate Refuses(k: Kernels, threshold: real, before: Bank, incoming: seq<SkillField>, code: string) {
    exists al, i: nat {:trigger RefusedAt(k, threshold, before, incoming, code, al, i)} ::
      RefusedAt(k, threshold, before, incoming, code, al, i)
  }

  ghost predicate RefusedAt(k: Kernels, threshold: real, before: Bank, incoming: seq<SkillField>, code: string,
                            al: Alignment, i: nat) {
    && GoodAlignment(k.cosine, before.fields, incoming, threshold, al) && InBounds(al, incoming, before.fields)
    && i < |incoming| && Contribution(k, before.fields, incoming[i], al[i]) == Err(code)
  }

  /** Merge the incoming fields one by one into a working copy; any error abandons the copy. */
  method MergeBatch(k: Kernels, priors: seq<SkillField>, incoming: seq<SkillField>, al: Alignment)
    returns (r: Result<seq<SkillField>>, ghost cs: seq<SkillField>)
    requires InBounds(al, incoming, priors)
    ensures r.Ok? ==> |cs| == |incoming| && AllContribute(k, priors, incoming, al, cs)
    ensures r.Ok? ==> r.value == Placed(priors, al, cs, |cs|)
    ensures r.Err? ==> exists i :: 0 <= i < |incoming| && Contribution(k, priors, incoming[i], al[i]) == Err(r.code)
  {
    var next := priors;
    cs := [];
    for i := 0 to |incoming|
      invariant |cs| == i && AllContribute(k, priors, incoming, al, cs)
      invariant next == Placed(priors, al, cs, i)
    {
      var c := Contribution(k, priors, incoming[i], al[i]);
      if c.Err? {
        return Err(c.code), cs;
      }
      ContributeMore(k, priors, incoming, al, cs, c.value);
      next := PlaceNext(priors, al, i, cs, c.value, next);
      cs := cs + [c.value];
    }
    r := Ok(next);
  }

  lemma ContributeMore(k: Kernels, priors: seq<SkillField>, incoming: seq<SkillField>, al: Alignment,
                       cs: seq<SkillField>, c: SkillField)
    requires InBounds(al, incoming, priors) && |cs| < |incoming| && AllContribute(k, priors, incoming, al, cs)
    requires Contribution(k, priors, incoming[|cs|], al[|cs|]) == Ok(c)
    ensures AllContribute(k, priors, incoming, al, cs + [c])
  {
    forall i | 0 <= i < |cs| + 1
      ensures Contribution(k, priors, incoming[i], al[i]) == Ok((cs + [c])[i])
    {
      if i < |cs| {
        assert (cs + [c])[i] == cs[i];
      }
    }
  }

  /** Replace the matched prior or append. */
  method PlaceNext(priors: seq<SkillField>, al: Alignment, i: nat, ghost cs: seq<SkillField>, c: SkillField,
                   before: seq<SkillField>)
    returns (next: seq<SkillField>)
    requires i == |cs| < |al| && forall j | 0 <= j < |al| && al[j].Some? :: al[j].value.0 < |priors|
    requires before == Placed(priors, al, cs, |cs|)
    ensures next == Placed(priors, al, cs + [c], |cs| + 1)
  {
    PlacedPrefix(priors, al, cs, c, |cs|);
    match al[i]
    case Some((prior, _)) => next := before[prior := c];
    case None => next := before + [c];
  }

  class Store {
    var generation: nat
    var fields: seq<SkillField>

    constructor (bank: Bank)
      ensures State() == bank
    {
      generation, fields := bank.generation, bank.fields;
    }

    function State(): Bank
      reads this
    {
      Bank(generation, fields)
    }

    /** `assimilate_bank`: all or nothing. */
    method Assimilate(k: Kernels, incoming: seq<SkillField>, threshold: real) returns (r: Result<()>)
      requires Gauge.CosineRange(k.cosine)
      modifies this
      ensures r.Err? ==> State() == old(State())
      ensures r.Err? ==> !Alignable(k.cosine, old(State()).fields, incoming, threshold)
                         || Refuses(k, threshold, old(State()), incoming, r.code)
      ensures r.Ok? ==> Assimilates(k, threshold, old(State()), incoming, State())
    {
      ghost var before := State();
      var priors := fields;
      var alignment := GlobalFieldAlignment(k.cosine, priors, incoming, threshold);
      if alignment.Err? {
        return Err(alignment.code);
      }
      var al := alignment.value;
      GoodAlignmentClaims(k.cosine, priors, incoming, threshold, al);
      var next; ghost var cs;
      next, cs := MergeBatch(k, priors, incoming, al);
      if next.Err? {
        ghost var i :| 0 <= i < |incoming| && Contribution(k, priors, incoming[i], al[i]) == Err(next.code);
        assert RefusedAt(k, threshold, before, incoming, next.code, al, i);
        return Err(next.code);
      }
      var bank := NextBank(generation, next.value);
      generation, fields := bank.generation, bank.fields;
      assert AssimilatesBy(k, threshold, before, incoming, State(), al, cs);
      r := Ok(());
    }
  }

  lemma {:induction false} PlacedPrefix(priors: seq<SkillField>, al: Alignment, cs: seq<SkillField>, c: SkillField,
      m: nat)
    requires m <= |cs| < |al|
    requires forall j | 0 <= j < |al| && al[j].Some? :: al[j].value.0 < |priors|
    ensures Placed(priors, al, cs + [c], m) == Placed(priors, al, cs, m)
  {
    if m > 0 {
      PlacedPrefix(priors, al, cs, c, m - 1);
    }
  }

  // ----- what a successful call, and every run of them, guarantees

  lemma EvidenceConserved(k: Kernels, threshold: real, before: Bank, incoming: seq<SkillField>, after: Bank)
    requires Assimilates(k, threshold, before, incoming, after)
    ensures Evidence(after.fields) == Evidence(before.fields) + Evidence(incoming)
  {
    var al: Alignment, cs: seq<SkillField> :| AssimilatesBy(k, threshold, before, incoming, after, al, cs);
    forall i | 0 <= i < |cs|
      ensures CarriesEvidence(before.fields, incoming[i], al[i], cs[i])
    {
      ContributionEvidence(k, before.fields, incoming[i], al[i]);
    }
    PlacedEvidence(before.fields, incoming, al, cs, |cs|);
    assert incoming[..|cs|] == incoming;
    SortKeepsEvidence(Placed(before.fields, al, cs, |cs|));
  }

  lemma IdentitiesKept(k: Kernels, threshold: real, before: Bank, incoming: seq<SkillField>, after: Bank,
                       skillId: string, lineageId: string)
    requires Assimilates(k, threshold, before, incoming, after) && lineageId != ""
    ensures |before.fields| <= |after.fields|
    ensures IdCount(before.fields, skillId, lineageId) <= IdCount(after.fields, skillId, lineageId)
  {
    var al: Alignment, cs: seq<SkillField> :| AssimilatesBy(k, threshold, before, incoming, after, al, cs);
    forall i | 0 <= i < |cs| && al[i].Some? && HasIds(before.fields[al[i].value.0], skillId, lineageId)
      ensures HasIds(cs[i], skillId, lineageId)
    {
      ContributionIdentity(k, before.fields, incoming[i], al[i]);
    }
    PlacedIds(before.fields, al, cs, |cs|, skillId, lineageId);
    SortKeepsIds(Placed(before.fields, al, cs, |cs|), skillId, lineageId);
  }

  lemma GenerationRises(k: Kernels, threshold: real, before: Bank, incoming: seq<SkillField>, after: Bank)
    requires Assimilates(k, threshold, before, incoming, after)
    ensures after.generation >= SaturatingAdd(before.generation, 1)
    ensures forall f <- after.fields :: f.generationCreated <= after.generation
  {
  }

  /** A claimed slot holds the contribution of its only claimant. */
  lemma {:induction false} ClaimedSlot(priors: seq<SkillField>, al: Alignment, cs: seq<SkillField>, m: nat, j: nat)
    requires j < m <= |cs| <= |al| && OneClaim(al) && al[j].Some?
    requires forall i | 0 <= i < |al| && al[i].Some? :: al[i].value.0 < |priors|
    ensures Placed(priors, al, cs, m)[al[j].value.0] == cs[j]
  {
    if j < m - 1 {
      ClaimedSlot(priors, al, cs, m - 1, j);
    }
  }

  /** Every field of the working copy is a prior or a contribution. */
  lemma {:induction false} PlacedOrigin(priors: seq<SkillField>, al: Alignment, cs: seq<SkillField>, m: nat,
      f: SkillField)
    requires m <= |cs| <= |al|
    requires forall i | 0 <= i < |al| && al[i].Some? :: al[i].value.0 < |priors|
    requires f in Placed(priors, al, cs, m)
    ensures f in priors || f in cs
  {
    if m > 0 && f != cs[m-1] {
      PlacedOrigin(priors, al, cs, m - 1, f);
    }
  }

  /** Support stays equal to the evidence count exactly when no evidence-free field adds support to a
      prior whose support is counted. */
  lemma SupportStaysExact(k: Kernels, threshold: real, before: Bank, incoming: seq<SkillField>, after: Bank,
                          al: Alignment, cs: seq<SkillField>)
    requires AssimilatesBy(k, threshold, before, incoming, after, al, cs)
    requires forall f <- before.fields :: SupportExact(f) && f.support <= MAX_U64
    ensures (forall f <- after.fields :: SupportExact(f))
       <==> (forall i | 0 <= i < |al| && al[i].Some? :: !InflatesSupport(before.fields[al[i].value.0], incoming[i]))
  {
    var next := Placed(before.fields, al, cs, |cs|);
    forall f: SkillField
      ensures f in next <==> f in after.fields
    {
      InMultiset(next, SortBy(next, BySkillId), f);
    }
    forall i | 0 <= i < |cs|
      ensures SupportExact(cs[i]) <==> al[i].None? || !InflatesSupport(before.fields[al[i].value.0], incoming[i])
    {
      ContributionSupport(k, before.fields, incoming[i], al[i]);
    }
    forall i | 0 <= i < |al| && al[i].Some?
      ensures cs[i] in next
    {
      ClaimedSlot(before.fields, al, cs, |cs|, i);
    }
    forall f | f in next
      ensures f in before.fields || f in cs
    {
      PlacedOrigin(before.fields, al, cs, |cs|, f);
    }
  }

  /** A bank whose fields list every digest once keeps doing so, hence exact support is a number of observations. */
  lemma EvidenceStaysDistinct(k: Kernels, threshold: real, before: Bank, incoming: seq<SkillField>, after: Bank,
                              f: SkillField)
    requires Assimilates(k, threshold, before, incoming, after) && f in after.fields
    requires forall g <- before.fields :: NoDuplicates(g.evidence)
    ensures NoDuplicates(f.evidence) && |SetOf(f.evidence)| == |f.evidence|
    ensures SupportExact(f) && f.evidence != [] ==> f.support == |SetOf(f.evidence)|
  {
    var al, cs :| AssimilatesBy(k, threshold, before, incoming, after, al, cs);
    var next := Placed(before.fields, al, cs, |cs|);
    InMultiset(next, SortBy(next, BySkillId), f);
    PlacedOrigin(before.fields, al, cs, |cs|, f);
    if f in cs {
      var i :| 0 <= i < |cs| && cs[i] == f;
      ContributionDistinct(k, before.fields, incoming[i], al[i]);
    }
    DistinctSize(f.evidence);
  }

  datatype Batch = Batch(incoming: seq<SkillField>, threshold: real)

  /** A run of successful calls. */
  ghost predicate Run(k: Kernels, banks: seq<Bank>, batches: seq<Batch>) {
    && |banks| == |batches| + 1
    && (forall i | 0 <= i < |batches| ::
          Assimilates(k, batches[i].threshold, banks[i], batches[i].incoming, banks[i+1]))
  }

  ghost function BatchEvidence(batches: seq<Batch>, n: nat): set<Digest>
    requires n <= |batches|
  {
    if n == 0 then {} else BatchEvidence(batches, n - 1) + Evidence(batches[n-1].incoming)
  }

  /** Along every run no evidence is lost or invented, no durable identity disappears, no field is dropped,
      and the generation rises at each step until it saturates. */
  lemma {:induction false} RunConserves(k: Kernels, banks: seq<Bank>, batches: seq<Batch>, n: nat,
                                        skillId: string, lineageId: string)
    requires Run(k, banks, batches) && n <= |batches| && lineageId != ""
    ensures Evidence(banks[n].fields) == Evidence(banks[0].fields) + BatchEvidence(batches, n)
    ensures IdCount(banks[0].fields, skillId, lineageId) <= IdCount(banks[n].fields, skillId, lineageId)
    ensures |banks[0].fields| <= |banks[n].fields|
    ensures banks[n].generation >= SaturatingAdd(banks[0].generation, n)
    ensures n > 0 ==> forall f <- banks[n].fields :: f.generationCreated <= banks[n].generation
  {
    if n > 0 {
      RunConserves(k, banks, batches, n - 1, skillId, lineageId);
      var b := batches[n-1];
      assert Assimilates(k, b.threshold, banks[n-1], b.incoming, banks[n]);
      EvidenceConserved(k, b.threshold, banks[n-1], b.incoming, banks[n]);
      IdentitiesKept(k, b.threshold, banks[n-1], b.incoming, banks[n], skillId, lineageId);
      GenerationRises(k, b.threshold, banks[n-1], b.incoming, banks[n]);
    }
  }

  // ----- support along runs

  predicate AllExact(fields: seq<SkillField>) {
    forall f <- fields :: SupportExact(f)
  }

  predicate AllDistinct(fields: seq<SkillField>) {
    forall f <- fields :: NoDuplicates(f.evidence)
  }

  /** A field with evidence is written with exact support, whatever the prior's support was. */
  lemma ContributionExact(k: Kernels, priors: seq<SkillField>, newf: SkillField, claim: Option<(nat, real)>)
    requires claim.Some? ==> claim.value.0 < |priors|
    requires Contribution(k, priors, newf, claim).Ok? && newf.evidence != []
    ensures SupportExact(Contribution(k, priors, newf, claim).value)
  {
  }

  /** Every field of the new bank is an untouched prior or a contribution. */
  lemma FieldOrigin(k: Kernels, threshold: real, before: Bank, incoming: seq<SkillField>, after: Bank,
                    al: Alignment, cs: seq<SkillField>, f: SkillField)
    requires AssimilatesBy(k, threshold, before, incoming, after, al, cs) && f in after.fields
    ensures f in before.fields || f in cs
  {
    var next := Placed(before.fields, al, cs, |cs|);
    InMultiset(next, SortBy(next, BySkillId), f);
    PlacedOrigin(before.fields, al, cs, |cs|, f);
  }

  predicate AllCarryEvidence(fields: seq<SkillField>) {
    forall f <- fields :: f.evidence != []
  }

  lemma EvidenceKeepsSupport(k: Kernels, threshold: real, before: Bank, incoming: seq<SkillField>, after: Bank)
    requires Assimilates(k, threshold, before, incoming, after)
    requires AllExact(before.fields) && AllCarryEvidence(incoming)
    ensures AllExact(after.fields)
  {
    var al, cs :| AssimilatesBy(k, threshold, before, incoming, after, al, cs);
    forall f <- after.fields
      ensures SupportExact(f)
    {
      FieldOrigin(k, threshold, before, incoming, after, al, cs, f);
      if f in cs {
        var i :| 0 <= i < |cs| && cs[i] == f;
        ContributionExact(k, before.fields, incoming[i], al[i]);
      }
    }
  }

  /** Along every run whose incoming fields all carry evidence, support stays the evidence count. */
  lemma {:induction false} RunKeepsSupport(k: Kernels, banks: seq<Bank>, batches: seq<Batch>, n: nat)
    requires Run(k, banks, batches) && n <= |batches| && AllExact(banks[0].fields)
    requires forall i | 0 <= i < n :: AllCarryEvidence(batches[i].incoming)
    ensures AllExact(banks[n].fields)
  {
    if n > 0 {
      RunKeepsSupport(k, banks, batches, n - 1);
      var b := batches[n-1];
      EvidenceKeepsSupport(k, b.threshold, banks[n-1], b.incoming, banks[n]);
    }
  }

  lemma CallKeepsDistinct(k: Kernels, threshold: real, before: Bank, incoming: seq<SkillField>, after: Bank)
    requires Assimilates(k, threshold, before, incoming, after) && AllDistinct(before.fields)
    ensures AllDistinct(after.fields)
  {
    forall f <- after.fields
      ensures NoDuplicates(f.evidence)
    {
      EvidenceStaysDistinct(k, threshold, before, incoming, after, f);
    }
  }

  /** Along every run no field lists a digest twice. */
  lemma {:induction false} RunKeepsDistinct(k: Kernels, banks: seq<Bank>, batches: seq<Batch>, n: nat)
    requires Run(k, banks, batches) && n <= |batches| && AllDistinct(banks[0].fields)
    ensures AllDistinct(banks[n].fields)
  {
    if n > 0 {
      RunKeepsDistinct(k, banks, batches, n - 1);
      var b := batches[n-1];
      CallKeepsDistinct(k, b.threshold, banks[n-1], b.incoming, banks[n]);
    }
  }

  /** Both together: support is the number of distinct observations behind a field, at every moment of the run. */
  lemma RunCountsObservations(k: Kernels, banks: seq<Bank>, batches: seq<Batch>, n: nat, f: SkillField)
    requires Run(k, banks, batches) && n <= |batches| && f in banks[n].fields
    requires AllExact(banks[0].fields) && AllDistinct(banks[0].fields)
    requires forall i | 0 <= i < n :: AllCarryEvidence(batches[i].incoming)
    ensures f.evidence != [] ==> f.support == |SetOf(f.evidence)|
  {
    RunKeepsSupport(k, banks, batches, n);
    RunKeepsDistinct(k, banks, batches, n);
    DistinctSize(f.evidence);
  }

  // ----- when a call may inflate support

  /** Kernels that find every pair of directions alike. */
  function Alike(): Kernels {
    Kernels((a, b) => Ok(1.0), v => Ok(v))
  }

  /** Incoming field 0 is matched with prior `p`, and nothing else. */
  function OnlyPair(rows: nat, p: nat): (m: Partial)
    ensures |m| == rows && forall i | 0 <= i < rows :: m[i] == if i == p then Some(0) else None
  {
    seq(rows, i => if i == p then Some(0) else None)
  }

  lemma {:induction false} OnlyPairRows(rows: nat, p: nat, k: nat)
    requires p < rows && k <= rows
    ensures MatchedRows(OnlyPair(rows, p), k) == if p < k then {p} else {}
  {
    if k > 0 {
      OnlyPairRows(rows, p, k - 1);
    }
  }

  lemma {:induction false} OnesScore(w: Matrix, m: Partial, rows: nat, k: nat)
    requires Shape(w, rows, 1) && IsMatching(m, rows, 1) && k <= rows
    requires forall i | 0 <= i < rows :: w[i][0] == 1.0
    ensures Score(w, m, k) == |MatchedRows(m, k)| as real
  {
    if k > 0 {
      OnesScore(w, m, rows, k - 1);
      InMatchedRows(m, k - 1, k - 1);
    }
  }

  lemma OneColumnRows(m: Partial, rows: nat)
    requires IsMatching(m, rows, 1)
    ensures |MatchedRows(m, rows)| <= 1
  {
    ColumnsSize(m, rows, 1, rows);
    SubsetSize(Columns(m, rows), {0});
  }

  lemma OnlyPairBest(w: Matrix, rows: nat, p: nat)
    requires p < rows && Shape(w, rows, 1) && forall i | 0 <= i < rows :: w[i][0] == 1.0
    ensures Gauge.IsBest(w, rows, 1, OnlyPair(rows, p))
  {
    var best := OnlyPair(rows, p);
    OnlyPairRows(rows, p, rows);
    OnesScore(w, best, rows, rows);
    forall m | IsMatching(m, rows, 1)
      ensures Score(w, m, rows) <= Score(w, best, rows)
    {
      OnesScore(w, m, rows, rows);
      OneColumnRows(m, rows);
    }
  }

  lemma AlikeAligns(priors: seq<SkillField>, newf: SkillField, p: nat)
    requires p < |priors|
    ensures GoodAlignment(Alike().cosine, priors, [newf], 0.0, [Some((p, 1.0))])
  {
    var cosine, rows := Alike().cosine, |priors|;
    var w := Gauge.AbsCosines(cosine, Directions(priors), Directions([newf]));
    OnlyPairBest(w, rows, p);
    var best, al := OnlyPair(rows, p), [Some((p, 1.0))];
    assert ClaimOf(cosine, priors, [newf], 0.0, best, 0, p, 1.0);
    assert Cuts(cosine, priors, [newf], 0.0, best, rows, al);
  }

  /** What assimilating the field into prior `p` makes of the bank. */
  function AlikeAfter(before: Bank, p: nat, c: SkillField): Bank
    requires p < |before.fields|
  {
    NextBank(before.generation, before.fields[p := c])
  }

  lemma AlikeAssimilates(before: Bank, newf: SkillField, p: nat, c: SkillField)
    requires p < |before.fields| && Merged(Alike(), before.fields[p], newf, 1.0) == Ok(c)
    ensures Assimilates(Alike(), 0.0, before, [newf], AlikeAfter(before, p, c))
    ensures c in AlikeAfter(before, p, c).fields
  {
    var al: Alignment, cs := [Some((p, 1.0))], [c];
    AlikeBy(before, newf, p, c, AlikeAfter(before, p, c), al, cs);
    AssimilatedBy(Alike(), 0.0, before, [newf], AlikeAfter(before, p, c), al, cs);
    StillThere(before.fields[p := c], p);
  }

  lemma AssimilatedBy(k: Kernels, threshold: real, before: Bank, incoming: seq<SkillField>, after: Bank, al: Alignment,
                      cs: seq<SkillField>)
    requires AssimilatesBy(k, threshold, before, incoming, after, al, cs)
    ensures Assimilates(k, threshold, before, incoming, after)
  {
  }

  lemma AlikeBy(before: Bank, newf: SkillField, p: nat, c: SkillField, after: Bank, al: Alignment,
                cs: seq<SkillField>)
    requires p < |before.fields| && Merged(Alike(), before.fields[p], newf, 1.0) == Ok(c)
    requires al == [Some((p, 1.0))] && cs == [c] && after == AlikeAfter(before, p, c)
    ensures AssimilatesBy(Alike(), 0.0, before, [newf], after, al, cs)
  {
    AlikeAligns(before.fields, newf, p);
    OnlyPlaced(before.fields, p, c);
    AlikeContributes(before.fields, newf, p, c);
  }

  lemma AlikeContributes(priors: seq<SkillField>, newf: SkillField, p: nat, c: SkillField)
    requires p < |priors| && Merged(Alike(), priors[p], newf, 1.0) == Ok(c)
    ensures InBounds([Some((p, 1.0))], [newf], priors) && OneClaim([Some((p, 1.0))])
    ensures AllContribute(Alike(), priors, [newf], [Some((p, 1.0))], [c])
  {
  }

  lemma OnlyPlaced(priors: seq<SkillField>, p: nat, c: SkillField)
    requires p < |priors|
    ensures Placed(priors, [Some((p, 1.0))], [c], 1) == priors[p := c]
  {
    assert Placed(priors, [Some((p, 1.0))], [c], 0) == priors;
  }

  lemma StillThere(next: seq<SkillField>, p: nat)
    requires p < |next|
    ensures next[p] in SortBy(next, BySkillId)
  {
    InMultiset(next, SortBy(next, BySkillId), next[p]);
  }

  /** Every successful call on this bank and this field keeps support exact. */
  ghost predicate AlwaysExact(before: Bank, newf: SkillField) {
    forall k, threshold, after {:trigger Assimilates(k, threshold, before, [newf], after)} |
      Assimilates(k, threshold, before, [newf], after) :: AllExact(after.fields)
  }

  /** Decided before the call, from the bank and the field alone: support is sure to stay exact if and only if the
      field inflates no prior, that is, unless it has support but no evidence and some prior has evidence. */
  lemma ExactIffNothingInflates(before: Bank, newf: SkillField)
    requires AllExact(before.fields) && AllDistinct(before.fields)
    requires forall f <- before.fields :: f.support <= MAX_U64
    ensures AlwaysExact(before, newf) <==> forall f <- before.fields :: !InflatesSupport(f, newf)
  {
    if forall f <- before.fields :: !InflatesSupport(f, newf) {
      forall k, threshold, after | Assimilates(k, threshold, before, [newf], after)
        ensures AllExact(after.fields)
      {
        var al, cs :| AssimilatesBy(k, threshold, before, [newf], after, al, cs);
        SupportStaysExact(k, threshold, before, [newf], after, al, cs);
      }
    } else {
      var f :| f in before.fields && InflatesSupport(f, newf);
      var p :| 0 <= p < |before.fields| && before.fields[p] == f;
      InflatedByMerge(f, newf);
      AlikeAssimilates(before, newf, p, Merged(Alike(), f, newf, 1.0).value);
    }
  }

  lemma InflatedByMerge(prior: SkillField, newf: SkillField)
    requires SupportExact(prior) && NoDuplicates(prior.evidence) && prior.support <= MAX_U64
    requires InflatesSupport(prior, newf)
    ensures Merged(Alike(), prior, newf, 1.0).Ok?
    ensures !SupportExact(Merged(Alike(), prior, newf, 1.0).value)
    ensures Merged(Alike(), prior, newf, 1.0).value.evidence == prior.evidence
    ensures Merged(Alike(), prior, newf, 1.0).value.support == SaturatingAdd(prior.support, newf.support)
  {
  }

  const BLANK := Attachments("", "", "", [])

  /** A skill seen once, with its evidence. */
  const SEEN_ONCE := SkillField("skill", "first", "line", 1, [1.0], BLANK, 1.0, 1.0, 1.0, 1.0, 0.0, [7], 1, [], [])

  /** The same direction reported without evidence. */
  const REPORTED := SkillField("other", "second", "line", 2, [1.0], BLANK, 1.0, 1.0, 1.0, 1.0, 0.0, [], 1, [], [])

  /** A bank with exact support, one batch, and a successful call after which a field with one digest has support 2. */
  lemma InflatedExample() returns (after: Bank, f: SkillField)
    ensures AllExact([SEEN_ONCE]) && Assimilates(Alike(), 0.0, Bank(1, [SEEN_ONCE]), [REPORTED], after)
    ensures f in after.fields && f.evidence == [7] && f.support == 2
  {
    InflatedByMerge(SEEN_ONCE, REPORTED);
    f := Merged(Alike(), SEEN_ONCE, REPORTED, 1.0).value;
    after := AlikeAfter(Bank(1, [SEEN_ONCE]), 0, f);
    AlikeAssimilates(Bank(1, [SEEN_ONCE]), REPORTED, 0, f);
  }
}
