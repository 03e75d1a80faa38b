/** No skill id is ever forgotten: every id a field carried, or absorbed, is still its id or one of its parents. */
module Ancestry {
  import opened Prelude
  import opened Sorting
  import opened SkillBank
  import Text

  /** The ids a field stands for: its own and those it absorbed. */
  function Known(f: SkillField): (s: set<string>) {
    {f.skillId} + set p | p in f.parents
  }

  function Ids(fields: seq<SkillField>): set<string> {
    set f, id | f in fields && id in Known(f) :: id
  }

  // ----- one merge

  lemma {:induction false} DedupMembers(s: seq<string>, x: string)
    ensures x in Dedup(s) <==> x in s
  {
    if |s| >= 2 {
      DedupMembers(s[1..], x);
      assert s == [s[0]] + s[1..];
    }
  }

  /** Strictly ascending: each below, and different from, everything after it. */
  ghost predicate StrictlyAscending(s: seq<string>) {
    forall i, j | 0 <= i < j < |s| :: Text.Le(s[i], s[j]) && s[i] != s[j]
  }

  lemma {:induction false} DedupStrict(s: seq<string>)
    requires Sorted(s, Text.Le)
    ensures StrictlyAscending(Dedup(s))
    ensures s != [] ==> Dedup(s) != [] && Dedup(s)[0] == s[0]
  {
    if |s| >= 2 {
      TailSorted(s);
      DedupStrict(s[1..]);
      if s[0] != s[1] {
        HeadBelow(s);
      }
    }
  }

  lemma TailSorted(s: seq<string>)
    requires s != [] && Sorted(s, Text.Le)
    ensures Sorted(s[1..], Text.Le)
  {
  }

  /** A head different from the next entry is below everything that is left. */
  lemma HeadBelow(s: seq<string>)
    requires |s| >= 2 && Sorted(s, Text.Le) && s[0] != s[1] && StrictlyAscending(Dedup(s[1..]))
    ensures StrictlyAscending([s[0]] + Dedup(s[1..]))
  {
    forall j | 0 <= j < |Dedup(s[1..])|
      ensures Text.Le(s[0], Dedup(s[1..])[j]) && s[0] != Dedup(s[1..])[j]
    {
      DedupMembers(s[1..], Dedup(s[1..])[j]);
      HeadBelowLater(s, Dedup(s[1..])[j]);
    }
  }

  lemma HeadBelowLater(s: seq<string>, x: string)
    requires |s| >= 2 && Sorted(s, Text.Le) && s[0] != s[1] && x in s[1..]
    ensures Text.Le(s[0], x) && s[0] != x
  {
    var i :| 1 <= i < |s| && s[i] == x;
    assert Text.Le(s[0], s[i]) && Text.Le(s[0], s[1]);
    if x == s[0] && i > 1 {
      assert Text.Le(s[1], s[i]);
      Text.LeAntisymmetric(s[0], s[1]);
    }
  }

  /** The ids a merge may list as parents. */
  function Candidates(prior: SkillField, newf: SkillField): seq<string> {
    var kept := DurableIdentity(prior, newf).0;
    WithParent(WithParent(prior.parents, prior.skillId, kept), newf.skillId, kept)
  }

  lemma CandidateMembers(prior: SkillField, newf: SkillField, kept: string, id: string)
    requires kept == DurableIdentity(prior, newf).0
    ensures kept == prior.skillId || kept == newf.skillId
    ensures id in Candidates(prior, newf) <==>
            id in prior.parents || ((id == prior.skillId || id == newf.skillId) && id != kept)
  {
    ParentMember(prior.parents, prior.skillId, kept, id);
    ParentMember(WithParent(prior.parents, prior.skillId, kept), newf.skillId, kept, id);
  }

  lemma ParentMember(parents: seq<string>, x: string, kept: string, id: string)
    ensures id in WithParent(parents, x, kept) <==> id in parents || (id == x && id != kept)
  {
  }

  lemma {:induction false} TidiedMembers(all: seq<string>, id: string)
    ensures id in Dedup(SortBy(all, Text.Le)) <==> id in all
  {
    DedupMembers(SortBy(all, Text.Le), id);
    InMultiset(all, SortBy(all, Text.Le), id);
  }

  lemma TidiedStrict(all: seq<string>)
    ensures StrictlyAscending(Dedup(SortBy(all, Text.Le)))
  {
    Text.LeOrders();
    SortBySorted(all, Text.Le);
    DedupStrict(SortBy(all, Text.Le));
  }

  /** The parents after a merge: those of the prior and whichever of the two ids was given up, once each, ascending. */
  lemma MergedParents(prior: SkillField, newf: SkillField, kept: string, parents: seq<string>)
    requires kept == DurableIdentity(prior, newf).0 && parents == DurableIdentity(prior, newf).2
    ensures StrictlyAscending(parents) && (kept == prior.skillId || kept == newf.skillId)
    ensures forall id :: id in parents <==>
              id in prior.parents || ((id == prior.skillId || id == newf.skillId) && id != kept)
  {
    TidiedStrict(Candidates(prior, newf));
    forall id
      ensures kept == prior.skillId || kept == newf.skillId
      ensures id in parents <==>
              id in prior.parents || ((id == prior.skillId || id == newf.skillId) && id != kept)
    {
      TidiedMembers(Candidates(prior, newf), id);
      CandidateMembers(prior, newf, kept, id);
    }
  }

  ghost predicate HasIdentity(c: SkillField, identity: (string, string, seq<string>)) {
    c.skillId == identity.0 && c.lineageId == identity.1 && c.parents == identity.2
  }

  lemma ReplacedIds(prior: SkillField, newf: SkillField, sign: real)
    ensures HasIdentity(Replacement(prior, newf, sign), DurableIdentity(prior, newf))
  {
  }

  lemma AbsorbedIds(prior: SkillField, newf: SkillField, direction: seq<real>)
    ensures HasIdentity(Absorbed(prior, newf, direction), DurableIdentity(prior, newf))
  {
  }

  lemma MergedIds(k: Kernels, prior: SkillField, newf: SkillField, sign: real, c: SkillField)
    requires Merged(k, prior, newf, sign) == Ok(c)
    ensures HasIdentity(c, DurableIdentity(prior, newf))
  {
    ReplacedIds(prior, newf, sign);
    if MergedDirection(k, prior, newf, sign).Ok? {
      AbsorbedIds(prior, newf, MergedDirection(k, prior, newf, sign).value);
    }
  }

  /** A merged field stands for all its prior stood for, and for the incoming id. */
  lemma MergedKnows(k: Kernels, prior: SkillField, newf: SkillField, sign: real, c: SkillField)
    requires Merged(k, prior, newf, sign) == Ok(c)
    ensures Known(c) == Known(prior) + {newf.skillId}
  {
    MergedIds(k, prior, newf, sign, c);
    MergedParents(prior, newf, c.skillId, c.parents);
    KnownAre(prior, newf, c);
  }

  lemma KnownAre(prior: SkillField, newf: SkillField, c: SkillField)
    requires c.skillId == prior.skillId || c.skillId == newf.skillId
    requires forall id :: id in c.parents <==>
               id in prior.parents || ((id == prior.skillId || id == newf.skillId) && id != c.skillId)
    ensures Known(c) == Known(prior) + {newf.skillId}
  {
  }

  // ----- one call

  /** What a contribution stands for. */
  function Stands(priors: seq<SkillField>, newf: SkillField, claim: Option<(nat, real)>): set<string>
    requires claim.Some? ==> claim.value.0 < |priors|
  {
    match claim
    case None => Known(newf)
    case Some((i, _)) => Known(priors[i]) + {newf.skillId}
  }

  lemma ContributionKnows(k: Kernels, priors: seq<SkillField>, newf: SkillField, claim: Option<(nat, real)>,
                          c: SkillField)
    requires (claim.Some? ==> claim.value.0 < |priors|) && Contribution(k, priors, newf, claim) == Ok(c)
    ensures Known(c) == Stands(priors, newf, claim)
  {
    match claim
    case None => FreshKnows(newf, c);
    case Some((i, sign)) => MergedKnows(k, priors[i], newf, sign, c);
  }

  lemma FreshKnows(newf: SkillField, c: SkillField)
    requires Fresh(newf) == Ok(c)
    ensures Known(c) == Known(newf)
  {
  }

  ghost predicate AllKnow(priors: seq<SkillField>, incoming: seq<SkillField>, al: Alignment, cs: seq<SkillField>)
    requires InBounds(al, incoming, priors) && |cs| <= |incoming|
  {
    forall j | 0 <= j < |cs| :: Known(cs[j]) == Stands(priors, incoming[j], al[j])
  }

  lemma ContributionsKnow(k: Kernels, priors: seq<SkillField>, incoming: seq<SkillField>, al: Alignment,
                          cs: seq<SkillField>)
    requires InBounds(al, incoming, priors) && |cs| <= |incoming| && AllContribute(k, priors, incoming, al, cs)
    ensures AllKnow(priors, incoming, al, cs)
  {
    forall j | 0 <= j < |cs|
      ensures Known(cs[j]) == Stands(priors, incoming[j], al[j])
    {
      ContributionKnows(k, priors, incoming[j], al[j], cs[j]);
    }
  }

  /** Every prior's ids are still in its slot. */
  lemma {:induction false} SlotKnows(priors: seq<SkillField>, incoming: seq<SkillField>, al: Alignment,
                                     cs: seq<SkillField>, m: nat, i: nat)
    requires InBounds(al, incoming, priors) && |cs| <= |incoming| && AllKnow(priors, incoming, al, cs)
    requires m <= |cs| && i < |priors|
    ensures Known(priors[i]) <= Known(Placed(priors, al, cs, m)[i])
  {
    if m > 0 {
      SlotKnows(priors, incoming, al, cs, m - 1, i);
      assert Known(cs[m-1]) == Stands(priors, incoming[m-1], al[m-1]);
    }
  }

  lemma IdIn(fields: seq<SkillField>, f: SkillField, id: string)
    requires f in fields && id in Known(f)
    ensures id in Ids(fields)
  {
  }

  lemma SortKeepsIdSet(fields: seq<SkillField>)
    ensures Ids(SortBy(fields, BySkillId)) == Ids(fields)
  {
    forall f: SkillField
      ensures f in fields <==> f in SortBy(fields, BySkillId)
    {
      InMultiset(fields, SortBy(fields, BySkillId), f);
    }
  }

  /** The contribution of incoming field `j` is in the working copy from then on, in its slot or behind the priors. */
  lemma {:induction false} StillPlaced(priors: seq<SkillField>, al: Alignment, cs: seq<SkillField>, m: nat, j: nat)
    requires j < m <= |cs| <= |al| && OneClaim(al)
    requires forall i | 0 <= i < |al| && al[i].Some? :: al[i].value.0 < |priors|
    ensures cs[j] in Placed(priors, al, cs, m)
  {
    if al[j].Some? {
      ClaimedSlot(priors, al, cs, m, j);
    } else if j == m - 1 {
      assert Placed(priors, al, cs, m)[|Placed(priors, al, cs, m - 1)|] == cs[j];
    } else {
      var i := BehindPriors(priors, al, cs, m, j);
    }
  }

  lemma {:induction false} BehindPriors(priors: seq<SkillField>, al: Alignment, cs: seq<SkillField>, m: nat, j: nat)
    returns (i: nat)
    requires j < m <= |cs| <= |al| && al[j].None?
    requires forall i | 0 <= i < |al| && al[i].Some? :: al[i].value.0 < |priors|
    ensures |priors| <= i < |Placed(priors, al, cs, m)| && Placed(priors, al, cs, m)[i] == cs[j]
  {
    if j == m - 1 {
      i := |Placed(priors, al, cs, m - 1)|;
    } else {
      i := BehindPriors(priors, al, cs, m - 1, j);
    }
  }

  lemma PlacedKeepsIds(priors: seq<SkillField>, incoming: seq<SkillField>, al: Alignment, cs: seq<SkillField>,
                       next: seq<SkillField>)
    requires InBounds(al, incoming, priors) && |cs| == |incoming| && AllKnow(priors, incoming, al, cs)
    requires next == Placed(priors, al, cs, |cs|)
    ensures Ids(priors) <= Ids(next)
  {
    forall id | id in Ids(priors)
      ensures id in Ids(next)
    {
      var f :| f in priors && id in Known(f);
      var i :| 0 <= i < |priors| && priors[i] == f;
      SlotKnows(priors, incoming, al, cs, |cs|, i);
      IdIn(next, next[i], id);
    }
  }

  /** The bank stands for the id of every one of these fields. */
  ghost predicate Remembers(fields: seq<SkillField>, incoming: seq<SkillField>) {
    forall f <- incoming :: f.skillId in Ids(fields)
  }

  lemma PlacedRemembers(priors: seq<SkillField>, incoming: seq<SkillField>, al: Alignment, cs: seq<SkillField>,
                        next: seq<SkillField>)
    requires InBounds(al, incoming, priors) && OneClaim(al) && |cs| == |incoming|
    requires AllKnow(priors, incoming, al, cs) && next == Placed(priors, al, cs, |cs|)
    ensures Remembers(next, incoming)
  {
    forall f | f in incoming
      ensures f.skillId in Ids(next)
    {
      var j :| 0 <= j < |incoming| && incoming[j] == f;
      assert Known(cs[j]) == Stands(priors, incoming[j], al[j]);
      StillPlaced(priors, al, cs, |cs|, j);
      IdIn(next, cs[j], f.skillId);
    }
  }

  /** After a successful call the bank stands for every id it stood for before and for every incoming field's id. */
  lemma CallKeepsIds(k: Kernels, threshold: real, before: Bank, incoming: seq<SkillField>, after: Bank)
    requires Assimilates(k, threshold, before, incoming, after)
    ensures Ids(before.fields) <= Ids(after.fields) && Remembers(after.fields, incoming)
  {
    var al, cs :| AssimilatesBy(k, threshold, before, incoming, after, al, cs);
    var next := Placed(before.fields, al, cs, |cs|);
    ContributionsKnow(k, before.fields, incoming, al, cs);
    PlacedKeepsIds(before.fields, incoming, al, cs, next);
    PlacedRemembers(before.fields, incoming, al, cs, next);
    SortKeepsIdSet(next);
  }

  /** Step `i` forgets nothing and remembers what it brought. */
  ghost predicate StepKeeps(banks: seq<Bank>, batches: seq<Batch>, i: nat)
    requires |banks| == |batches| + 1 && i < |batches|
  {
    Ids(banks[i].fields) <= Ids(banks[i+1].fields) && Remembers(banks[i+1].fields, batches[i].incoming)
  }

  lemma {:induction false} StepsKeepIds(banks: seq<Bank>, batches: seq<Batch>, m: nat, n: nat)
    requires |banks| == |batches| + 1 && m <= n <= |batches|
    requires forall i {:trigger StepKeeps(banks, batches, i)} | 0 <= i < |batches| :: StepKeeps(banks, batches, i)
    ensures Ids(banks[m].fields) <= Ids(banks[n].fields)
    ensures m < n ==> Remembers(banks[n].fields, batches[m].incoming)
  {
    if m < n {
      StepsKeepIds(banks, batches, m, n - 1);
      assert StepKeeps(banks, batches, n - 1);
      StillRemembers(banks[n-1].fields, banks[n].fields, batches[m].incoming);
    }
  }

  lemma StillRemembers(fields: seq<SkillField>, later: seq<SkillField>, incoming: seq<SkillField>)
    requires Ids(fields) <= Ids(later)
    ensures Remembers(fields, incoming) ==> Remembers(later, incoming)
  {
  }

  /** Along every run no id is forgotten: neither what the bank stood for, nor what any batch brought. */
  lemma RunKeepsIds(k: Kernels, banks: seq<Bank>, batches: seq<Batch>, m: nat, n: nat)
    requires Run(k, banks, batches) && m <= n <= |batches|
    ensures Ids(banks[m].fields) <= Ids(banks[n].fields)
    ensures m < n ==> Remembers(banks[n].fields, batches[m].incoming)
  {
    forall i | 0 <= i < |batches|
      ensures StepKeeps(banks, batches, i)
    {
      CallKeepsIds(k, batches[i].threshold, banks[i], batches[i].incoming, banks[i+1]);
    }
    StepsKeepIds(banks, batches, m, n);
  }
}
