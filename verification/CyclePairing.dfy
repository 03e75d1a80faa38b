/** Which cycle a triangle closes: the youngest one that is still open, so that bars never cross. */
module CyclePairing {
  import opened Prelude
  import opened Sorting
  import opened EventOrder
  import opened Persistence

  // ----- which events close a bar, and how many have

  /** The cycles open after the first `t` events, counted without saying which they are. */
  ghost function OpenCount(ev: seq<Event>, t: nat): nat
    requires t <= |ev|
  {
    if t == 0 then 0
    else if Closes(ev, t - 1) then OpenCount(ev, t - 1) + 1
    else if ev[t-1].TriangleEvent? && OpenCount(ev, t - 1) > 0 then OpenCount(ev, t - 1) - 1
    else OpenCount(ev, t - 1)
  }

  /** Event `t` is a triangle that finds an open cycle. */
  ghost predicate Fires(ev: seq<Event>, t: nat)
    requires t < |ev|
  {
    ev[t].TriangleEvent? && OpenCount(ev, t) > 0
  }

  /** How many of the first `t` events closed a bar. */
  ghost function FiredUpTo(ev: seq<Event>, t: nat): (c: nat)
    requires t <= |ev|
    ensures c <= t
  {
    if t == 0 then 0 else FiredUpTo(ev, t - 1) + if Fires(ev, t - 1) then 1 else 0
  }

  lemma {:induction false} FiredMonotone(ev: seq<Event>, s: nat, t: nat)
    requires s <= t <= |ev|
    ensures FiredUpTo(ev, s) <= FiredUpTo(ev, t)
    ensures s < t && Fires(ev, s) ==> FiredUpTo(ev, s) < FiredUpTo(ev, t)
  {
    if s < t {
      FiredMonotone(ev, s, t - 1);
    }
  }

  // ----- the pairing, without the stack

  /** The births among the first `t` events that none of the bars closed before event `t` took. */
  ghost function Alive(ev: seq<Event>, pairs: seq<Pair>, t: nat): multiset<real>
    requires t <= |ev| && FiredUpTo(ev, t) <= |pairs|
  {
    Births(ev, t) - multiset(Starts(pairs[..FiredUpTo(ev, t)]))
  }

  /** The bar that event `t` closes dies there and was born last of all the cycles still open. */
  ghost predicate YoungestAt(ev: seq<Event>, pairs: seq<Pair>, t: nat)
    requires t < |ev| && FiredUpTo(ev, t) < |pairs|
  {
    var bar := pairs[FiredUpTo(ev, t)];
    bar.1 == ev[t].dist && bar.0 in Alive(ev, pairs, t) && forall b <- Alive(ev, pairs, t) :: b <= bar.0
  }

  /** Every triangle that finds an open cycle closes the youngest one; no other event closes any. */
  ghost predicate PairsYoungest(ev: seq<Event>, pairs: seq<Pair>) {
    && |pairs| == FiredUpTo(ev, |ev|)
    && (forall t {:trigger YoungestAt(ev, pairs, t)} | 0 <= t < |ev| && Fires(ev, t) ::
          FiredUpTo(ev, t) < |pairs| && YoungestAt(ev, pairs, t))
  }

  ghost predicate Agree(p: seq<Pair>, q: seq<Pair>, c: nat) {
    c <= |p| && c <= |q| && p[..c] == q[..c]
  }

  lemma AgreeMore(p: seq<Pair>, q: seq<Pair>, c: nat)
    requires Agree(p, q, c) && c < |p| && c < |q| && p[c] == q[c]
    ensures Agree(p, q, c + 1)
  {
    assert p[..c+1] == p[..c] + [p[c]] && q[..c+1] == q[..c] + [q[c]];
  }

  /** The same births are alive after the same bars, so the same bar closes next. */
  lemma SameBar(ev: seq<Event>, p: seq<Pair>, q: seq<Pair>, t: nat, c: nat)
    requires t < |ev| && c == FiredUpTo(ev, t) && c < |p| && c < |q|
    requires Agree(p, q, c) && YoungestAt(ev, p, t) && YoungestAt(ev, q, t)
    ensures p[c] == q[c]
  {
    assert Alive(ev, p, t) == Alive(ev, q, t);
    assert p[c].0 <= q[c].0 <= p[c].0;
  }

  lemma SameStep(ev: seq<Event>, p: seq<Pair>, q: seq<Pair>, t: nat, c: nat)
    requires PairsYoungest(ev, p) && PairsYoungest(ev, q) && t < |ev| && Fires(ev, t)
    requires c == FiredUpTo(ev, t) && Agree(p, q, c)
    ensures Agree(p, q, c + 1)
  {
    YoungestOf(ev, p, t);
    YoungestOf(ev, q, t);
    SameBar(ev, p, q, t, c);
    AgreeMore(p, q, c);
  }

  lemma {:induction false} SameUpTo(ev: seq<Event>, p: seq<Pair>, q: seq<Pair>, t: nat)
    requires PairsYoungest(ev, p) && PairsYoungest(ev, q) && t <= |ev|
    ensures Agree(p, q, FiredUpTo(ev, t))
  {
    if t > 0 {
      SameUpTo(ev, p, q, t - 1);
      if Fires(ev, t - 1) {
        SameStep(ev, p, q, t - 1, FiredUpTo(ev, t - 1));
      }
    }
  }

  lemma YoungestOf(ev: seq<Event>, p: seq<Pair>, t: nat)
    requires PairsYoungest(ev, p) && t < |ev| && Fires(ev, t)
    ensures FiredUpTo(ev, t) < |p| && YoungestAt(ev, p, t)
  {
    FiredMonotone(ev, t, |ev|);
  }

  /** The rule leaves no choice: the events determine the bars. */
  lemma PairingUnique(ev: seq<Event>, p: seq<Pair>, q: seq<Pair>)
    requires PairsYoungest(ev, p) && PairsYoungest(ev, q)
    ensures p == q
  {
    SameUpTo(ev, p, q, |ev|);
    assert p == p[..|p|] && q == q[..|q|];
  }

  // ----- what the stack does

  /** The stack holds as many open cycles, and has closed as many bars, as the events say. */
  lemma {:induction false} StackCounts(ev: seq<Event>, t: nat)
    requires t <= |ev|
    ensures |Stack(ev, t).open| == OpenCount(ev, t) && |Stack(ev, t).closed| == FiredUpTo(ev, t)
  {
    if t > 0 {
      StackCounts(ev, t - 1);
    }
  }

  /** Bars are only ever added. */
  lemma {:induction false} ClosedPrefix(ev: seq<Event>, s: nat, t: nat)
    requires s <= t <= |ev|
    ensures |Stack(ev, s).closed| <= |Stack(ev, t).closed|
    ensures Stack(ev, t).closed[..|Stack(ev, s).closed|] == Stack(ev, s).closed
  {
    if s < t {
      ClosedPrefix(ev, s, t - 1);
    }
  }

  /** The open cycles are stacked in the order of their births. */
  lemma {:induction false} StackSorted(ev: seq<Event>, t: nat)
    requires Sorted(ev, Before) && t <= |ev|
    ensures forall k, l | 0 <= k < l < |Stack(ev, t).open| :: Stack(ev, t).open[k] <= Stack(ev, t).open[l]
  {
    if t > 0 {
      StackSorted(ev, t - 1);
      BarsOrdered(ev, t - 1);
    }
  }

  /** Open cycles and alive births are the same. */
  lemma OpenIsAlive(ev: seq<Event>, t: nat, pairs: seq<Pair>)
    requires t <= |ev| && pairs == Stack(ev, |ev|).closed
    ensures FiredUpTo(ev, t) <= |pairs| && pairs[..FiredUpTo(ev, t)] == Stack(ev, t).closed
    ensures Alive(ev, pairs, t) == multiset(Stack(ev, t).open)
  {
    StackCounts(ev, t);
    ClosedPrefix(ev, t, |ev|);
    CyclesConserved(ev, t);
  }

  /** A triangle that finds an open cycle closes the youngest. */
  lemma FiredIsYoungest(ev: seq<Event>, t: nat, pairs: seq<Pair>)
    requires Sorted(ev, Before) && t < |ev| && Fires(ev, t) && pairs == Stack(ev, |ev|).closed
    ensures FiredUpTo(ev, t) < |pairs| && YoungestAt(ev, pairs, t)
  {
    StackCounts(ev, t);
    StackSorted(ev, t);
    OpenIsAlive(ev, t, pairs);
    ClosedAt(ev, t, pairs);
    TopIsGreatest(Stack(ev, t).open);
  }

  lemma TopIsGreatest(open: seq<real>)
    requires open != [] && forall k, l | 0 <= k < l < |open| :: open[k] <= open[l]
    ensures open[|open|-1] in multiset(open) && forall b <- multiset(open) :: b <= open[|open|-1]
  {
  }

  lemma ClosedAt(ev: seq<Event>, t: nat, pairs: seq<Pair>)
    requires t < |ev| && Fires(ev, t) && pairs == Stack(ev, |ev|).closed
    ensures FiredUpTo(ev, t) < |pairs| && Stack(ev, t).open != []
    ensures pairs[FiredUpTo(ev, t)] == (Stack(ev, t).open[|Stack(ev, t).open|-1], ev[t].dist)
  {
    StackCounts(ev, t);
    OpenIsAlive(ev, t + 1, pairs);
    LastClosed(ev, t);
    assert pairs[FiredUpTo(ev, t)] == pairs[..FiredUpTo(ev, t + 1)][FiredUpTo(ev, t)];
  }

  lemma LastClosed(ev: seq<Event>, t: nat)
    requires t < |ev| && Fires(ev, t)
    ensures Stack(ev, t).open != []
    ensures Stack(ev, t + 1).closed == Stack(ev, t).closed + [(Stack(ev, t).open[|Stack(ev, t).open|-1], ev[t].dist)]
  {
    StackCounts(ev, t);
  }

  /** The barcode is the one pairing in which every triangle closes the youngest open cycle. */
  lemma BarcodePairsYoungest(ev: seq<Event>, pairs: seq<Pair>)
    requires Sorted(ev, Before)
    ensures PairsYoungest(ev, pairs) <==> pairs == Stack(ev, |ev|).closed
  {
    var bars := Stack(ev, |ev|).closed;
    StackCounts(ev, |ev|);
    forall t | 0 <= t < |ev| && Fires(ev, t)
      ensures FiredUpTo(ev, t) < |bars| && YoungestAt(ev, bars, t)
    {
      FiredIsYoungest(ev, t, bars);
    }
    if PairsYoungest(ev, pairs) {
      PairingUnique(ev, pairs, bars);
    }
  }

  // ----- bars never cross

  /** Bars are listed as they die, and no two cross: of two bars the one that dies later was born no later than the
      other, around it, or not before the other had died, after it. */
  ghost predicate NeverCross(pairs: seq<Pair>) {
    forall k, l | 0 <= k < l < |pairs| ::
      pairs[k].1 <= pairs[l].1 && (pairs[l].0 <= pairs[k].0 || pairs[k].1 <= pairs[l].0)
  }

  /** A cycle still open lies around every closed bar or began after it. */
  ghost predicate OpenAround(c: Cycles) {
    forall k, o | 0 <= k < |c.closed| && 0 <= o < |c.open| ::
      c.open[o] <= c.closed[k].0 || c.closed[k].1 <= c.open[o]
  }

  /** No bar closed so far dies after what is still to come. */
  lemma {:induction false} ClosedByNow(ev: seq<Event>, t: nat, a: nat)
    requires Sorted(ev, Before) && t <= a < |ev|
    ensures forall k | 0 <= k < |Stack(ev, t).closed| :: Stack(ev, t).closed[k].1 <= ev[a].dist
  {
    if t > 0 {
      ClosedByNow(ev, t - 1, a);
      assert Before(ev[t-1], ev[a]);
    }
  }

  lemma {:induction false} BarsNeverCross(ev: seq<Event>, t: nat)
    requires Sorted(ev, Before) && t <= |ev|
    ensures NeverCross(Stack(ev, t).closed) && OpenAround(Stack(ev, t))
  {
    if t > 0 {
      BarsNeverCross(ev, t - 1);
      ClosedByNow(ev, t - 1, t - 1);
      StackSorted(ev, t - 1);
      StepNeverCrosses(Stack(ev, t - 1), Closes(ev, t - 1), ev[t-1]);
    }
  }

  lemma StepNeverCrosses(c: Cycles, closes: bool, e: Event)
    requires NeverCross(c.closed) && OpenAround(c) && forall k | 0 <= k < |c.closed| :: c.closed[k].1 <= e.dist
    requires forall k, l | 0 <= k < l < |c.open| :: c.open[k] <= c.open[l]
    ensures NeverCross(StackStep(c, closes, e).closed) && OpenAround(StackStep(c, closes, e))
  {
    if !closes && e.TriangleEvent? && c.open != [] {
      TopNeverCrosses(c, e.dist);
    }
  }

  lemma TopNeverCrosses(c: Cycles, d: real)
    requires NeverCross(c.closed) && OpenAround(c) && forall k | 0 <= k < |c.closed| :: c.closed[k].1 <= d
    requires c.open != [] && forall k, l | 0 <= k < l < |c.open| :: c.open[k] <= c.open[l]
    ensures var top := c.open[|c.open|-1];
            NeverCross(c.closed + [(top, d)]) && OpenAround(Cycles(c.open[..|c.open|-1], c.closed + [(top, d)]))
  {
  }

  // ----- the total length

  /** The distances at which bars close. */
  ghost function DeathTotal(ev: seq<Event>, t: nat): real
    requires t <= |ev|
  {
    if t == 0 then 0.0 else DeathTotal(ev, t - 1) + if Fires(ev, t - 1) then ev[t-1].dist else 0.0
  }

  /** The distances at which cycles are born. */
  ghost function BirthTotal(ev: seq<Event>, t: nat): real
    requires t <= |ev|
  {
    if t == 0 then 0.0 else BirthTotal(ev, t - 1) + if Closes(ev, t - 1) then ev[t-1].dist else 0.0
  }

  function Sum(s: seq<real>): real {
    if s == [] then 0.0 else Sum(s[..|s|-1]) + s[|s|-1]
  }

  lemma SumAppend(s: seq<real>, x: real)
    ensures Sum(s + [x]) == Sum(s) + x
  {
    assert (s + [x])[..|s|] == s;
  }

  /** The closed bars and the open cycles account for every birth and every death. */
  lemma {:induction false} TotalsBalance(ev: seq<Event>, t: nat)
    requires t <= |ev|
    ensures TotalPersistence(Stack(ev, t).closed) == DeathTotal(ev, t) - BirthTotal(ev, t) + Sum(Stack(ev, t).open)
  {
    if t > 0 {
      TotalsBalance(ev, t - 1);
      StackCounts(ev, t - 1);
      StepBalances(Stack(ev, t - 1), Closes(ev, t - 1), ev[t-1]);
    }
  }

  lemma StepBalances(c: Cycles, closes: bool, e: Event)
    ensures var next := StackStep(c, closes, e);
            TotalPersistence(next.closed) - Sum(next.open)
            == TotalPersistence(c.closed) - Sum(c.open)
             + if closes then -e.dist else if e.TriangleEvent? && c.open != [] then e.dist else 0.0
  {
    if closes {
      SumAppend(c.open, e.dist);
    } else if e.TriangleEvent? && c.open != [] {
      TotalAppend(c.closed, (c.open[|c.open|-1], e.dist));
    }
  }

  /** When every cycle has closed, the bars together are as long as the closing triangles' distances less those of the
      cycle-closing edges. */
  lemma TotalOfBars(dist: Matrix, n: nat, ev: seq<Event>)
    requires Filtration(dist, n, ev) && n >= 2
    ensures TotalPersistence(Stack(ev, |ev|).closed) == DeathTotal(ev, |ev|) - BirthTotal(ev, |ev|)
  {
    TotalsBalance(ev, |ev|);
    EveryCycleCloses(dist, n, ev);
  }
}
