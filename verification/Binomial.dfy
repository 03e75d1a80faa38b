/** Binomial tails and fair coins. */
module Binomial {
  import opened Prelude

  function Comb(n: nat, k: int): nat {
    if k < 0 then 0 else if n == 0 then (if k == 0 then 1 else 0) else Comb(n - 1, k - 1) + Comb(n - 1, k)
  }

  function Pow2(n: nat): (p: nat)
    ensures p > 0
  {
    if n == 0 then 1 else 2 * Pow2(n - 1)
  }

  lemma {:induction false} CombAbove(n: nat, k: int)
    requires k > n
    ensures Comb(n, k) == 0
  {
    if n > 0 {
      CombAbove(n - 1, k - 1);
      CombAbove(n - 1, k);
    }
  }

  lemma {:induction false} CombPositive(n: nat, k: int)
    requires 0 <= k <= n
    ensures Comb(n, k) > 0
  {
    if n > 0 {
      if k > 0 {
        CombPositive(n - 1, k - 1);
      } else {
        CombPositive(n - 1, k);
      }
    }
  }

  lemma {:induction false} CombSymmetric(n: nat, k: int)
    ensures Comb(n, k) == Comb(n, n - k)
  {
    if n > 0 {
      if k < 0 {
        CombAbove(n, n - k);
      } else if k > n {
        CombAbove(n, k);
      } else {
        CombSymmetric(n - 1, k - 1);
        CombSymmetric(n - 1, k);
      }
    }
  }

  /** The sum of the first `j` coefficients. */
  function Tail(n: nat, j: nat): nat {
    if j == 0 then 0 else Tail(n, j - 1) + Comb(n, j - 1)
  }

  lemma {:induction false} TailPascal(n: nat, j: nat)
    requires n > 0 && j > 0
    ensures Tail(n, j) == Tail(n - 1, j) + Tail(n - 1, j - 1)
  {
    assert Comb(n, j - 1) == Comb(n - 1, j - 2) + Comb(n - 1, j - 1);
    if j == 1 {
      assert Comb(n - 1, -1) == 0;
      assert Tail(n, 1) == Tail(n, 0) + Comb(n, 0) && Tail(n - 1, 1) == Tail(n - 1, 0) + Comb(n - 1, 0);
    } else {
      TailPascal(n, j - 1);
    }
  }

  lemma {:induction false} TailAll(n: nat)
    ensures Tail(n, n + 1) == Pow2(n)
  {
    if n == 0 {
      assert Tail(0, 1) == Tail(0, 0) + Comb(0, 0);
    } else {
      TailPascal(n, n + 1);
      CombAbove(n - 1, n);
      TailAll(n - 1);
    }
  }

  lemma {:induction false} TailMonotone(n: nat, i: nat, j: nat)
    requires i <= j
    ensures Tail(n, i) <= Tail(n, j)
    decreases j - i
  {
    if i < j {
      TailMonotone(n, i, j - 1);
    }
  }

  /** Complementary tails make up everything. */
  lemma {:induction false} TailComplement(n: nat, a: nat, b: nat)
    requires a + b == n + 1
    ensures Tail(n, a) + Tail(n, b) == Pow2(n)
  {
    if a == 0 {
      TailAll(n);
    } else {
      TailComplement(n, a - 1, b + 1);
      CombSymmetric(n, a - 1);
    }
  }

  // ----- coins

  /** How many ways `n` more fair flips, after `heads` so far, can end in a favourable number of heads. */
  function Favourable(n: nat, heads: nat, f: nat -> bool): nat {
    if n == 0 then (if f(heads) then 1 else 0)
    else Favourable(n - 1, heads, f) + Favourable(n - 1, heads + 1, f)
  }

  /** The coefficients of the first `j` favourable counts. */
  function Weight(n: nat, heads: nat, f: nat -> bool, j: nat): nat {
    if j == 0 then 0 else Weight(n, heads, f, j - 1) + if f(heads + j - 1) then Comb(n, j - 1) else 0
  }

  lemma {:induction false} WeightPascal(n: nat, heads: nat, f: nat -> bool, j: nat)
    requires n > 0 && j > 0
    ensures Weight(n, heads, f, j) == Weight(n - 1, heads, f, j) + Weight(n - 1, heads + 1, f, j - 1)
  {
    assert Comb(n, j - 1) == Comb(n - 1, j - 2) + Comb(n - 1, j - 1);
    if j == 1 {
      assert Comb(n - 1, -1) == 0;
      assert Weight(n, heads, f, 0) == 0 && Weight(n - 1, heads, f, 0) == 0 && Weight(n - 1, heads + 1, f, 0) == 0;
    } else {
      WeightPascal(n, heads, f, j - 1);
    }
  }

  /** Counting outcomes one by one and counting them by their number of heads agree. */
  lemma {:induction false} FavourableIsWeight(n: nat, heads: nat, f: nat -> bool)
    ensures Favourable(n, heads, f) == Weight(n, heads, f, n + 1)
  {
    if n == 0 {
      assert Weight(0, heads, f, 1) == Weight(0, heads, f, 0) + if f(heads) then Comb(0, 0) else 0;
    } else {
      WeightPascal(n, heads, f, n + 1);
      CombAbove(n - 1, n);
      FavourableIsWeight(n - 1, heads, f);
      FavourableIsWeight(n - 1, heads + 1, f);
    }
  }

  /** The coefficients, among the first `j`, within `c` of either end. */
  function Ends(n: nat, c: nat, j: nat): nat
    requires j <= n + 1
  {
    if j == 0 then 0
    else Ends(n, c, j - 1) + (if j - 1 < c then Comb(n, j - 1) else 0) + (if n - (j - 1) < c then Comb(n, j - 1) else 0)
  }

  function Least(a: nat, b: nat): nat {
    if a < b then a else b
  }

  /** Both ends together weigh two tails. */
  lemma {:induction false} EndsAreTails(n: nat, c: nat, j: nat)
    requires j <= n + 1
    ensures Ends(n, c, j) + Tail(n, Least(c, n + 1 - j)) == Tail(n, Least(c, j)) + Tail(n, Least(c, n + 1))
  {
    if j > 0 {
      EndsAreTails(n, c, j - 1);
      CombSymmetric(n, j - 1);
    }
  }

  /** An event within the two ends weighs at most two tails. */
  lemma {:induction false} WithinEnds(n: nat, c: nat, f: nat -> bool, j: nat)
    requires j <= n + 1 && forall k: nat | k <= n && f(k) :: k < c || n - k < c
    ensures Weight(n, 0, f, j) <= Ends(n, c, j)
  {
    if j > 0 {
      WithinEnds(n, c, f, j - 1);
    }
  }

  /** The chance of an event within `c` of either end, in units of 2^-n. */
  lemma TwoSided(n: nat, c: nat, f: nat -> bool)
    requires c <= n + 1 && forall k: nat | k <= n && f(k) :: k < c || n - k < c
    ensures Favourable(n, 0, f) <= 2 * Tail(n, c)
  {
    FavourableIsWeight(n, 0, f);
    WithinEnds(n, c, f, n + 1);
    EndsAreTails(n, c, n + 1);
  }

  /** When the two ends do not meet, they weigh exactly two tails. */
  lemma {:induction false} ExactlyEnds(n: nat, c: nat, f: nat -> bool, j: nat)
    requires j <= n + 1 && 2 * c <= n + 1 && forall k: nat | k <= n :: f(k) <==> k < c || n - k < c
    ensures Weight(n, 0, f, j) == Ends(n, c, j)
  {
    if j > 0 {
      ExactlyEnds(n, c, f, j - 1);
    }
  }

  lemma TwoEnds(n: nat, c: nat, f: nat -> bool)
    requires 2 * c <= n + 1 && forall k: nat | k <= n :: f(k) <==> k < c || n - k < c
    ensures Favourable(n, 0, f) == 2 * Tail(n, c)
  {
    FavourableIsWeight(n, 0, f);
    ExactlyEnds(n, c, f, n + 1);
    EndsAreTails(n, c, n + 1);
  }

  /** An event that always happens has all outcomes. */
  lemma {:induction false} Certain(n: nat, heads: nat, f: nat -> bool)
    requires forall k: nat | heads <= k <= heads + n :: f(k)
    ensures Favourable(n, heads, f) == Pow2(n)
  {
    if n > 0 {
      Certain(n - 1, heads, f);
      Certain(n - 1, heads + 1, f);
    }
  }
}
