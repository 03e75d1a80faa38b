/** The exact paired test and the counts it is computed from. */
module PairedStatistics {
  import opened Prelude
  import opened Binomial

  /** Twice the tail up to the smaller discordant count, over all outcomes, clipped at one. */
  function ExactP(gained: int, lost: int): Result<real> {
    if gained < 0 || lost < 0 then Err("discordant counts must be nonnegative integers")
    else Ok(P(gained, lost))
  }

  function P(gained: nat, lost: nat): real {
    var n := gained + lost;
    if n == 0 then 1.0
    else Min(1.0, Fraction(Numerator(gained, lost), Pow2(n)))
  }

  function Fraction(a: nat, d: nat): real
    requires d > 0
  {
    a as real / d as real
  }

  function Smaller(a: nat, b: nat): nat {
    if a < b then a else b
  }

  /** The test before clipping. */
  function Numerator(gained: nat, lost: nat): nat {
    2 * Tail(gained + lost, Smaller(gained, lost) + 1)
  }

  lemma QuotientBound(a: nat, d: nat, x: real, level: real)
    requires d > 0 && level == Scaled(x, d)
    ensures Fraction(a, d) <= x <==> a as real <= level
  {
    var q := Fraction(a, d);
    FractionTimes(a, d);
    if q <= x {
      Grow(q, x, d);
    } else {
      GrowStrict(x, q, d);
    }
  }

  /** `x` times as many. */
  function Scaled(x: real, d: nat): real {
    x * d as real
  }

  lemma FractionTimes(a: nat, d: nat)
    requires d > 0
    ensures Scaled(Fraction(a, d), d) == a as real
  {
  }

  lemma Grow(q: real, x: real, d: nat)
    requires q <= x
    ensures Scaled(q, d) <= Scaled(x, d)
  {
  }

  lemma GrowStrict(x: real, q: real, d: nat)
    requires x < q && d > 0
    ensures Scaled(x, d) < Scaled(q, d)
  {
  }

  /** The test is symmetric in what was gained and what was lost. */
  lemma Symmetric(gained: nat, lost: nat)
    ensures P(gained, lost) == P(lost, gained)
  {
    assert Smaller(gained, lost) == Smaller(lost, gained);
  }

  /** For a fixed number of discordant pairs it grows with the smaller count. */
  lemma Monotone(gained: nat, lost: nat, gained': nat, lost': nat)
    requires gained + lost == gained' + lost' && Smaller(gained, lost) <= Smaller(gained', lost')
    ensures P(gained, lost) <= P(gained', lost')
  {
    var n := gained + lost;
    if n > 0 {
      TailMonotone(n, Smaller(gained, lost) + 1, Smaller(gained', lost') + 1);
      Divides(Numerator(gained, lost), Numerator(gained', lost'), Pow2(n));
    }
  }

  lemma Divides(a: nat, b: nat, d: nat)
    requires a <= b && d > 0
    ensures Fraction(a, d) <= Fraction(b, d)
  {
  }

  /** The clip at one acts exactly when as much was gained as lost. */
  lemma ClipIffBalanced(gained: nat, lost: nat)
    requires gained + lost > 0
    ensures Numerator(gained, lost) > Pow2(gained + lost) <==> gained == lost
  {
    var n, m := gained + lost, Smaller(gained, lost);
    TailComplement(n, m + 1, n - m);
    if gained == lost {
      CombPositive(n, m);
    } else {
      TailMonotone(n, m + 1, n - m);
    }
  }

  lemma PRange(gained: nat, lost: nat)
    ensures 0.0 < P(gained, lost) <= 1.0
  {
    var n, m := gained + lost, Smaller(gained, lost);
    TailMonotone(n, 1, m + 1);
    assert Tail(n, 1) == Tail(n, 0) + Comb(n, 0);
    CombPositive(n, 0);
    PositiveQuotient(Numerator(gained, lost), Pow2(n));
  }

  lemma PositiveQuotient(a: nat, d: nat)
    requires a > 0 && d > 0
    ensures Fraction(a, d) > 0.0
  {
  }

  /** The entry point: defined exactly on nonnegative counts, a value in (0, 1], the same for exchanged counts. */
  lemma ExactPDefined(gained: int, lost: int)
    ensures ExactP(gained, lost).Ok? <==> gained >= 0 && lost >= 0
    ensures ExactP(gained, lost).Ok? ==> 0.0 < ExactP(gained, lost).value <= 1.0
    ensures ExactP(gained, lost) == ExactP(lost, gained)
  {
    if gained >= 0 && lost >= 0 {
      PRange(gained, lost);
      Symmetric(gained, lost);
    }
  }

  // ----- exactness

  /** As lopsided as `gained` against `lost`, or more so. */
  function AsExtreme(gained: nat, lost: nat): nat -> bool {
    (k: nat) => k <= gained + lost && Smaller(k, gained + lost - k) <= Smaller(gained, lost)
  }

  /** The value is exactly the chance, under a fair coin, of an outcome at least as lopsided. */
  lemma ExactProbability(gained: nat, lost: nat)
    ensures Scaled(P(gained, lost), Pow2(gained + lost))
         == Favourable(gained + lost, 0, AsExtreme(gained, lost)) as real
  {
    var n, f, m := gained + lost, AsExtreme(gained, lost), Smaller(gained, lost);
    forall k: nat | k <= n
      ensures f(k) <==> k < m + 1 || n - k < m + 1
    {
      NearerEnd(k, n - k, m);
    }
    if gained == lost {
      Certain(n, 0, f);
      Balanced(gained);
      WholeTimes(Pow2(n));
    } else {
      ClipIffBalanced(gained, lost);
      TwoEnds(n, m + 1, f);
      Unclipped(Numerator(gained, lost), Pow2(n));
    }
  }

  lemma NearerEnd(a: nat, b: nat, m: nat)
    ensures Smaller(a, b) <= m <==> a < m + 1 || b < m + 1
  {
  }

  lemma Balanced(k: nat)
    ensures P(k, k) == 1.0
  {
    if k > 0 {
      ClipIffBalanced(k, k);
      AboveOne(Numerator(k, k), Pow2(k + k));
    }
  }

  lemma AboveOne(a: nat, d: nat)
    requires d > 0 && a > d
    ensures Fraction(a, d) >= 1.0
  {
  }

  lemma WholeTimes(d: nat)
    ensures Scaled(1.0, d) == d as real
  {
  }

  lemma Unclipped(a: nat, d: nat)
    requires d > 0 && a <= d
    ensures Min(1.0, Fraction(a, d)) == Fraction(a, d) && Scaled(Fraction(a, d), d) == a as real
  {
    FractionTimes(a, d);
    Divides(a, d, d);
    WholeFraction(d);
  }

  lemma WholeFraction(d: nat)
    requires d > 0
    ensures Fraction(d, d) == 1.0
  {
  }

  // ----- validity

  /** The largest `c` up to `j` whose two tails fit within `level`. */
  ghost function Cut(n: nat, level: real, j: nat): (c: nat)
    requires level >= 0.0
    ensures c <= j && (2 * Tail(n, c)) as real <= level
    ensures forall i | c < i <= j :: (2 * Tail(n, i)) as real > level
  {
    if j == 0 then 0
    else if (2 * Tail(n, j)) as real <= level then j
    else Cut(n, level, j - 1)
  }

  lemma LevelNonneg(alpha: real, p: nat)
    requires alpha >= 0.0
    ensures Scaled(alpha, p) >= 0.0
  {
  }

  /** The outcomes of `n` flips that the test rejects at level `alpha`. */
  function Rejects(n: nat, alpha: real): nat -> bool {
    (k: nat) => k <= n && P(k, n - k) <= alpha
  }

  /** A p-value below one is at most `alpha` exactly when the two tails fit within `alpha` of all outcomes. */
  lemma RejectedTails(n: nat, gained: nat, alpha: real, level: real)
    requires alpha < 1.0 && gained <= n && P(gained, n - gained) <= alpha && level == Scaled(alpha, Pow2(n))
    ensures Numerator(gained, n - gained) as real <= level
  {
    QuotientBound(Numerator(gained, n - gained), Pow2(n), alpha, level);
  }

  /** Under a fair coin the chance of a p-value at most `alpha` is at most `alpha`, for every number of pairs and
      every level. */
  lemma Valid(n: nat, alpha: real)
    requires alpha >= 0.0
    ensures Favourable(n, 0, Rejects(n, alpha)) as real <= Scaled(alpha, Pow2(n))
  {
    var level, rejects := Scaled(alpha, Pow2(n)), Rejects(n, alpha);
    LevelNonneg(alpha, Pow2(n));
    if alpha >= 1.0 {
      AtMostAll(n, 0, rejects);
      AtLeastOnce(alpha, Pow2(n));
    } else {
      RejectedWithin(n, alpha, level);
      ValidBelowOne(n, level, rejects);
    }
  }

  lemma RejectedWithin(n: nat, alpha: real, level: real)
    requires alpha < 1.0 && level == Scaled(alpha, Pow2(n))
    ensures forall k: nat | k <= n && Rejects(n, alpha)(k) :: Numerator(k, n - k) as real <= level
  {
    forall k: nat | k <= n && Rejects(n, alpha)(k)
      ensures Numerator(k, n - k) as real <= level
    {
      RejectedTails(n, k, alpha, level);
    }
  }

  lemma AtLeastOnce(alpha: real, d: nat)
    requires alpha >= 1.0
    ensures d as real <= Scaled(alpha, d)
  {
    Grow(1.0, alpha, d);
  }

  /** Outcomes whose two tails fit within the level are at most that many. */
  lemma ValidBelowOne(n: nat, level: real, f: nat -> bool)
    requires level >= 0.0 && forall k: nat | k <= n && f(k) :: Numerator(k, n - k) as real <= level
    ensures Favourable(n, 0, f) as real <= level
  {
    var c := Cut(n, level, n + 1);
    forall k: nat | k <= n && f(k)
      ensures k < c || n - k < c
    {
      NearEnd(n, level, k, c);
    }
    TwoSided(n, c, f);
  }

  lemma NearEnd(n: nat, level: real, k: nat, c: nat)
    requires k <= n && level >= 0.0 && Numerator(k, n - k) as real <= level && c == Cut(n, level, n + 1)
    ensures k < c || n - k < c
  {
    var i := Smaller(k, n - k) + 1;
    var tails := 2 * Tail(n, i);
  }

  /** No event is likelier than everything. */
  lemma {:induction false} AtMostAll(n: nat, heads: nat, f: nat -> bool)
    ensures Favourable(n, heads, f) <= Pow2(n)
  {
    if n > 0 {
      AtMostAll(n - 1, heads, f);
      AtMostAll(n - 1, heads + 1, f);
    }
  }

  // ----- the counts

  datatype Row = Row(task: int, pass: bool)

  datatype Evaluation = Evaluation(results: seq<Row>, passRate: Option<real>)

  const RATE_TOLERANCE: real := 0.000000000001

  predicate DistinctTasks(rows: seq<Row>, k: nat)
    requires k <= |rows|
  {
    k == 0 || (DistinctTasks(rows, k - 1) && NewTask(rows, k - 1))
  }

  lemma {:induction false} DistinctAt(rows: seq<Row>, k: nat, j: nat)
    requires j < k <= |rows| && DistinctTasks(rows, k)
    ensures NewTask(rows, j)
  {
    if j < k - 1 {
      DistinctAt(rows, k - 1, j);
    }
  }

  /** No earlier row has the same task. */
  predicate NewTask(rows: seq<Row>, k: nat)
    requires k < |rows|
  {
    forall i | 0 <= i < k :: rows[i].task != rows[k].task
  }

  /** The tasks of the first `k` rows. */
  function Tasks(rows: seq<Row>, k: nat): set<int>
    requires k <= |rows|
  {
    if k == 0 then {} else Tasks(rows, k - 1) + {rows[k-1].task}
  }

  /** The table holds exactly the first `k` rows, one entry each. */
  ghost predicate Tabulates(values: map<int, bool>, rows: seq<Row>, k: nat) {
    && k <= |rows| && |values| == k && values.Keys == Tasks(rows, k) && |Passes(values)| == PassCount(rows, k)
    && (forall i | 0 <= i < k :: rows[i].task in values && values[rows[i].task] == rows[i].pass)
  }

  function Passes(values: map<int, bool>): set<int> {
    set t | t in values && values[t]
  }

  /** How many of the first `k` rows pass. */
  function PassCount(rows: seq<Row>, k: nat): nat
    requires k <= |rows|
  {
    if k == 0 then 0 else PassCount(rows, k - 1) + if rows[k-1].pass then 1 else 0
  }

  /** A reported pass rate agrees with the rows. */
  predicate RateAgrees(e: Evaluation)
    requires e.results != []
  {
    e.passRate.Some? ==>
      Abs(e.passRate.value - PassCount(e.results, |e.results|) as real / |e.results| as real) <= RATE_TOLERANCE
  }

  lemma {:induction false} TaskAt(rows: seq<Row>, k: nat, t: int) returns (i: nat)
    requires k <= |rows| && t in Tasks(rows, k)
    ensures i < k && rows[i].task == t
  {
    if rows[k-1].task == t {
      i := k - 1;
    } else {
      i := TaskAt(rows, k - 1, t);
    }
  }

  lemma TabulateMore(values: map<int, bool>, rows: seq<Row>, k: nat)
    requires k < |rows| && Tabulates(values, rows, k) && rows[k].task !in values
    ensures Tabulates(values[rows[k].task := rows[k].pass], rows, k + 1)
    ensures NewTask(rows, k)
  {
    var next := values[rows[k].task := rows[k].pass];
    assert next.Keys == values.Keys + {rows[k].task};
    PassesMore(values, rows[k].task, rows[k].pass, next);
  }

  lemma PassesMore(values: map<int, bool>, t: int, pass: bool, next: map<int, bool>)
    requires t !in values && next == values[t := pass]
    ensures |Passes(next)| == |Passes(values)| + if pass then 1 else 0
  {
    assert pass ==> Passes(next) == Passes(values) + {t};
    assert !pass ==> Passes(next) == Passes(values);
  }

  lemma TaskTaken(values: map<int, bool>, rows: seq<Row>, k: nat)
    requires k < |rows| && Tabulates(values, rows, k) && rows[k].task in values
    ensures !NewTask(rows, k)
  {
    var i := TaskAt(rows, k, rows[k].task);
  }

  /** Enter row `k` unless its task is already there. */
  method AddRow(values: map<int, bool>, rows: seq<Row>, k: nat) returns (r: Result<map<int, bool>>)
    requires k < |rows| && Tabulates(values, rows, k)
    ensures r.Ok? <==> NewTask(rows, k)
    ensures r.Ok? ==> Tabulates(r.value, rows, k + 1)
  {
    if rows[k].task in values {
      TaskTaken(values, rows, k);
      return Err("paired evaluation identity/outcome invalid or duplicate");
    }
    TabulateMore(values, rows, k);
    r := Ok(values[rows[k].task := rows[k].pass]);
  }

  /** Fill the table row by row; a repeated task is refused. */
  method Tabulate(rows: seq<Row>) returns (r: Result<map<int, bool>>)
    ensures r.Ok? <==> DistinctTasks(rows, |rows|)
    ensures r.Ok? ==> Tabulates(r.value, rows, |rows|)
  {
    r := Ok(map[]);
    for k := 0 to |rows|
      invariant r.Ok? && Tabulates(r.value, rows, k)
      invariant DistinctTasks(rows, k)
    {
      r := AddRow(r.value, rows, k);
      if r.Err? {
        if DistinctTasks(rows, |rows|) {
          DistinctAt(rows, |rows|, k);
        }
        return;
      }
    }
  }

  predicate Acceptable(e: Evaluation) {
    e.results != [] && DistinctTasks(e.results, |e.results|) && RateAgrees(e)
  }

  method ValidatedPassRows(e: Evaluation) returns (r: Result<map<int, bool>>)
    ensures r.Ok? <==> Acceptable(e)
    ensures r.Ok? ==> Tabulates(r.value, e.results, |e.results|)
  {
    if e.results == [] {
      return Err("paired evaluation requires nonempty results");
    }
    r := Tabulate(e.results);
    if r.Ok? && e.passRate.Some?
       && Abs(e.passRate.value - |Passes(r.value)| as real / |r.value| as real) > RATE_TOLERANCE {
      r := Err("paired evaluation aggregate disagrees with rows");
    }
  }

  datatype Counts = Counts(both: nat, gained: nat, lost: nat, neither: int, discordant: nat, p: real)

  function BothPass(b: map<int, bool>, c: map<int, bool>): set<int>
    requires b.Keys == c.Keys
  {
    set t | t in b && b[t] && c[t]
  }

  function Gained(b: map<int, bool>, c: map<int, bool>): set<int>
    requires b.Keys == c.Keys
  {
    set t | t in b && !b[t] && c[t]
  }

  function Lost(b: map<int, bool>, c: map<int, bool>): set<int>
    requires b.Keys == c.Keys
  {
    set t | t in b && b[t] && !c[t]
  }

  function Neither(b: map<int, bool>, c: map<int, bool>): set<int>
    requires b.Keys == c.Keys
  {
    set t | t in b && !b[t] && !c[t]
  }

  lemma SplitSize<T>(whole: set<T>, a: set<T>, b: set<T>)
    requires whole == a + b && a !! b
    ensures |whole| == |a| + |b|
  {
  }

  lemma PassesSplit(b: map<int, bool>, c: map<int, bool>)
    requires b.Keys == c.Keys
    ensures |Passes(b)| == |BothPass(b, c)| + |Lost(b, c)|
    ensures |Passes(c)| == |BothPass(b, c)| + |Gained(b, c)|
  {
    SplitSize(Passes(b), BothPass(b, c), Lost(b, c));
    SplitSize(Passes(c), BothPass(b, c), Gained(b, c));
  }

  lemma FailsSplit(b: map<int, bool>, c: map<int, bool>)
    requires b.Keys == c.Keys
    ensures |b| == |Passes(b)| + |Gained(b, c)| + |Neither(b, c)|
  {
    var fails := set t | t in b && !b[t];
    SplitSize(b.Keys, Passes(b), fails);
    SplitSize(fails, Gained(b, c), Neither(b, c));
  }

  /** Every task is in exactly one of the four groups; what was gained minus what was lost is the change in passes. */
  lemma Conserved(b: map<int, bool>, c: map<int, bool>)
    requires b.Keys == c.Keys
    ensures |BothPass(b, c)| + |Gained(b, c)| + |Lost(b, c)| + |Neither(b, c)| == |b|
    ensures |Passes(c)| - |Passes(b)| == |Gained(b, c)| - |Lost(b, c)|
    ensures Gained(b, c) == Lost(c, b)
  {
    PassesSplit(b, c);
    FailsSplit(b, c);
    assert Gained(b, c) == Lost(c, b);
  }

  method PairedPassCounts(baseline: Evaluation, compiled: Evaluation)
    returns (r: Result<Counts>, ghost b: map<int, bool>, ghost c: map<int, bool>)
    ensures r.Ok? <==> Acceptable(baseline) && Acceptable(compiled)
                       && Tasks(baseline.results, |baseline.results|) == Tasks(compiled.results, |compiled.results|)
    ensures r.Ok? ==> Tabulates(b, baseline.results, |baseline.results|)
    ensures r.Ok? ==> Tabulates(c, compiled.results, |compiled.results|)
    ensures r.Ok? ==> b.Keys == c.Keys && r.value.both == |BothPass(b, c)| && r.value.gained == |Gained(b, c)|
                      && r.value.lost == |Lost(b, c)| && r.value.neither == |Neither(b, c)|
    ensures r.Ok? ==> r.value.both + r.value.gained + r.value.lost + r.value.neither == |baseline.results|
    ensures r.Ok? ==> r.value.discordant == r.value.gained + r.value.lost
    ensures r.Ok? ==> ExactP(r.value.gained, r.value.lost) == Ok(r.value.p)
  {
    b, c := map[], map[];
    var before := ValidatedPassRows(baseline);
    if before.Err? {
      return Err(before.code), b, c;
    }
    var after := ValidatedPassRows(compiled);
    if after.Err? {
      return Err(after.code), b, c;
    }
    b, c := before.value, after.value;
    if before.value.Keys != after.value.Keys {
      return Err("paired evaluation identity mismatch"), b, c;
    }
    Conserved(b, c);
    var both := |BothPass(before.value, after.value)|;
    var gained := |Gained(before.value, after.value)|;
    var lost := |Lost(before.value, after.value)|;
    ExactPDefined(gained, lost);
    var p := ExactP(gained, lost);
    r := Ok(Counts(both, gained, lost, |before.value| - both - gained - lost, gained + lost, p.value));
  }

  /** Exchanging baseline and compiled exchanges gains and losses and leaves the p-value alone. */
  lemma Exchange(b: map<int, bool>, c: map<int, bool>)
    requires b.Keys == c.Keys
    ensures |Gained(c, b)| == |Lost(b, c)| && |Lost(c, b)| == |Gained(b, c)|
    ensures P(|Gained(c, b)|, |Lost(c, b)|) == P(|Gained(b, c)|, |Lost(b, c)|)
  {
    assert Gained(c, b) == Lost(b, c) && Lost(c, b) == Gained(b, c);
    Symmetric(|Gained(b, c)|, |Lost(b, c)|);
  }
}
