/** The hash-chained journal: append, and read back what was appended. */
module EvidenceJournal {
  import opened Prelude
  import opened Sorting
  import Text

  datatype Record = Record(index: nat, previous: string, kind: string, payload: string)

  /** The kernels that live elsewhere: canonical JSON, its parser, and the digest. */
  datatype Codec = Codec(canonical: Record -> string, parse: string -> Option<Record>, hash: string -> string)

  /** Parsing gives back what was written. */
  ghost predicate RoundTrips(c: Codec) {
    forall v {:trigger c.canonical(v)} :: c.parse(c.canonical(v)) == Some(v)
  }

  ghost predicate CollisionFree(c: Codec) {
    forall x, y {:trigger c.hash(x), c.hash(y)} :: c.hash(x) == c.hash(y) ==> x == y
  }

  const GENESIS: string := seq(64, _ => '0')

  // ----- file names

  function Pow10(k: nat): (p: nat)
    ensures p > 0
  {
    if k == 0 then 1 else 10 * Pow10(k - 1)
  }

  /** The last `k` decimal digits, most significant first. */
  function Fixed(n: nat, k: nat): (s: string)
    ensures |s| == k
  {
    if k == 0 then [] else [Digit(n / Pow10(k - 1) % 10)] + Fixed(n % Pow10(k - 1), k - 1)
  }

  function Digit(d: nat): char
    requires d < 10
  {
    (48 + d) as char
  }

  function Width(n: nat): (w: nat)
    ensures w > 0
  {
    if n < 10 then 1 else 1 + Width(n / 10)
  }

  lemma {:induction false} WidthEnough(n: nat)
    ensures n < Pow10(Width(n))
  {
    if n < 10 {
      assert Pow10(1) == 10 * Pow10(0);
    } else {
      WidthEnough(n / 10);
    }
  }

  lemma {:induction false} WidthMinimal(n: nat, k: nat)
    requires n < Pow10(k) && k > 0
    ensures Width(n) <= k
  {
    if n >= 10 {
      if k > 1 {
        WidthMinimal(n / 10, k - 1);
      }
    }
  }

  function Places(n: nat): nat {
    if Width(n) < 6 then 6 else Width(n)
  }

  lemma PlacesEnough(n: nat)
    ensures n < Pow10(Places(n))
  {
    WidthEnough(n);
    if Width(n) < 6 {
      PowMonotone(Width(n), 6);
    }
  }

  lemma {:induction false} PowMonotone(i: nat, j: nat)
    requires i <= j
    ensures Pow10(i) <= Pow10(j)
    decreases j - i
  {
    if i < j {
      PowMonotone(i, j - 1);
    }
  }

  /** At least six digits, then the extension. */
  function Name(n: nat): string {
    Fixed(n, Places(n)) + ".json"
  }

  lemma LeadingDigit(n: nat, p: nat)
    requires p > 0 && n < 10 * p
    ensures n / p < 10 && n / p % 10 == n / p && n == n / p * p + n % p
  {
  }

  lemma Quotients(m: nat, n: nat, p: nat)
    requires p > 0 && m <= n
    ensures m / p <= n / p
    ensures m / p == n / p ==> m % p <= n % p
  {
    if m / p > n / p {
      assert m == m / p * p + m % p && n == n / p * p + n % p;
      Gap(m / p, n / p, p);
    }
  }

  lemma Gap(a: nat, b: nat, p: nat)
    requires a > b && p > 0
    ensures a * p >= b * p + p
  {
    var extra := a - b - 1;
    NonnegProduct(extra, p);
    assert a == b + 1 + extra;
    Expand(b, extra, p);
  }

  lemma NonnegProduct(x: nat, y: nat)
    ensures x * y >= 0
  {
  }

  lemma Expand(b: int, extra: int, p: int)
    ensures (b + 1 + extra) * p == b * p + p + extra * p
  {
  }

  /** With a fixed number of digits, smaller numbers have earlier names. */
  lemma {:induction false} FixedOrder(m: nat, n: nat, k: nat, suffix: string)
    requires m <= n < Pow10(k)
    ensures Text.Le(Fixed(m, k) + suffix, Fixed(n, k) + suffix)
  {
    if k == 0 {
      Text.LeTotal(suffix, suffix);
      assert Fixed(m, 0) + suffix == suffix && Fixed(n, 0) + suffix == suffix;
    } else {
      var p := Pow10(k - 1);
      LeadingDigit(m, p);
      LeadingDigit(n, p);
      Quotients(m, n, p);
      if m / p == n / p {
        FixedOrder(m % p, n % p, k - 1, suffix);
      }
      LeHead(Digit(m / p % 10), Fixed(m % p, k - 1) + suffix, Digit(n / p % 10), Fixed(n % p, k - 1) + suffix);
      FixedHead(m, k, suffix);
      FixedHead(n, k, suffix);
    }
  }

  lemma LeHead(x: char, s: string, y: char, t: string)
    requires x < y || (x == y && Text.Le(s, t))
    ensures Text.Le([x] + s, [y] + t)
  {
    assert ([x] + s)[1..] == s && ([y] + t)[1..] == t;
  }

  lemma FixedHead(n: nat, k: nat, suffix: string)
    requires k > 0
    ensures Fixed(n, k) + suffix == [Digit(n / Pow10(k - 1) % 10)] + (Fixed(n % Pow10(k - 1), k - 1) + suffix)
  {
  }

  lemma {:induction false} FixedInjective(m: nat, n: nat, k: nat)
    requires m < Pow10(k) && n < Pow10(k) && Fixed(m, k) == Fixed(n, k)
    ensures m == n
  {
    if k > 0 {
      var p := Pow10(k - 1);
      LeadingDigit(m, p);
      LeadingDigit(n, p);
      assert Fixed(m, k)[0] == Fixed(n, k)[0] && Fixed(m, k)[1..] == Fixed(n, k)[1..];
      FixedInjective(m % p, n % p, k - 1);
    }
  }

  lemma NameInjective(m: nat, n: nat)
    requires Name(m) == Name(n)
    ensures m == n
  {
    PlacesEnough(m);
    PlacesEnough(n);
    assert |Name(m)| == Places(m) + 5 && |Name(n)| == Places(n) + 5;
    assert Name(m)[..Places(m)] == Fixed(m, Places(m)) && Name(n)[..Places(n)] == Fixed(n, Places(n));
    FixedInjective(m, n, Places(m));
  }

  /** Below a million records, names sort in the order of their numbers. */
  lemma NameOrder(m: nat, n: nat)
    requires m <= n < 1000000
    ensures Text.Le(Name(m), Name(n))
  {
    Million();
    WidthMinimal(m, 6);
    WidthMinimal(n, 6);
    FixedOrder(m, n, 6, ".json");
  }

  lemma Million()
    ensures Pow10(6) == 1000000
  {
    assert Pow10(1) == 10 * Pow10(0) && Pow10(2) == 10 * Pow10(1) && Pow10(3) == 10 * Pow10(2);
    assert Pow10(4) == 10 * Pow10(3) && Pow10(5) == 10 * Pow10(4) && Pow10(6) == 10 * Pow10(5);
  }

  /** A common beginning does not matter. */
  lemma {:induction false} LeAfter(common: string, s: string, t: string)
    requires Text.Le(s, t)
    ensures Text.Le(common + s, common + t)
  {
    if common == "" {
      assert common + s == s && common + t == t;
    } else {
      var init, last := common[..|common|-1], common[|common|-1];
      LeHead(last, s, last, t);
      LeAfter(init, [last] + s, [last] + t);
      SplitLast(common, s);
      SplitLast(common, t);
    }
  }

  lemma SplitLast(common: string, s: string)
    requires common != ""
    ensures common + s == common[..|common|-1] + ([common[|common|-1]] + s)
  {
  }

  lemma ZerosFirst()
    ensures Text.Le("00.json", "1.json")
    ensures "1000000.json" == "10000" + "00.json" && "100001.json" == "10000" + "1.json"
  {
  }

  /** The name of record 1000000 sorts before that of record 100001. */
  lemma OrderBreaks()
    ensures Text.Le(Name(1000000), Name(100001)) && Name(1000000) != Name(100001)
  {
    NameOfMillion();
    NameOfLater();
    ZerosFirst();
    LeAfter("10000", "00.json", "1.json");
    NameApart();
  }

  lemma NameApart()
    ensures Name(1000000) != Name(100001)
  {
    if Name(1000000) == Name(100001) {
      NameInjective(1000000, 100001);
    }
  }

  lemma Powers()
    ensures Pow10(0) == 1 && Pow10(1) == 10 && Pow10(2) == 100 && Pow10(3) == 1000
    ensures Pow10(4) == 10000 && Pow10(5) == 100000 && Pow10(6) == 1000000
  {
    Million();
  }

  lemma {:induction false} FixedZero(k: nat)
    ensures Fixed(0, k) == seq(k, _ => '0')
  {
    if k > 0 {
      FixedZero(k - 1);
      assert 0 / Pow10(k - 1) % 10 == 0 && 0 % Pow10(k - 1) == 0;
    }
  }

  lemma WidthIs(n: nat, k: nat)
    requires k > 0 && n < Pow10(k) && (k == 1 || Pow10(k - 1) <= n)
    ensures Width(n) == k
  {
    WidthMinimal(n, k);
    WidthEnough(n);
    if Width(n) < k {
      PowMonotone(Width(n), k - 1);
    }
  }

  /** A power of ten is a one before zeros. */
  lemma FixedPower(k: nat)
    ensures Fixed(Pow10(k), k + 1) == ['1'] + seq(k, _ => '0')
  {
    var p := Pow10(k);
    FixedZero(k);
    WholeQuotient(p);
  }

  lemma WholeQuotient(p: nat)
    requires p > 0
    ensures p / p == 1 && p % p == 0
  {
  }

  lemma NameOfMillion()
    ensures Name(1000000) == "1000000.json"
  {
    Powers();
    assert Pow10(7) == 10 * Pow10(6);
    WidthIs(1000000, 7);
    FixedPower(6);
    SixZeros();
  }

  lemma SixZeros()
    ensures ['1'] + seq(6, _ => '0') + ".json" == "1000000.json"
  {
  }

  /** A one-digit number after zeros. */
  lemma {:induction false} FixedOne(k: nat)
    requires k > 0
    ensures Fixed(1, k) == seq(k - 1, _ => '0') + ['1']
  {
    if k == 1 {
      assert Fixed(1, 1) == [Digit(1)] + Fixed(0, 0);
    } else {
      FixedOne(k - 1);
      PowMonotone(1, k - 1);
      assert Pow10(1) == 10 * Pow10(0);
      SmallDigits(1, Pow10(k - 1));
    }
  }

  lemma SmallDigits(n: nat, p: nat)
    requires n < p
    ensures n / p == 0 && n % p == n
  {
  }

  lemma NameOfLater()
    ensures Name(100001) == "100001.json"
  {
    Powers();
    WidthIs(100001, 6);
    FixedOne(5);
    assert Fixed(100001, 6) == ['1'] + Fixed(1, 5);
  }

  // ----- the chain

  /** The tip after the first `k` records. */
  function Tip(c: Codec, rs: seq<Record>, k: nat): string
    requires k <= |rs|
  {
    if k == 0 then GENESIS else c.hash(c.canonical(rs[k-1]))
  }

  /** Record `i` carries its own index and the digest of its predecessor. */
  predicate Linked(c: Codec, rs: seq<Record>, i: nat)
    requires i < |rs|
  {
    rs[i].index == i && rs[i].previous == Tip(c, rs, i)
  }

  ghost predicate Chain(c: Codec, rs: seq<Record>) {
    forall i: nat | i < |rs| :: Linked(c, rs, i)
  }

  lemma ChainExtends(c: Codec, rs: seq<Record>, r: Record)
    requires Chain(c, rs) && r.index == |rs| && r.previous == Tip(c, rs, |rs|)
    ensures Chain(c, rs + [r]) && Tip(c, rs + [r], |rs| + 1) == c.hash(c.canonical(r))
  {
    forall i: nat | i < |rs| + 1
      ensures Linked(c, rs + [r], i)
    {
      if i < |rs| {
        assert Linked(c, rs, i);
      }
    }
  }

  /** The directory holds exactly the records, each in canonical form under its own name. */
  ghost predicate Stored(c: Codec, dir: map<string, string>, rs: seq<Record>) {
    && (forall i: nat | i < |rs| :: StoredAt(c, dir, rs, i))
    && (forall n: string | n in dir :: exists i: nat :: i < |rs| && n == Name(i))
  }

  ghost predicate StoredAt(c: Codec, dir: map<string, string>, rs: seq<Record>, i: nat)
    requires i < |rs|
  {
    Name(i) in dir && dir[Name(i)] == c.canonical(rs[i])
  }

  lemma StoreMore(c: Codec, dir: map<string, string>, rs: seq<Record>, r: Record)
    requires Stored(c, dir, rs)
    ensures Name(|rs|) !in dir
    ensures Stored(c, dir[Name(|rs|) := c.canonical(r)], rs + [r])
  {
    var next, more := dir[Name(|rs|) := c.canonical(r)], rs + [r];
    if Name(|rs|) in dir {
      var i: nat :| i < |rs| && Name(|rs|) == Name(i);
      NameInjective(|rs|, i);
    }
    forall i: nat | i < |more|
      ensures StoredAt(c, next, more, i)
    {
      if i < |rs| {
        assert StoredAt(c, dir, rs, i);
      }
    }
    forall n: string | n in next
      ensures exists i: nat :: i < |more| && n == Name(i)
    {
      if n in dir {
        var i: nat :| i < |rs| && n == Name(i);
      } else {
        assert n == Name(|rs|);
      }
    }
  }

  /** The writer: a directory, the tip and the next index. */
  class Journal {
    const codec: Codec
    var dir: map<string, string>
    var previous: string
    var index: nat
    ghost var records: seq<Record>

    ghost predicate Valid()
      reads this
    {
      && index == |records| && previous == Tip(codec, records, |records|)
      && Chain(codec, records) && Stored(codec, dir, records)
    }

    constructor (codec: Codec)
      ensures Valid() && this.codec == codec && records == [] && dir == map[] && index == 0 && previous == GENESIS
    {
      this.codec := codec;
      dir := map[];
      previous := GENESIS;
      index := 0;
      records := [];
    }

    /** Exclusive creation never fails; the record is chained to the tip and becomes the new tip. */
    method Append(kind: string, payload: string) returns (tip: string)
      requires Valid()
      modifies this
      ensures Valid()
      ensures records == old(records) + [Record(old(index), old(previous), kind, payload)]
      ensures tip == previous == codec.hash(codec.canonical(records[|records|-1]))
      ensures Name(old(index)) !in old(dir)
      ensures dir == old(dir)[Name(old(index)) := codec.canonical(records[|records|-1])] && index == old(index) + 1
    {
      var record := Record(index, previous, kind, payload);
      var data := codec.canonical(record);
      StoreMore(codec, dir, records, record);
      ChainExtends(codec, records, record);
      dir := dir[Name(index) := data];
      previous := codec.hash(data);
      index := index + 1;
      records := records + [record];
      tip := previous;
    }
  }

  // ----- reading back

  /** The sorted names are the names of 0, 1, 2, ... and their contents are the chained records. */
  ghost predicate Accepts(c: Codec, sorted: seq<string>, dir: map<string, string>, rs: seq<Record>) {
    && |rs| == |sorted| > 0 && Chain(c, rs)
    && (forall i: nat | i < |sorted| :: AcceptsAt(c, sorted, dir, rs, i))
  }

  ghost predicate AcceptsAt(c: Codec, sorted: seq<string>, dir: map<string, string>, rs: seq<Record>, i: nat) {
    && i < |rs| && i < |sorted| && sorted[i] == Name(i) && Name(i) in dir
    && dir[Name(i)] == c.canonical(rs[i])
  }

  /** The first `k` files have been read as `rs`. */
  ghost predicate ReadSoFar(c: Codec, sorted: seq<string>, dir: map<string, string>, rs: seq<Record>, k: nat) {
    && |rs| == k <= |sorted| && Chain(c, rs)
    && (forall i: nat | i < k :: AcceptsAt(c, sorted, dir, rs, i))
  }

  /** Whatever else the directory is accepted as agrees with what has been read. */
  lemma {:induction false} ReadDetermined(c: Codec, sorted: seq<string>, dir: map<string, string>, rs: seq<Record>,
                                          all: seq<Record>, k: nat)
    requires RoundTrips(c) && ReadSoFar(c, sorted, dir, rs, |rs|) && Accepts(c, sorted, dir, all) && k <= |rs|
    ensures k <= |all| && all[..k] == rs[..k]
  {
    if k > 0 {
      ReadDetermined(c, sorted, dir, rs, all, k - 1);
      assert AcceptsAt(c, sorted, dir, rs, k - 1) && AcceptsAt(c, sorted, dir, all, k - 1);
      assert c.parse(c.canonical(rs[k-1])) == Some(rs[k-1]) && c.parse(c.canonical(all[k-1])) == Some(all[k-1]);
      assert all[..k] == all[..k-1] + [all[k-1]] && rs[..k] == rs[..k-1] + [rs[k-1]];
    }
  }

  /** One file passes every check. */
  ghost predicate Passes(c: Codec, sorted: seq<string>, dir: map<string, string>, rs: seq<Record>, k: nat, r: Record) {
    && k < |sorted| && |rs| == k && sorted[k] == Name(k) && Name(k) in dir && dir[Name(k)] == c.canonical(r)
    && r.index == k && r.previous == Tip(c, rs, k)
  }

  lemma ReadMore(c: Codec, sorted: seq<string>, dir: map<string, string>, rs: seq<Record>, k: nat, r: Record)
    requires ReadSoFar(c, sorted, dir, rs, k) && Passes(c, sorted, dir, rs, k, r)
    ensures ReadSoFar(c, sorted, dir, rs + [r], k + 1)
  {
    ChainExtends(c, rs, r);
    forall i: nat | i < k + 1
      ensures AcceptsAt(c, sorted, dir, rs + [r], i)
    {
      if i < k {
        assert AcceptsAt(c, sorted, dir, rs, i);
      }
    }
  }

  /** An accepted directory's next record passes. */
  lemma MustPass(c: Codec, sorted: seq<string>, dir: map<string, string>, rs: seq<Record>, k: nat, all: seq<Record>)
    requires RoundTrips(c) && ReadSoFar(c, sorted, dir, rs, k) && k < |sorted| && Accepts(c, sorted, dir, all)
    ensures Passes(c, sorted, dir, rs, k, all[k]) && c.parse(dir[Name(k)]) == Some(all[k])
  {
    ReadDetermined(c, sorted, dir, rs, all, k);
    assert AcceptsAt(c, sorted, dir, all, k) && Linked(c, all, k);
    if k > 0 {
      assert all[..k][k-1] == rs[..k][k-1];
    }
  }

  /** Read one file and check it against the chain. */
  method ReadOne(c: Codec, sorted: seq<string>, dir: map<string, string>, k: nat, previous: string,
      ghost rs: seq<Record>)
    returns (r: Result<Record>)
    requires RoundTrips(c) && ReadSoFar(c, sorted, dir, rs, k) && k < |sorted|
    requires sorted[k] in dir && previous == Tip(c, rs, k)
    ensures r.Ok? ==> Passes(c, sorted, dir, rs, k, r.value) && c.canonical(r.value) == dir[sorted[k]]
    ensures r.Err? ==> forall all {:trigger Accepts(c, sorted, dir, all)} :: !Accepts(c, sorted, dir, all)
  {
    forall all {:trigger Accepts(c, sorted, dir, all)} | Accepts(c, sorted, dir, all)
      ensures Passes(c, sorted, dir, rs, k, all[k]) && c.parse(dir[Name(k)]) == Some(all[k])
    {
      MustPass(c, sorted, dir, rs, k, all);
    }
    if sorted[k] != Name(k) {
      return Err("journal sequence/path invalid");
    }
    var raw := dir[sorted[k]];
    var value := c.parse(raw);
    if value.None? || c.canonical(value.value) != raw {
      return Err("noncanonical journal record");
    }
    if value.value.index != k || value.value.previous != previous {
      return Err("journal chain mismatch");
    }
    r := Ok(value.value);
  }

  method ReadJournal(c: Codec, names: seq<string>, dir: map<string, string>) returns (r: Result<(seq<Record>, string)>)
    requires RoundTrips(c) && forall n | n in names :: n in dir
    ensures r.Ok? ==> Accepts(c, SortBy(names, Text.Le), dir, r.value.0) && r.value.1 == Tip(c, r.value.0, |r.value.0|)
    ensures forall all {:trigger Accepts(c, SortBy(names, Text.Le), dir, all)} |
              Accepts(c, SortBy(names, Text.Le), dir, all) :: r == Ok((all, Tip(c, all, |all|)))
  {
    var sorted := SortBy(names, Text.Le);
    var previous, result := GENESIS, [];
    for k := 0 to |sorted|
      invariant ReadSoFar(c, sorted, dir, result, k) && previous == Tip(c, result, k)
    {
      assert sorted[k] in sorted;
      InMultiset(sorted, names, sorted[k]);
      var one := ReadOne(c, sorted, dir, k, previous, result);
      if one.Err? {
        return Err(one.code);
      }
      ReadMore(c, sorted, dir, result, k, one.value);
      previous := c.hash(dir[sorted[k]]);
      result := result + [one.value];
    }
    if result == [] {
      return Err("empty journal");
    }
    forall all {:trigger Accepts(c, sorted, dir, all)} | Accepts(c, sorted, dir, all)
      ensures all == result
    {
      ReadDetermined(c, sorted, dir, result, all, |result|);
      assert all[..|result|] == all && result[..|result|] == result;
    }
    r := Ok((result, previous));
  }

  // ----- what was appended is read back

  function NamesUpTo(n: nat): (s: seq<string>)
    ensures |s| == n && forall i | 0 <= i < n :: s[i] == Name(i)
  {
    seq(n, i requires 0 <= i < n => Name(i))
  }

  /** A listing of the directory: every name once, in any order. */
  ghost predicate Lists(names: seq<string>, dir: map<string, string>) {
    multiset(names) == multiset(dir.Keys)
  }

  lemma {:induction false} NamesOnce(n: nat, x: string)
    ensures multiset(NamesUpTo(n))[x] <= 1
    ensures multiset(NamesUpTo(n))[x] == 1 <==> exists i: nat :: i < n && x == Name(i)
  {
    if n > 0 {
      assert NamesUpTo(n) == NamesUpTo(n - 1) + [Name(n - 1)];
      NamesOnce(n - 1, x);
      if x == Name(n - 1) && exists i: nat :: i < n - 1 && x == Name(i) {
        var i: nat :| i < n - 1 && x == Name(i);
        NameInjective(i, n - 1);
      }
    }
  }

  lemma ListingIsNames(c: Codec, names: seq<string>, dir: map<string, string>, rs: seq<Record>)
    requires Stored(c, dir, rs) && Lists(names, dir)
    ensures multiset(names) == multiset(NamesUpTo(|rs|))
  {
    forall x: string
      ensures multiset(dir.Keys)[x] == multiset(NamesUpTo(|rs|))[x]
    {
      NamesOnce(|rs|, x);
      if i: nat :| i < |rs| && x == Name(i) {
        assert StoredAt(c, dir, rs, i);
      }
    }
  }

  lemma TextAntisymmetric()
    ensures Antisymmetric(Text.Le)
  {
    forall a: string, b: string | Text.Le(a, b) && Text.Le(b, a)
      ensures a == b
    {
      Text.LeAntisymmetric(a, b);
    }
  }

  /** Below a million records the sorted names are the names in order. */
  lemma SortedNames(c: Codec, names: seq<string>, dir: map<string, string>, rs: seq<Record>)
    requires Stored(c, dir, rs) && Lists(names, dir) && |rs| <= 1000000
    ensures SortBy(names, Text.Le) == NamesUpTo(|rs|)
  {
    ListingIsNames(c, names, dir, rs);
    Text.LeOrders();
    TextAntisymmetric();
    SortBySorted(names, Text.Le);
    forall i, j | 0 <= i < j < |rs|
      ensures Text.Le(NamesUpTo(|rs|)[i], NamesUpTo(|rs|)[j])
    {
      NameOrder(i, j);
    }
    SortedUnique(SortBy(names, Text.Le), NamesUpTo(|rs|), Text.Le);
  }

  lemma StoredAccepted(c: Codec, names: seq<string>, dir: map<string, string>, rs: seq<Record>)
    requires Stored(c, dir, rs) && Lists(names, dir) && Chain(c, rs) && 0 < |rs| <= 1000000
    ensures Accepts(c, SortBy(names, Text.Le), dir, rs)
  {
    SortedNames(c, names, dir, rs);
    forall i: nat | i < |rs|
      ensures AcceptsAt(c, SortBy(names, Text.Le), dir, rs, i)
    {
      assert StoredAt(c, dir, rs, i);
    }
  }

  lemma SortedBreaks(c: Codec, names: seq<string>, dir: map<string, string>, rs: seq<Record>, all: seq<Record>)
    requires Stored(c, dir, rs) && Lists(names, dir) && |rs| > 1000000
    ensures !Accepts(c, SortBy(names, Text.Le), dir, all)
  {
    var sorted := SortBy(names, Text.Le);
    ListingIsNames(c, names, dir, rs);
    assert |multiset(names)| == |names| && |multiset(NamesUpTo(|rs|))| == |rs|;
    if Accepts(c, sorted, dir, all) {
      assert AcceptsAt(c, sorted, dir, all, 100001) && AcceptsAt(c, sorted, dir, all, 1000000);
      Text.LeOrders();
      SortBySorted(names, Text.Le);
      assert Text.Le(sorted[100001], sorted[1000000]);
      OrderBreaks();
      Text.LeAntisymmetric(Name(1000000), Name(100001));
    }
  }

  /** A journal built by appending is accepted exactly when it has between one and a million records, and then what is
      read is what was appended. */
  lemma AcceptedIffInRange(c: Codec, names: seq<string>, dir: map<string, string>, rs: seq<Record>)
    requires RoundTrips(c) && Stored(c, dir, rs) && Chain(c, rs) && Lists(names, dir)
    ensures (exists all :: Accepts(c, SortBy(names, Text.Le), dir, all)) <==> 0 < |rs| <= 1000000
    ensures 0 < |rs| <= 1000000 ==> Accepts(c, SortBy(names, Text.Le), dir, rs)
  {
    if 0 < |rs| <= 1000000 {
      StoredAccepted(c, names, dir, rs);
    } else {
      forall all {:trigger Accepts(c, SortBy(names, Text.Le), dir, all)}
        ensures !Accepts(c, SortBy(names, Text.Le), dir, all)
      {
        if |rs| == 0 {
          ListingIsNames(c, names, dir, rs);
          assert |multiset(names)| == |names|;
        } else {
          SortedBreaks(c, names, dir, rs, all);
        }
      }
    }
  }

  /** Reading back any journal that was only appended to: its records and its tip, up to a million records. */
  lemma ReadsBack(j: Journal, names: seq<string>)
    requires j.Valid() && RoundTrips(j.codec) && Lists(names, j.dir)
    ensures 0 < j.index <= 1000000 ==>
              Accepts(j.codec, SortBy(names, Text.Le), j.dir, j.records)
              && j.previous == Tip(j.codec, j.records, |j.records|)
    ensures j.index == 0 || j.index > 1000000 ==>
              forall all {:trigger Accepts(j.codec, SortBy(names, Text.Le), j.dir, all)} ::
                !Accepts(j.codec, SortBy(names, Text.Le), j.dir, all)
  {
    AcceptedIffInRange(j.codec, names, j.dir, j.records);
  }

  /** Two chains with the same tip are the same chain. */
  lemma {:induction false} SameTipSamePrefix(c: Codec, a: seq<Record>, b: seq<Record>, k: nat)
    requires RoundTrips(c) && CollisionFree(c) && Chain(c, a) && Chain(c, b) && k <= |a| && k <= |b|
    requires Tip(c, a, k) == Tip(c, b, k)
    ensures a[..k] == b[..k]
  {
    if k > 0 {
      SameRecord(c, a[k-1], b[k-1]);
      assert Linked(c, a, k - 1) && Linked(c, b, k - 1);
      SameTipSamePrefix(c, a, b, k - 1);
      assert a[..k] == a[..k-1] + [a[k-1]] && b[..k] == b[..k-1] + [b[k-1]];
    }
  }

  lemma SameRecord(c: Codec, x: Record, y: Record)
    requires RoundTrips(c) && CollisionFree(c) && c.hash(c.canonical(x)) == c.hash(c.canonical(y))
    ensures x == y
  {
    assert c.canonical(x) == c.canonical(y);
    assert c.parse(c.canonical(x)) == Some(x) && c.parse(c.canonical(y)) == Some(y);
  }

  /** With a collision-free digest, two accepted journals with the same tip have the same length and content. */
  lemma TipIdentifies(c: Codec, a: seq<Record>, b: seq<Record>)
    requires RoundTrips(c) && CollisionFree(c) && Chain(c, a) && Chain(c, b) && a != [] && b != []
    requires Tip(c, a, |a|) == Tip(c, b, |b|)
    ensures a == b
  {
    SameRecord(c, a[|a|-1], b[|b|-1]);
    assert Linked(c, a, |a| - 1) && Linked(c, b, |b| - 1);
    SameTipSamePrefix(c, a, b, |a|);
    assert a[..|a|] == a && b[..|b|] == b;
  }
}
