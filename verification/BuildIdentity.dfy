/** The compiled-input stream: sort, refuse duplicate paths, frame every record by lengths. */
module BuildIdentity {
  import opened Prelude
  import opened Sorting
  import Text

  type Byte = c: char | c as int < 256 witness '\0'

  type Bytes = seq<Byte>

  const DIGEST_DOMAIN: Bytes := "TIDEX:COMPILED-INPUTS:v3\0"

  const REGULAR_FILE: Bytes := "regular-file"

  const RECORD_TAG: Byte := 1 as char

  // ----- length framing

  function Pow256(k: nat): (p: nat)
    ensures p > 0
  {
    if k == 0 then 1 else 256 * Pow256(k - 1)
  }

  /** The last `k` base-256 digits, most significant first. */
  function BigEndian(n: nat, k: nat): (bs: Bytes)
    ensures |bs| == k
  {
    if k == 0 then [] else BigEndian(n / 256, k - 1) + [(n % 256) as char]
  }

  function Value(bs: Bytes): (n: nat)
    ensures n < Pow256(|bs|)
  {
    if bs == [] then 0 else 256 * Value(bs[..|bs|-1]) + bs[|bs|-1] as int
  }

  lemma {:induction false} ValueOfDigits(n: nat, k: nat)
    requires n < Pow256(k)
    ensures Value(BigEndian(n, k)) == n
  {
    if k > 0 {
      ValueOfDigits(n / 256, k - 1);
      assert BigEndian(n, k)[..k-1] == BigEndian(n / 256, k - 1);
    }
  }

  lemma {:induction false} DigitsOfValue(bs: Bytes)
    ensures BigEndian(Value(bs), |bs|) == bs
  {
    if bs != [] {
      var init, last := bs[..|bs|-1], bs[|bs|-1];
      DigitsOfValue(init);
      Digit(Value(init), last as int, Value(bs));
      assert bs == init + [last];
    }
  }

  lemma Digit(q: nat, d: nat, v: nat)
    requires d < 256 && v == 256 * q + d
    ensures v / 256 == q && v % 256 == d
  {
  }

  /** The first byte is the most significant: it counts as often as the later ones have values. */
  lemma {:induction false} FirstByte(b: Byte, rest: Bytes)
    ensures Value([b] + rest) == Times(b as int, Pow256(|rest|)) + Value(rest)
  {
    if rest == [] {
      assert ([b] + rest)[..0] == [];
    } else {
      var init := rest[..|rest|-1];
      FirstByte(b, init);
      assert ([b] + rest)[..|rest|] == [b] + init;
      Shifted(b as int, Pow256(|init|));
    }
  }

  function Times(a: nat, b: nat): nat {
    a * b
  }

  lemma Shifted(b: nat, p: nat)
    ensures 256 * Times(b, p) == Times(b, 256 * p)
  {
  }

  /** A value whose length fits the eight length bytes. */
  predicate Fits(v: Bytes) {
    |v| < Pow256(8)
  }

  function Field(v: Bytes): Bytes {
    BigEndian(|v|, 8) + v
  }

  datatype Parsed<T> = Parsed(value: T, rest: Bytes)

  function ReadField(s: Bytes): Option<Parsed<Bytes>> {
    if |s| < 8 then None
    else
      var n := Value(s[..8]);
      if |s| - 8 < n then None else Some(Parsed(s[8..8+n], s[8+n..]))
  }

  /** Reading a field back leaves exactly what followed it. */
  lemma ReadWritten(v: Bytes, rest: Bytes)
    requires Fits(v)
    ensures ReadField(Field(v) + rest) == Some(Parsed(v, rest))
  {
    var s := Field(v) + rest;
    ValueOfDigits(|v|, 8);
    assert s[..8] == BigEndian(|v|, 8);
    assert s[8..8+|v|] == v && s[8+|v|..] == rest;
  }

  /** Whatever is read as a field was framed as that field. */
  lemma WrittenRead(s: Bytes)
    requires ReadField(s).Some?
    ensures s == Field(ReadField(s).value.value) + ReadField(s).value.rest
    ensures |ReadField(s).value.rest| < |s| && Fits(ReadField(s).value.value)
  {
    var n := Value(s[..8]);
    DigitsOfValue(s[..8]);
    assert s == s[..8] + s[8..8+n] + s[8+n..];
  }

  // ----- records

  datatype File = File(path: Bytes, role: Bytes, content: Bytes)

  predicate FileFits(f: File) {
    Fits(f.path) && Fits(f.role) && Fits(f.content)
  }

  function Record(f: File): Bytes {
    [RECORD_TAG] + (Field(REGULAR_FILE) + (Field(f.role) + (Field(f.path) + Field(f.content))))
  }

  function ReadBody(s: Bytes): Option<Parsed<File>> {
    var role := ReadField(s);
    if role.None? then None
    else
      var path := ReadField(role.value.rest);
      if path.None? then None
      else
        var content := ReadField(path.value.rest);
        if content.None? then None
        else Some(Parsed(File(path.value.value, role.value.value, content.value.value), content.value.rest))
  }

  function ReadRecord(s: Bytes): Option<Parsed<File>> {
    if s == [] || s[0] != RECORD_TAG then None
    else
      var kind := ReadField(s[1..]);
      if kind.None? || kind.value.value != REGULAR_FILE then None else ReadBody(kind.value.rest)
  }

  lemma KindFits()
    ensures Fits(REGULAR_FILE)
  {
    PowerGrows();
  }

  lemma PowerGrows()
    ensures Pow256(8) > 65536
  {
    assert Pow256(1) == 256 && Pow256(2) == 65536;
    assert Pow256(3) == 256 * Pow256(2) && Pow256(4) == 256 * Pow256(3) && Pow256(5) == 256 * Pow256(4);
    assert Pow256(6) == 256 * Pow256(5) && Pow256(7) == 256 * Pow256(6) && Pow256(8) == 256 * Pow256(7);
  }

  lemma ReadWrittenBody(f: File, rest: Bytes)
    requires FileFits(f)
    ensures ReadBody(Field(f.role) + (Field(f.path) + (Field(f.content) + rest))) == Some(Parsed(f, rest))
  {
    ReadWritten(f.role, Field(f.path) + (Field(f.content) + rest));
    ReadWritten(f.path, Field(f.content) + rest);
    ReadWritten(f.content, rest);
  }

  lemma Regroup(a: Bytes, b: Bytes, c: Bytes, d: Bytes, rest: Bytes)
    ensures (a + (b + (c + d))) + rest == a + (b + (c + (d + rest)))
  {
  }

  lemma ReadWrittenRecord(f: File, rest: Bytes)
    requires FileFits(f)
    ensures ReadRecord(Record(f) + rest) == Some(Parsed(f, rest))
  {
    var body := Field(f.role) + (Field(f.path) + (Field(f.content) + rest));
    KindFits();
    Regroup(Field(REGULAR_FILE), Field(f.role), Field(f.path), Field(f.content), rest);
    assert (Record(f) + rest)[1..] == Field(REGULAR_FILE) + body;
    ReadWritten(REGULAR_FILE, body);
    ReadWrittenBody(f, rest);
  }

  lemma WrittenReadBody(s: Bytes)
    requires ReadBody(s).Some?
    ensures FileFits(ReadBody(s).value.value) && |ReadBody(s).value.rest| < |s|
    ensures s == Field(ReadBody(s).value.value.role)
                 + (Field(ReadBody(s).value.value.path)
                    + (Field(ReadBody(s).value.value.content) + ReadBody(s).value.rest))
  {
    var role := ReadField(s);
    WrittenRead(s);
    var path := ReadField(role.value.rest);
    WrittenRead(role.value.rest);
    WrittenRead(path.value.rest);
  }

  /** The tag, the kind and the body in front of the rest are the record in front of the rest. */
  lemma ReadBodyFramed(s: Bytes, f: File, body: Bytes, rest: Bytes)
    requires s != [] && s[0] == RECORD_TAG && s[1..] == Field(REGULAR_FILE) + body
    requires body == Field(f.role) + (Field(f.path) + (Field(f.content) + rest))
    ensures s == Record(f) + rest
  {
    Framing(s, Field(REGULAR_FILE), Field(f.role), Field(f.path), Field(f.content), rest);
  }

  lemma Framing(s: Bytes, a: Bytes, b: Bytes, c: Bytes, d: Bytes, rest: Bytes)
    requires s != [] && s[0] == RECORD_TAG && s[1..] == a + (b + (c + (d + rest)))
    ensures s == ([RECORD_TAG] + (a + (b + (c + d)))) + rest
  {
    Regroup(a, b, c, d, rest);
    assert s == [RECORD_TAG] + s[1..];
  }

  lemma WrittenReadRecord(s: Bytes)
    requires ReadRecord(s).Some?
    ensures FileFits(ReadRecord(s).value.value) && |ReadRecord(s).value.rest| < |s|
    ensures s == Record(ReadRecord(s).value.value) + ReadRecord(s).value.rest
  {
    var kind := ReadField(s[1..]);
    WrittenRead(s[1..]);
    WrittenReadBody(kind.value.rest);
    var f, rest := ReadRecord(s).value.value, ReadRecord(s).value.rest;
    ReadBodyFramed(s, f, kind.value.rest, rest);
  }

  function Records(fs: seq<File>): Bytes {
    if fs == [] then [] else Record(fs[0]) + Records(fs[1..])
  }

  /** The independent decoder: record after record until nothing is left. */
  function ReadRecords(s: Bytes): Option<seq<File>>
    decreases |s|
  {
    if s == [] then Some([])
    else
      var first := ReadRecord(s);
      if first.None? || |first.value.rest| >= |s| then None
      else
        var others := ReadRecords(first.value.rest);
        if others.None? then None else Some([first.value.value] + others.value)
  }

  /** Decoding inverts encoding. */
  lemma {:induction false} DecodeInverts(fs: seq<File>)
    requires forall f | f in fs :: FileFits(f)
    ensures ReadRecords(Records(fs)) == Some(fs)
  {
    if fs != [] {
      ReadWrittenRecord(fs[0], Records(fs[1..]));
      DecodeInverts(fs[1..]);
      assert |Record(fs[0])| > 0;
      assert fs == [fs[0]] + fs[1..];
    }
  }

  /** Only encodings decode. */
  lemma {:induction false} EncodeInverts(s: Bytes)
    requires ReadRecords(s).Some?
    ensures Records(ReadRecords(s).value) == s
    decreases |s|
  {
    if s != [] {
      WrittenReadRecord(s);
      EncodeInverts(ReadRecord(s).value.rest);
    }
  }

  // ----- the canonical stream

  /** A declared input: its path and role. Its content is read from the disk when it is hashed. */
  datatype Input = Input(path: Bytes, role: Bytes)

  predicate InputLe(a: Input, b: Input) {
    if a.path != b.path then Text.Le(a.path, b.path) else Text.Le(a.role, b.role)
  }

  lemma InputLeOrders()
    ensures Total(InputLe) && Transitive(InputLe) && Antisymmetric(InputLe)
  {
    forall a: Input, b: Input
      ensures InputLe(a, b) || InputLe(b, a)
    {
      Text.LeTotal(a.path, b.path);
      Text.LeTotal(a.role, b.role);
    }
    forall a: Input, b: Input, c: Input | InputLe(a, b) && InputLe(b, c)
      ensures InputLe(a, c)
    {
      InputLeChain(a, b, c);
    }
    forall a: Input, b: Input | InputLe(a, b) && InputLe(b, a)
      ensures a == b
    {
      if a.path != b.path {
        Text.LeAntisymmetric(a.path, b.path);
      } else {
        Text.LeAntisymmetric(a.role, b.role);
      }
    }
  }

  lemma InputLeChain(a: Input, b: Input, c: Input)
    requires InputLe(a, b) && InputLe(b, c)
    ensures InputLe(a, c)
  {
    if a.path == c.path {
      if a.path == b.path {
        Text.LeTransitive(a.role, b.role, c.role);
      } else {
        Text.LeAntisymmetric(a.path, b.path);
      }
    } else if a.path != b.path && b.path != c.path {
      Text.LeTransitive(a.path, b.path, c.path);
    }
  }

  predicate DistinctPaths(inputs: seq<Input>) {
    forall i, j | 0 <= i < j < |inputs| :: inputs[i].path != inputs[j].path
  }

  predicate NeighboursDiffer(inputs: seq<Input>) {
    forall i | 0 <= i < |inputs| - 1 :: inputs[i].path != inputs[i+1].path
  }

  /** In a sorted list, comparing neighbours finds every duplicate path. */
  lemma NeighboursSuffice(inputs: seq<Input>)
    requires Sorted(inputs, InputLe)
    ensures NeighboursDiffer(inputs) <==> DistinctPaths(inputs)
  {
    if NeighboursDiffer(inputs) {
      forall i, j | 0 <= i < j < |inputs|
        ensures inputs[i].path != inputs[j].path
      {
        if inputs[i].path == inputs[j].path {
          Between(inputs[i], inputs[i+1], inputs[j], i + 1 == j);
        }
      }
    }
  }

  lemma Between(a: Input, b: Input, c: Input, same: bool)
    requires InputLe(a, b) && (if same then b == c else InputLe(b, c)) && a.path == c.path
    ensures b.path == a.path
  {
    if b.path != a.path {
      if !same {
        Text.LeAntisymmetric(a.path, b.path);
      }
    }
  }

  type Disk = Bytes -> Bytes

  function Load(inputs: seq<Input>, disk: Disk): (fs: seq<File>)
    ensures |fs| == |inputs|
    ensures forall i | 0 <= i < |fs| :: fs[i] == File(inputs[i].path, inputs[i].role, disk(inputs[i].path))
  {
    seq(|inputs|, i requires 0 <= i < |inputs| => File(inputs[i].path, inputs[i].role, disk(inputs[i].path)))
  }

  function UpdateField(hasher: Bytes, value: Bytes): Bytes {
    hasher + BigEndian(|value|, 8) + value
  }

  /** Hash one file: tag, kind, role, path, content. */
  method HashRegularFile(hasher: Bytes, path: Bytes, role: Bytes, content: Bytes) returns (h: Bytes)
    ensures h == hasher + Record(File(path, role, content))
  {
    h := hasher + [RECORD_TAG];
    h := UpdateField(h, REGULAR_FILE);
    h := UpdateField(h, role);
    h := UpdateField(h, path);
    h := UpdateField(h, content);
    Framed(hasher, REGULAR_FILE, role, path, content, File(path, role, content), h);
  }

  lemma Framed(hasher: Bytes, kind: Bytes, role: Bytes, path: Bytes, content: Bytes, f: File, h: Bytes)
    requires f == File(path, role, content) && kind == REGULAR_FILE
    requires h == UpdateField(UpdateField(UpdateField(UpdateField(hasher + [RECORD_TAG], kind), role), path), content)
    ensures h == hasher + Record(f)
  {
    UpdateAppends(hasher + [RECORD_TAG], kind);
    UpdateAppends(hasher + [RECORD_TAG] + Field(kind), role);
    UpdateAppends(hasher + [RECORD_TAG] + Field(kind) + Field(role), path);
    UpdateAppends(hasher + [RECORD_TAG] + Field(kind) + Field(role) + Field(path), content);
    FiveParts(hasher, [RECORD_TAG], Field(kind), Field(role), Field(path), Field(content));
  }

  lemma UpdateAppends(hasher: Bytes, value: Bytes)
    ensures UpdateField(hasher, value) == hasher + Field(value)
  {
  }

  lemma FiveParts(h: Bytes, t: Bytes, a: Bytes, b: Bytes, c: Bytes, d: Bytes)
    ensures h + t + a + b + c + d == h + (t + (a + (b + (c + d))))
  {
  }

  lemma Joined(a: Bytes, b: Bytes, c: Bytes)
    ensures a + (b + c) == (a + b) + c && a + [] == a && [] + a == a
  {
  }

  lemma {:induction false} RecordsAppend(fs: seq<File>, f: File)
    ensures Records(fs + [f]) == Records(fs) + Record(f)
  {
    if fs == [] {
      assert fs + [f] == [f] && [f][1..] == [];
      Joined(Record(f), [], []);
    } else {
      RecordsAppend(fs[1..], f);
      assert (fs + [f])[1..] == fs[1..] + [f];
      Joined(Record(fs[0]), Records(fs[1..]), Record(f));
    }
  }

  /** The bytes fed to the hash for a list of inputs. */
  function Stream(inputs: seq<Input>, disk: Disk): Bytes {
    DIGEST_DOMAIN + Records(Load(inputs, disk))
  }

  /** Sort, refuse duplicates, hash in order. */
  method CompiledInputs(inputs: seq<Input>, disk: Disk) returns (r: Result<Bytes>)
    ensures r.Ok? <==> DistinctPaths(inputs)
    ensures r.Ok? ==> r.value == Stream(SortBy(inputs, InputLe), disk)
  {
    var files := SortBy(inputs, InputLe);
    SortedDuplicates(inputs);
    if !NeighboursDiffer(files) {
      return Err("canonical compiled inputs contain a duplicate path");
    }
    var hasher := HashAll(files, disk);
    r := Ok(hasher);
  }

  /** Feed every file to the hash, after the domain. */
  method HashAll(files: seq<Input>, disk: Disk) returns (hasher: Bytes)
    ensures hasher == Stream(files, disk)
  {
    hasher := DIGEST_DOMAIN;
    for k := 0 to |files|
      invariant hasher == Stream(files[..k], disk)
    {
      OneMore(files, disk, k);
      hasher := HashRegularFile(hasher, files[k].path, files[k].role, disk(files[k].path));
    }
    assert files[..|files|] == files;
  }

  /** Comparing neighbours after sorting finds every duplicate path of the original list. */
  lemma SortedDuplicates(inputs: seq<Input>)
    ensures NeighboursDiffer(SortBy(inputs, InputLe)) <==> DistinctPaths(inputs)
  {
    InputLeOrders();
    SortBySorted(inputs, InputLe);
    NeighboursSuffice(SortBy(inputs, InputLe));
    if DistinctPaths(inputs) {
      RearrangedDistinct(inputs, SortBy(inputs, InputLe));
    }
    if DistinctPaths(SortBy(inputs, InputLe)) {
      RearrangedDistinct(SortBy(inputs, InputLe), inputs);
    }
  }

  lemma RearrangedDistinct(a: seq<Input>, b: seq<Input>)
    requires DistinctPaths(a) && multiset(a) == multiset(b)
    ensures DistinctPaths(b)
  {
    forall i, j | 0 <= i < j < |b|
      ensures b[i].path != b[j].path
    {
      InMultiset(a, b, b[i]);
      InMultiset(a, b, b[j]);
      if b[i] == b[j] {
        TwiceIn(b, i, j);
        OnceAtMost(a, b[i]);
      }
    }
  }

  lemma TwiceIn(b: seq<Input>, i: nat, j: nat)
    requires i < j < |b| && b[i] == b[j]
    ensures multiset(b)[b[i]] >= 2
  {
    assert b == b[..j] + b[j..];
    assert b[..j][i] == b[i] && b[j..][0] == b[j];
    assert b[i] in b[..j] && b[i] in b[j..];
  }

  lemma OneMore(files: seq<Input>, disk: Disk, k: nat)
    requires k < |files|
    ensures Stream(files[..k+1], disk)
         == Stream(files[..k], disk) + Record(File(files[k].path, files[k].role, disk(files[k].path)))
  {
    var f := File(files[k].path, files[k].role, disk(files[k].path));
    assert Load(files[..k+1], disk) == Load(files[..k], disk) + [f];
    RecordsAppend(Load(files[..k], disk), f);
  }

  // ----- identity

  predicate AllFit(inputs: seq<Input>, disk: Disk) {
    forall f | f in Load(inputs, disk) :: FileFits(f)
  }

  /** The set of (path, role, content) triples. */
  ghost function Triples(inputs: seq<Input>, disk: Disk): set<File> {
    set f | f in Load(inputs, disk)
  }

  /** The stream does not depend on the order in which the inputs were enumerated. */
  lemma OrderIndependent(a: seq<Input>, b: seq<Input>, disk: Disk)
    requires multiset(a) == multiset(b)
    ensures Stream(SortBy(a, InputLe), disk) == Stream(SortBy(b, InputLe), disk)
  {
    InputLeOrders();
    SortBySorted(a, InputLe);
    SortBySorted(b, InputLe);
    SortedUnique(SortBy(a, InputLe), SortBy(b, InputLe), InputLe);
  }

  /** Equal streams come from equal lists of files. */
  lemma StreamDecodes(a: seq<Input>, disk: Disk, b: seq<Input>, disk': Disk)
    requires AllFit(a, disk) && AllFit(b, disk') && Stream(a, disk) == Stream(b, disk')
    ensures Load(a, disk) == Load(b, disk')
  {
    var n := |DIGEST_DOMAIN|;
    assert Stream(a, disk)[n..] == Records(Load(a, disk)) && Stream(b, disk')[n..] == Records(Load(b, disk'));
    DecodeInverts(Load(a, disk));
    DecodeInverts(Load(b, disk'));
  }

  lemma SortedTriples(a: seq<Input>, disk: Disk)
    ensures Triples(SortBy(a, InputLe), disk) == Triples(a, disk)
    ensures AllFit(a, disk) ==> AllFit(SortBy(a, InputLe), disk)
  {
    var s := SortBy(a, InputLe);
    forall f: File
      ensures f in Load(s, disk) <==> f in Load(a, disk)
    {
      InMultiset(s, a, Input(f.path, f.role));
      LoadMember(s, disk, f);
      LoadMember(a, disk, f);
    }
  }

  lemma LoadMember(a: seq<Input>, disk: Disk, f: File)
    ensures f in Load(a, disk) <==> Input(f.path, f.role) in a && f.content == disk(f.path)
  {
    if Input(f.path, f.role) in a && f.content == disk(f.path) {
      var i :| 0 <= i < |a| && a[i] == Input(f.path, f.role);
      assert Load(a, disk)[i] == f;
    }
  }

  /** Two inputs sets with the same stream are the same set of (path, role, content). */
  lemma UniquelyDecodable(a: seq<Input>, disk: Disk, b: seq<Input>, disk': Disk)
    requires AllFit(a, disk) && AllFit(b, disk')
    requires Stream(SortBy(a, InputLe), disk) == Stream(SortBy(b, InputLe), disk')
    ensures Triples(a, disk) == Triples(b, disk')
  {
    SortedTriples(a, disk);
    SortedTriples(b, disk');
    StreamDecodes(SortBy(a, InputLe), disk, SortBy(b, InputLe), disk');
  }

  ghost predicate CollisionFree(hash: Bytes -> Bytes) {
    forall x, y {:trigger hash(x), hash(y)} :: hash(x) == hash(y) ==> x == y
  }

  /** For duplicate-free inputs the digest identifies exactly the set of (path, role, content): equal digests if and
      only if equal sets. */
  lemma DigestIdentifies(hash: Bytes -> Bytes, a: seq<Input>, disk: Disk, b: seq<Input>, disk': Disk)
    requires CollisionFree(hash) && AllFit(a, disk) && AllFit(b, disk') && DistinctPaths(a) && DistinctPaths(b)
    ensures hash(Stream(SortBy(a, InputLe), disk)) == hash(Stream(SortBy(b, InputLe), disk'))
       <==> Triples(a, disk) == Triples(b, disk')
  {
    if hash(Stream(SortBy(a, InputLe), disk)) == hash(Stream(SortBy(b, InputLe), disk')) {
      UniquelyDecodable(a, disk, b, disk');
    }
    if Triples(a, disk) == Triples(b, disk') {
      SameInputs(a, disk, b, disk');
    }
  }

  /** Equal sets of triples give the same sorted list of files. */
  lemma SameInputs(a: seq<Input>, disk: Disk, b: seq<Input>, disk': Disk)
    requires Triples(a, disk) == Triples(b, disk') && DistinctPaths(a) && DistinctPaths(b)
    ensures Stream(SortBy(a, InputLe), disk) == Stream(SortBy(b, InputLe), disk')
  {
    forall x: Input
      ensures x in a <==> x in b
      ensures x in a ==> disk(x.path) == disk'(x.path)
    {
      if x in a {
        SameMember(a, disk, b, disk', x);
      }
      if x in b {
        SameMember(b, disk', a, disk, x);
      }
    }
    SameElements(a, b);
    InputLeOrders();
    SortBySorted(a, InputLe);
    SortBySorted(b, InputLe);
    SortedUnique(SortBy(a, InputLe), SortBy(b, InputLe), InputLe);
    SameLoad(SortBy(a, InputLe), a, disk, disk');
  }

  lemma SameMember(a: seq<Input>, disk: Disk, b: seq<Input>, disk': Disk, x: Input)
    requires Triples(a, disk) == Triples(b, disk') && x in a
    ensures x in b && disk(x.path) == disk'(x.path)
  {
    var f := File(x.path, x.role, disk(x.path));
    LoadMember(a, disk, f);
    assert f in Triples(a, disk);
    LoadMember(b, disk', f);
  }

  lemma SameLoad(s: seq<Input>, a: seq<Input>, disk: Disk, disk': Disk)
    requires multiset(s) == multiset(a) && forall x | x in a :: disk(x.path) == disk'(x.path)
    ensures Load(s, disk) == Load(s, disk')
  {
    forall i | 0 <= i < |s|
      ensures Load(s, disk)[i] == Load(s, disk')[i]
    {
      assert s[i] in s;
      InMultiset(s, a, s[i]);
    }
  }

  /** Duplicate-free lists with the same members are rearrangements of each other. */
  lemma SameElements(a: seq<Input>, b: seq<Input>)
    requires DistinctPaths(a) && DistinctPaths(b) && forall x: Input :: x in a <==> x in b
    ensures multiset(a) == multiset(b)
  {
    forall x: Input
      ensures multiset(a)[x] == multiset(b)[x]
    {
      OnceAtMost(a, x);
      OnceAtMost(b, x);
    }
  }

  lemma {:induction false} OnceAtMost(a: seq<Input>, x: Input)
    requires DistinctPaths(a)
    ensures multiset(a)[x] == if x in a then 1 else 0
  {
    if a != [] {
      assert a == [a[0]] + a[1..];
      OnceAtMost(a[1..], x);
    }
  }
}
