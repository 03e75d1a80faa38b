/** Stable sorting by a total preorder: what the models assume of the library's `sort_by`. */
module Sorting {

  ghost predicate Total<T(!new)>(le: (T, T) -> bool) {
    forall x, y :: le(x, y) || le(y, x)
  }

  ghost predicate Transitive<T(!new)>(le: (T, T) -> bool) {
    forall x, y, z :: le(x, y) && le(y, z) ==> le(x, z)
  }

  ghost predicate Sorted<T(!new)>(s: seq<T>, le: (T, T) -> bool) {
    forall i, j | 0 <= i < j < |s| :: le(s[i], s[j])
  }

  function Insert<T>(x: T, s: seq<T>, le: (T, T) -> bool): (r: seq<T>)
    ensures multiset(r) == multiset(s) + multiset{x}
    ensures |r| == |s| + 1
  {
    if s == [] || le(x, s[0]) then
      [x] + s
    else
      assert s == [s[0]] + s[1..];
      [s[0]] + Insert(x, s[1..], le)
  }

  function SortBy<T>(s: seq<T>, le: (T, T) -> bool): (r: seq<T>)
    ensures multiset(r) == multiset(s)
    ensures |r| == |s|
  {
    if s == [] then []
    else
      assert s == [s[0]] + s[1..];
      Insert(s[0], SortBy(s[1..], le), le)
  }

  lemma InMultiset<T>(s: seq<T>, t: seq<T>, x: T)
    requires multiset(s) == multiset(t)
    ensures x in s <==> x in t
  {
    assert x in s <==> x in multiset(s);
    assert x in t <==> x in multiset(t);
  }

  lemma {:induction false} InsertSorted<T(!new)>(x: T, s: seq<T>, le: (T, T) -> bool)
    requires Total(le) && Transitive(le) && Sorted(s, le)
    ensures Sorted(Insert(x, s, le), le)
  {
    var r := Insert(x, s, le);
    if s == [] {
    } else if le(x, s[0]) {
      forall i, j | 0 <= i < j < |r|
        ensures le(r[i], r[j])
      {
        if i == 0 && j > 1 {
          assert le(s[0], s[j-1]);
        }
      }
    } else {
      var t := Insert(x, s[1..], le);
      InsertSorted(x, s[1..], le);
      assert r == [s[0]] + t;
      forall j | 0 <= j < |t|
        ensures le(s[0], t[j])
      {
        assert t[j] in multiset(t);
        assert multiset(t) == multiset(s[1..]) + multiset{x};
        if t[j] != x {
          assert t[j] in s[1..];
          var k :| 0 <= k < |s[1..]| && s[1..][k] == t[j];
          assert s[k+1] == t[j];
        }
      }
    }
  }

  lemma {:induction false} SortBySorted<T(!new)>(s: seq<T>, le: (T, T) -> bool)
    requires Total(le) && Transitive(le)
    ensures Sorted(SortBy(s, le), le)
  {
    if s != [] {
      SortBySorted(s[1..], le);
      InsertSorted(s[0], SortBy(s[1..], le), le);
    }
  }

  ghost predicate Antisymmetric<T(!new)>(le: (T, T) -> bool) {
    forall x, y :: le(x, y) && le(y, x) ==> x == y
  }

  /** The head of a sorted sequence is below every member. */
  lemma HeadLeast<T(!new)>(a: seq<T>, x: T, le: (T, T) -> bool)
    requires Total(le) && Sorted(a, le) && x in a
    ensures le(a[0], x)
  {
    var i :| 0 <= i < |a| && a[i] == x;
    if i == 0 {
      assert le(a[0], a[0]);
    }
  }

  /** Sorting by a total order leaves only one arrangement. */
  lemma {:induction false} SortedUnique<T(!new)>(a: seq<T>, b: seq<T>, le: (T, T) -> bool)
    requires Total(le) && Antisymmetric(le) && Sorted(a, le) && Sorted(b, le) && multiset(a) == multiset(b)
    ensures a == b
  {
    if a == [] {
      assert |multiset(b)| == 0;
    } else {
      assert |multiset(a)| == |a| && |multiset(b)| == |b|;
      InMultiset(a, b, a[0]);
      InMultiset(a, b, b[0]);
      HeadLeast(a, b[0], le);
      HeadLeast(b, a[0], le);
      assert a == [a[0]] + a[1..] && b == [b[0]] + b[1..];
      assert multiset(a[1..]) == multiset(a) - multiset{a[0]} == multiset(b[1..]);
      SortedUnique(a[1..], b[1..], le);
    }
  }

  // ----- stability

  /** The entries that the order cannot tell from `e`, in their own order. */
  ghost function Ties<T(!new)>(s: seq<T>, e: T, le: (T, T) -> bool): seq<T> {
    if s == [] then []
    else if le(s[0], e) && le(e, s[0]) then [s[0]] + Ties(s[1..], e, le)
    else Ties(s[1..], e, le)
  }

  lemma TiesHead<T(!new)>(x: T, s: seq<T>, e: T, le: (T, T) -> bool)
    ensures Ties([x] + s, e, le) == if le(x, e) && le(e, x) then [x] + Ties(s, e, le) else Ties(s, e, le)
  {
    assert ([x] + s)[1..] == s;
  }

  lemma NotBoth<T(!new)>(x: T, y: T, e: T, le: (T, T) -> bool)
    requires Transitive(le) && !le(x, y)
    ensures !le(x, e) || !le(e, y)
  {
  }

  lemma {:induction false} InsertTies<T(!new)>(x: T, s: seq<T>, e: T, le: (T, T) -> bool)
    requires Transitive(le)
    ensures Ties(Insert(x, s, le), e, le) == Ties([x] + s, e, le)
  {
    if s != [] && !le(x, s[0]) {
      InsertTies(x, s[1..], e, le);
      TiesHead(s[0], Insert(x, s[1..], le), e, le);
      TiesHead(x, s[1..], e, le);
      TiesHead(x, s, e, le);
      NotBoth(x, s[0], e, le);
    }
  }

  /** Entries that the order cannot tell apart stay in the order they came in. */
  lemma {:induction false} SortKeepsTies<T(!new)>(s: seq<T>, e: T, le: (T, T) -> bool)
    requires Transitive(le)
    ensures Ties(SortBy(s, le), e, le) == Ties(s, e, le)
  {
    if s != [] {
      SortKeepsTies(s[1..], e, le);
      InsertTies(s[0], SortBy(s[1..], le), e, le);
      TiesHead(s[0], SortBy(s[1..], le), e, le);
    }
  }
}
