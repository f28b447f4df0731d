/** Sorting by a key, and the order of strings and of tuples of keys. */
module Ordering {
  import opened Basics

  // ---------- Strings ----------

  /** The order of Python strings: by code point, a prefix first. */
  predicate StringLe(a: string, b: string) {
    a == [] || (b != [] && (a[0] < b[0] || (a[0] == b[0] && StringLe(a[1..], b[1..]))))
  }

  /** The first difference decides; without one the shorter string comes first. */
  lemma {:induction false} StringLeFirst(a: string, b: string)
    ensures StringLe(a, b) <==>
      a <= b || exists i | 0 <= i < |a| && i < |b| :: a[..i] == b[..i] && a[i] < b[i]
  {
    if a != [] && b != [] && a[0] == b[0] {
      StringLeFirst(a[1..], b[1..]);
      assert a == [a[0]] + a[1..] && b == [b[0]] + b[1..];
      if i :| 0 <= i < |a[1..]| && i < |b[1..]| && a[1..][..i] == b[1..][..i] && a[1..][i] < b[1..][i] {
        assert a[..i + 1] == [a[0]] + a[1..][..i] && b[..i + 1] == [b[0]] + b[1..][..i];
        assert a[i + 1] < b[i + 1];
      }
      if i :| 0 <= i < |a| && i < |b| && a[..i] == b[..i] && a[i] < b[i] {
        assert i > 0;
        assert a[1..][..i - 1] == a[..i][1..] && b[1..][..i - 1] == b[..i][1..];
        assert a[1..][i - 1] < b[1..][i - 1];
      }
    } else if a != [] && b != [] {
      assert a[..0] == b[..0];
      forall i | 0 <= i < |a| && i < |b|
        ensures a[..i] == b[..i] ==> i == 0
      {
        SameHead(a, b, i);
      }
    }
  }

  lemma SameHead(a: string, b: string, i: nat)
    requires i < |a| && i < |b|
    ensures a[..i] == b[..i] && i > 0 ==> a[0] == b[0]
  {
    if i > 0 {
      assert a[..i][0] == a[0] && b[..i][0] == b[0];
    }
  }

  lemma {:induction false} StringLeTotal(a: string, b: string)
    ensures StringLe(a, b) || StringLe(b, a)
    ensures StringLe(a, b) && StringLe(b, a) ==> a == b
    ensures StringLe(a, a)
    decreases |a| + |b|
  {
    if a != [] && b != [] {
      StringLeTotal(a[1..], b[1..]);
      assert a == [a[0]] + a[1..] && b == [b[0]] + b[1..];
    }
    if a != [] {
      StringLeTotal(a[1..], []);
    }
  }

  lemma {:induction false} StringLeTransitive(a: string, b: string, c: string)
    requires StringLe(a, b) && StringLe(b, c)
    ensures StringLe(a, c)
  {
    if a != [] && a[0] == b[0] && b[0] == c[0] {
      StringLeTransitive(a[1..], b[1..], c[1..]);
    }
  }

  // ---------- Sorting ----------

  ghost predicate TotalOrder<T(!new)>(le: (T, T) -> bool) {
    && (forall x, y :: le(x, y) || le(y, x))
    && (forall x, y, z :: le(x, y) && le(y, z) ==> le(x, z))
  }

  ghost predicate SortedBy<T>(s: seq<T>, le: (T, T) -> bool) {
    forall i, j | 0 <= i < j < |s| :: le(s[i], s[j])
  }

  /** A stable insertion: `x` goes before the first element it does not exceed. */
  function Insert<T>(x: T, s: seq<T>, le: (T, T) -> bool): (r: seq<T>)
    ensures multiset(r) == multiset(s) + multiset{x}
  {
    if s == [] || le(x, s[0]) then [x] + s
    else
      assert s == [s[0]] + s[1..];
      [s[0]] + Insert(x, s[1..], le)
  }

  lemma {:induction false} InsertSorted<T(!new)>(x: T, s: seq<T>, le: (T, T) -> bool)
    requires TotalOrder(le) && SortedBy(s, le)
    ensures SortedBy(Insert(x, s, le), le)
  {
    if s != [] && !le(x, s[0]) {
      var t := Insert(x, s[1..], le);
      InsertSorted(x, s[1..], le);
      forall y | y in t
        ensures le(s[0], y)
      {
        assert y in multiset(t);
        assert y == x || y in s[1..];
      }
      assert forall i | 0 <= i < |t| :: t[i] in t;
    }
  }

  /** sorted(s, key=...) */
  function Sort<T>(s: seq<T>, le: (T, T) -> bool): (r: seq<T>)
    ensures multiset(r) == multiset(s)
  {
    if s == [] then []
    else
      assert s == [s[0]] + s[1..];
      Insert(s[0], Sort(s[1..], le), le)
  }

  lemma {:induction false} SortSorts<T(!new)>(s: seq<T>, le: (T, T) -> bool)
    requires TotalOrder(le)
    ensures SortedBy(Sort(s, le), le)
  {
    if s != [] {
      SortSorts(s[1..], le);
      InsertSorted(s[0], Sort(s[1..], le), le);
    }
  }

  lemma MultisetMembers<T>(a: seq<T>, b: seq<T>)
    requires multiset(a) == multiset(b)
    ensures |a| == |b| && forall x :: x in a <==> x in b
  {
    assert forall x :: x in a <==> x in multiset(a);
    assert |a| == |multiset(a)|;
  }

  // ---------- Sorted sets ----------

  /** sorted(set(...)): the members, once each, in order. */
  ghost predicate Lists(s: seq<string>, members: set<string>) {
    Unique(s) && SortedBy(s, StringLe) && forall x :: x in s <==> x in members
  }

  /** sorted() of a set of strings. */
  method SortedSet(members: set<string>) returns (s: seq<string>)
    ensures Lists(s, members)
  {
    s := [];
    var rest := members;
    StringOrder();
    while rest != {}
      invariant rest <= members && Lists(s, members - rest)
      decreases |rest|
    {
      var x :| x in rest;
      InsertLists(s, members - rest, x);
      assert members - (rest - {x}) == (members - rest) + {x};
      s := Insert(x, s, StringLe);
      rest := rest - {x};
    }
  }

  lemma StringOrder()
    ensures TotalOrder(StringLe)
  {
    forall x, y
      ensures StringLe(x, y) || StringLe(y, x)
    {
      StringLeTotal(x, y);
    }
    forall x, y, z | StringLe(x, y) && StringLe(y, z)
      ensures StringLe(x, z)
    {
      StringLeTransitive(x, y, z);
    }
  }

  lemma InsertLists(s: seq<string>, members: set<string>, x: string)
    requires TotalOrder(StringLe) && Lists(s, members) && x !in members
    ensures Lists(Insert(x, s, StringLe), members + {x})
  {
    var r := Insert(x, s, StringLe);
    InsertSorted(x, s, StringLe);
    forall y
      ensures y in r <==> y in s || y == x
    {
      assert y in r <==> y in multiset(r);
      assert y in s <==> y in multiset(s);
    }
    InsertUnique(s, x);
  }

  lemma {:induction false} InsertUnique(s: seq<string>, x: string)
    requires Unique(s) && x !in s
    ensures Unique(Insert(x, s, StringLe))
  {
    if s != [] && !StringLe(x, s[0]) {
      var t := Insert(x, s[1..], StringLe);
      assert forall y :: y in s[1..] ==> y in s;
      InsertUnique(s[1..], x);
      forall y | y in t
        ensures y != s[0]
      {
        assert y in multiset(t);
        assert y in s[1..] || y == x;
      }
      assert forall i | 0 <= i < |t| :: t[i] in t;
    }
  }
}
