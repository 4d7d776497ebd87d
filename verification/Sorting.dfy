/**
 Sorting by a total order: what `sorted`, `list.sort` and `ORDER BY` promise, and that there is
 only one way to keep it.
 */
module Sorting {

  ghost predicate SortedBy<T(!new)>(le: (T, T) -> bool, s: seq<T>) {
    forall i, j :: 0 <= i < j < |s| ==> le(s[i], s[j])
  }

  /** `le` orders the members of `s` totally. */
  ghost predicate TotalOrderOn<T(!new)>(le: (T, T) -> bool, s: set<T>) {
    && (forall x, y :: x in s && y in s ==> le(x, y) || le(y, x))
    && (forall x, y :: x in s && y in s && le(x, y) && le(y, x) ==> x == y)
    && (forall x, y, z :: x in s && y in s && z in s && le(x, y) && le(y, z) ==> le(x, z))
  }

  function Members<T(!new)>(s: seq<T>): (r: set<T>)
    ensures forall x :: x in r <==> x in s
  {
    set x | x in s
  }

  function Insert<T>(le: (T, T) -> bool, x: T, s: seq<T>): (r: seq<T>)
    ensures multiset(r) == multiset{x} + multiset(s)
  {
    if s == [] then [x]
    else if le(x, s[0]) then [x] + s
    else
      assert s == [s[0]] + s[1..];
      [s[0]] + Insert(le, x, s[1..])
  }

  function Sort<T>(le: (T, T) -> bool, s: seq<T>): (r: seq<T>)
    ensures multiset(r) == multiset(s) && |r| == |s|
  {
    if s == [] then []
    else
      assert s == [s[0]] + s[1..];
      var r := Insert(le, s[0], Sort(le, s[1..]));
      assert |multiset(r)| == |multiset(s)|;
      r
  }

  lemma SameMembers<T(!new)>(a: seq<T>, b: seq<T>)
    requires multiset(a) == multiset(b)
    ensures Members(a) == Members(b) && |a| == |b|
  {
    forall x ensures x in a <==> x in b {
      assert x in multiset(a) <==> x in a;
    }
    assert |multiset(a)| == |multiset(b)|;
  }

  lemma {:induction false} InsertSorts<T(!new)>(le: (T, T) -> bool, x: T, s: seq<T>, all: set<T>)
    requires TotalOrderOn(le, all) && x in all && Members(s) <= all && SortedBy(le, s)
    ensures SortedBy(le, Insert(le, x, s))
  {
    if s != [] {
      assert s[0] in Members(s);
      if le(x, s[0]) {
        forall j | 0 <= j < |s| ensures le(x, s[j]) {
          assert s[j] in Members(s);
        }
      } else {
        var rest := Insert(le, x, s[1..]);
        assert Members(s[1..]) <= Members(s);
        InsertSorts(le, x, s[1..], all);
        LeastStays(le, x, s, rest);
      }
    }
  }

  lemma LeastStays<T(!new)>(le: (T, T) -> bool, x: T, s: seq<T>, rest: seq<T>)
    requires s != [] && SortedBy(le, s) && le(s[0], x) && multiset(rest) == multiset{x} + multiset(s[1..])
    ensures forall j :: 0 <= j < |rest| ==> le(s[0], rest[j])
  {
    forall j | 0 <= j < |rest| ensures le(s[0], rest[j]) {
      assert rest[j] in multiset(rest);
      if rest[j] != x {
        assert rest[j] in multiset(s[1..]);
      }
    }
  }

  lemma {:induction false} SortSorts<T(!new)>(le: (T, T) -> bool, s: seq<T>, all: set<T>)
    requires TotalOrderOn(le, all) && Members(s) <= all
    ensures SortedBy(le, Sort(le, s))
  {
    if s != [] {
      assert Members(s[1..]) <= Members(s) && s[0] in Members(s);
      SortSorts(le, s[1..], all);
      SameMembers(Sort(le, s[1..]), s[1..]);
      InsertSorts(le, s[0], Sort(le, s[1..]), all);
    }
  }

  /** Two sorted sequences of the same elements are the same sequence. */
  lemma {:induction false} SortedIsUnique<T(!new)>(le: (T, T) -> bool, a: seq<T>, b: seq<T>, all: set<T>)
    requires TotalOrderOn(le, all) && Members(a) <= all && multiset(a) == multiset(b)
    requires SortedBy(le, a) && SortedBy(le, b)
    ensures a == b
  {
    SameMembers(a, b);
    if a != [] {
      SameHeads(le, a, b, all);
      SameTails(a, b);
      TailStaysSorted(le, a, all);
      TailStaysSorted(le, b, all);
      SortedIsUnique(le, a[1..], b[1..], all);
      assert a == [a[0]] + a[1..] && b == [b[0]] + b[1..];
    }
  }

  lemma SameHeads<T(!new)>(le: (T, T) -> bool, a: seq<T>, b: seq<T>, all: set<T>)
    requires TotalOrderOn(le, all) && Members(a) == Members(b) <= all && a != [] && b != []
    requires SortedBy(le, a) && SortedBy(le, b)
    ensures a[0] == b[0]
  {
    assert a[0] in Members(b) && b[0] in Members(a);
    FirstIsLeast(le, a, b[0], all);
    FirstIsLeast(le, b, a[0], all);
  }

  lemma SameTails<T>(a: seq<T>, b: seq<T>)
    requires a != [] && b != [] && a[0] == b[0] && multiset(a) == multiset(b)
    ensures multiset(a[1..]) == multiset(b[1..])
  {
    assert a == [a[0]] + a[1..] && b == [b[0]] + b[1..];
    assert multiset(a[1..]) == multiset(a) - multiset{a[0]};
    assert multiset(b[1..]) == multiset(b) - multiset{b[0]};
  }

  lemma TailStaysSorted<T(!new)>(le: (T, T) -> bool, s: seq<T>, all: set<T>)
    requires s != [] && SortedBy(le, s) && Members(s) <= all
    ensures SortedBy(le, s[1..]) && Members(s[1..]) <= all
  {
    assert forall x :: x in Members(s[1..]) ==> x in Members(s);
  }

  lemma FirstIsLeast<T(!new)>(le: (T, T) -> bool, s: seq<T>, x: T, all: set<T>)
    requires SortedBy(le, s) && x in s && Members(s) <= all && TotalOrderOn(le, all)
    ensures le(s[0], x)
  {
    var i :| 0 <= i < |s| && s[i] == x;
    assert s[0] in Members(s);
  }

  /** Sorting forgets the order the elements came in. */
  lemma SortOfPermutation<T(!new)>(le: (T, T) -> bool, a: seq<T>, b: seq<T>)
    requires TotalOrderOn(le, Members(a)) && multiset(a) == multiset(b)
    ensures Sort(le, a) == Sort(le, b)
  {
    SameMembers(a, b);
    SortSorts(le, a, Members(a));
    SortSorts(le, b, Members(a));
    SameMembers(Sort(le, a), a);
    SortedIsUnique(le, Sort(le, a), Sort(le, b), Members(a));
  }

  // ----- distinct elements

  ghost predicate Distinct<T>(s: seq<T>) {
    forall i, j :: 0 <= i < j < |s| ==> s[i] != s[j]
  }

  lemma {:induction false} DistinctOnce<T>(s: seq<T>, x: T)
    requires Distinct(s)
    ensures multiset(s)[x] <= 1
  {
    if s != [] {
      assert s == [s[0]] + s[1..];
      DistinctOnce(s[1..], x);
    }
  }

  lemma EqualTwice<T>(s: seq<T>, i: nat, j: nat)
    requires i < j < |s| && s[i] == s[j]
    ensures multiset(s)[s[i]] >= 2
  {
    var a, b, c := s[..i], s[i + 1..j], s[j + 1..];
    assert s == a + [s[i]] + b + [s[j]] + c;
  }

  lemma DistinctPermutation<T>(a: seq<T>, b: seq<T>)
    requires Distinct(a) && multiset(a) == multiset(b)
    ensures Distinct(b)
  {
    forall i, j | 0 <= i < j < |b| ensures b[i] != b[j] {
      DistinctOnce(a, b[i]);
      if b[i] == b[j] {
        EqualTwice(b, i, j);
      }
    }
  }
}
