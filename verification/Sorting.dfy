/** Stable sorting by a strict order, as the standard library's `sort_by` does it. */
module Sorting {
  import opened Basics

  /** Stable insertion: after every element that is not above it. */
  function Insert<T>(below: (T, T) -> bool, s: seq<T>, x: T): seq<T> {
    if s != [] && below(x, Last(s)) then Insert(below, Init(s), x) + [Last(s)] else s + [x]
  }

  function StableSort<T>(below: (T, T) -> bool, s: seq<T>): seq<T> {
    if s == [] then [] else Insert(below, StableSort(below, Init(s)), Last(s))
  }

  predicate Sorted<T>(below: (T, T) -> bool, s: seq<T>) {
    forall i, j :: 0 <= i < j < |s| ==> !below(s[j], s[i])
  }

  predicate AllOk<T>(ok: T -> bool, s: seq<T>) { forall i :: 0 <= i < |s| ==> ok(s[i]) }

  /** On good elements `below` is a strict order in which not being below carries over. */
  ghost predicate Weak<T(!new)>(below: (T, T) -> bool, ok: T -> bool) {
    && (forall a, b {:trigger below(a, b)} :: ok(a) && ok(b) && below(a, b) ==> !below(b, a))
    && (forall a, b, c {:trigger below(b, a), below(c, b)} ::
          ok(a) && ok(b) && ok(c) && !below(b, a) && !below(c, b) ==> !below(c, a))
  }

  lemma AllOkMembers<T>(ok: T -> bool, s: seq<T>, t: seq<T>)
    requires AllOk(ok, s) && forall x :: x in t ==> x in s
    ensures AllOk(ok, t)
  {
    forall i | 0 <= i < |t| ensures ok(t[i]) {
      assert t[i] in t;
      var j :| 0 <= j < |s| && s[j] == t[i];
    }
  }

  // ----- a permutation

  lemma {:induction false} InsertBag<T>(below: (T, T) -> bool, s: seq<T>, x: T)
    ensures multiset(Insert(below, s, x)) == multiset(s) + multiset{x}
    ensures forall y :: y in Insert(below, s, x) <==> y in s || y == x
  {
    if s != [] && below(x, Last(s)) {
      InitLast(s);
      InsertBag(below, Init(s), x);
    }
  }

  lemma {:induction false} SortBag<T>(below: (T, T) -> bool, s: seq<T>)
    ensures multiset(StableSort(below, s)) == multiset(s)
    ensures forall y :: y in StableSort(below, s) <==> y in s
  {
    if s != [] {
      SortBag(below, Init(s));
      InsertBag(below, StableSort(below, Init(s)), Last(s));
      InitLast(s);
    }
  }

  lemma SortLength<T>(below: (T, T) -> bool, s: seq<T>)
    ensures |StableSort(below, s)| == |s|
  {
    SortBag(below, s);
    assert |multiset(StableSort(below, s))| == |StableSort(below, s)| && |multiset(s)| == |s|;
  }

  // ----- in order

  lemma {:induction false} InsertSorted<T(!new)>(below: (T, T) -> bool, ok: T -> bool, s: seq<T>, x: T)
    requires Weak(below, ok) && AllOk(ok, s) && ok(x) && Sorted(below, s)
    ensures Sorted(below, Insert(below, s, x))
  {
    if s != [] {
      var n := |s| - 1;
      if below(x, s[n]) {
        InsertSorted(below, ok, Init(s), x);
        InsertBag(below, Init(s), x);
        var t := Insert(below, Init(s), x);
        forall i | 0 <= i < |t| ensures !below(s[n], t[i]) {
          assert t[i] in t;
          assert t[i] in Init(s) ==> !below(s[n], t[i]);
        }
      } else {
        forall i | 0 <= i < |s| ensures !below(x, s[i]) { assert i < n ==> !below(s[n], s[i]); }
      }
    }
  }

  lemma {:induction false} SortSorted<T(!new)>(below: (T, T) -> bool, ok: T -> bool, s: seq<T>)
    requires Weak(below, ok) && AllOk(ok, s)
    ensures Sorted(below, StableSort(below, s))
  {
    if s != [] {
      var t := StableSort(below, Init(s));
      SortSorted(below, ok, Init(s));
      SortBag(below, Init(s));
      AllOkMembers(ok, s, t);
      InsertSorted(below, ok, t, Last(s));
    }
  }

  /** Sorting what is sorted changes nothing. */
  lemma {:induction false} SortIdle<T>(below: (T, T) -> bool, s: seq<T>)
    requires Sorted(below, s)
    ensures StableSort(below, s) == s
  {
    if s != [] {
      SortIdle(below, Init(s));
      assert |s| > 1 ==> !below(s[|s| - 1], s[|s| - 2]);
      InitLast(s);
    }
  }

  /** Unequal elements are comparable. */
  ghost predicate Comparable<T(!new)>(below: (T, T) -> bool) {
    forall a, b {:trigger below(a, b)} :: !below(a, b) && !below(b, a) ==> a == b
  }

  lemma SameLast<T(!new)>(below: (T, T) -> bool, s: seq<T>, t: seq<T>)
    requires Comparable(below) && s != [] && t != []
    requires Sorted(below, s) && Sorted(below, t) && multiset(s) == multiset(t)
    ensures Last(s) == Last(t) && multiset(Init(s)) == multiset(Init(t))
  {
    InitBag(s);
    InitBag(t);
    LastIsTop(below, s, Last(t));
    LastIsTop(below, t, Last(s));
  }

  /** A bag of comparable elements has one sorted listing. */
  lemma {:induction false} SortedUnique<T(!new)>(below: (T, T) -> bool, s: seq<T>, t: seq<T>)
    requires Comparable(below) && Sorted(below, s) && Sorted(below, t) && multiset(s) == multiset(t)
    ensures s == t
  {
    assert |multiset(s)| == |s| && |multiset(t)| == |t|;
    if s != [] {
      SameLast(below, s, t);
      SortedUnique(below, Init(s), Init(t));
      InitLast(s);
      InitLast(t);
    }
  }

  lemma InitBag<T>(s: seq<T>)
    requires s != []
    ensures multiset(Init(s)) == multiset(s) - multiset{Last(s)} && Last(s) in multiset(s)
  {
    assert s == Init(s) + [Last(s)];
  }

  lemma LastIsTop<T>(below: (T, T) -> bool, s: seq<T>, y: T)
    requires s != [] && Sorted(below, s) && y in multiset(s)
    ensures y == Last(s) || !below(Last(s), y)
  {
    var i :| 0 <= i < |s| && s[i] == y;
  }
}
