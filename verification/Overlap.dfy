/** When a partition's files overlap in time: a sort-and-sweep test and the pairwise meaning. */
module Overlap {
  import opened Basics
  import opened Sorting

  /** A file's time bounds. */
  type Range = (int, int)

  predicate Before(a: Range, b: Range) { a.0 < b.0 || (a.0 == b.0 && a.1 <= b.1) }

  /** Of two files ordered by (min, max), the later starts before the earlier ends. */
  predicate Clashes(a: Range, b: Range) { Before(a, b) && b.0 < a.1 }

  /** Some two distinct files do. */
  ghost predicate Overlapping(s: seq<Range>) {
    exists i, j :: 0 <= i < |s| && 0 <= j < |s| && i != j && Clashes(s[i], s[j])
  }

  // ----- order does not matter

  ghost predicate OverlappingBag(m: multiset<Range>) { exists x, y :: multiset{x, y} <= m && Clashes(x, y) }

  lemma {:induction false} TwoOf(s: seq<Range>, i: nat, j: nat)
    requires i < j < |s|
    ensures multiset{s[i], s[j]} <= multiset(s)
  {
    var n := |s| - 1;
    InitLast(s);
    if j < n { TwoOf(Init(s), i, j); } else { assert Init(s)[i] in multiset(Init(s)); }
  }

  lemma {:induction false} FindTwo(s: seq<Range>, x: Range, y: Range) returns (i: nat, j: nat)
    requires multiset{x, y} <= multiset(s)
    ensures i < |s| && j < |s| && i != j && s[i] == x && s[j] == y
  {
    assert s != [] by { assert x in multiset(s); }
    var n := |s| - 1;
    InitLast(s);
    var bag := multiset(Init(s));
    if multiset{x, y} <= bag {
      i, j := FindTwo(Init(s), x, y);
    } else if s[n] == x && y in bag {
      i := n;
      j :| 0 <= j < n && Init(s)[j] == y;
    } else {
      j := n;
      assert x in bag && s[n] == y;
      i :| 0 <= i < n && Init(s)[i] == x;
    }
  }

  lemma BagIff(s: seq<Range>)
    ensures Overlapping(s) <==> OverlappingBag(multiset(s))
  {
    if Overlapping(s) {
      var i, j :| 0 <= i < |s| && 0 <= j < |s| && i != j && Clashes(s[i], s[j]);
      if i < j { TwoOf(s, i, j); } else { TwoOf(s, j, i); assert multiset{s[j], s[i]} == multiset{s[i], s[j]}; }
    }
    if OverlappingBag(multiset(s)) {
      var x, y :| multiset{x, y} <= multiset(s) && Clashes(x, y);
      var i, j := FindTwo(s, x, y);
    }
  }

  // ----- sorting

  predicate Less(a: Range, b: Range) { a.0 < b.0 || (a.0 == b.0 && a.1 < b.1) }

  function Any(): Range -> bool { (r: Range) => true }

  lemma LessIsWeak()
    ensures Weak(Less, Any())
  {
  }

  /** Some later range starts before an earlier one ends. */
  predicate StartsEarly(s: seq<Range>) { exists i, j :: 0 <= i < j < |s| && s[j].0 < s[i].1 }

  /** In sorted order only earlier-later pairs need looking at. */
  lemma SortedIff(s: seq<Range>)
    requires Sorted(Less, s)
    ensures Overlapping(s) <==> StartsEarly(s)
  {
    if StartsEarly(s) {
      var i, j :| 0 <= i < j < |s| && s[j].0 < s[i].1;
      assert !Less(s[j], s[i]);
      assert Clashes(s[i], s[j]);
    }
    if Overlapping(s) {
      var i, j :| 0 <= i < |s| && 0 <= j < |s| && i != j && Clashes(s[i], s[j]);
      if j < i { assert !Less(s[i], s[j]) && s[i] == s[j]; }
    }
  }

  /** The sorted ranges answer for the files in any order. */
  lemma SortedAnswer(files: seq<Range>, s: seq<Range>)
    requires s == StableSort(Less, files)
    ensures |s| == |files| && (Overlapping(files) <==> StartsEarly(s))
  {
    LessIsWeak();
    SortSorted(Less, Any(), files);
    SortBag(Less, files);
    SortLength(Less, files);
    BagIff(files);
    BagIff(s);
    SortedIff(s);
  }

  // ----- the sweep

  /** `has_overlap`: one pass against the furthest end so far decides the pairwise question. */
  method HasOverlap(files: seq<Range>) returns (r: bool)
    ensures r <==> Overlapping(files)
  {
    var s := StableSort(Less, files);
    SortedAnswer(files, s);
    if |files| < 2 { return false; }
    r := Sweep(s);
  }

  method Sweep(s: seq<Range>) returns (r: bool)
    requires s != []
    ensures r <==> StartsEarly(s)
  {
    var furthest := s[0].1;
    ghost var at := 0;
    for j := 1 to |s|
      invariant 0 <= at < j && furthest == s[at].1 && forall i :: 0 <= i < j ==> s[i].1 <= furthest
      invariant forall i, k :: 0 <= i < k < j ==> s[k].0 >= s[i].1
    {
      if s[j].0 < furthest { return true; }
      if s[j].1 > furthest { furthest, at := s[j].1, j; }
    }
    r := false;
  }
}
