/** Delete windows: described as half-open, enforced as closed.  Exactly where that differs. */
module Windows {
  import opened Basics
  import opened Batches
  import opened Scan
  import opened Restrictions
  import opened Projection
  import Calendar

  /** The window a tombstone is described to have: the end instant is outside. */
  predicate HalfOpen(t: Tombstone, ns: int) {
    (t.minTs.Some? ==> t.minTs.value <= ns) && (t.maxTs.Some? ==> ns < t.maxTs.value)
  }

  predicate DescribedDeleted(t: Tombstone, get: string -> Cell) {
    TagsMatch(t.tagEquals, get) && (Bounded(t) ==> get("time").Stamp? && HalfOpen(t, get("time").ns))
  }

  predicate DescribedLets(deletes: seq<Tombstone>, get: string -> Cell) {
    forall k :: 0 <= k < |deletes| ==> !DescribedDeleted(deletes[k], get)
  }

  /** The row matches the delete and lies at the window's end instant. */
  predicate AtEnd(t: Tombstone, get: string -> Cell) {
    && TagsMatch(t.tagEquals, get) && get("time").Stamp? && t.maxTs == Some(get("time").ns)
    && (t.minTs.Some? ==> t.minTs.value <= get("time").ns)
  }

  predicate SomeAtEnd(deletes: seq<Tombstone>, get: string -> Cell) {
    exists k :: 0 <= k < |deletes| && AtEnd(deletes[k], get)
  }

  lemma ClosedIsHalfOpenOrEnd(t: Tombstone, get: string -> Cell)
    ensures Deleted(t, get) <==> DescribedDeleted(t, get) || AtEnd(t, get)
  {
  }

  /** A row goes for good reason, or only because it lies at the end of a window. */
  lemma RowIff(deletes: seq<Tombstone>, get: string -> Cell)
    ensures Lets(Deletes(deletes), get) <==> DescribedLets(deletes, get) && !SomeAtEnd(deletes, get)
  {
    forall k | 0 <= k < |deletes|
      ensures Deleted(deletes[k], get) <==> DescribedDeleted(deletes[k], get) || AtEnd(deletes[k], get)
    {
      ClosedIsHalfOpenOrEnd(deletes[k], get);
    }
    if Lets(Deletes(deletes), get) {
      assert forall k :: 0 <= k < |deletes| ==> !Deleted(deletes[k], get);
    }
  }

  function DescribedLetting(deletes: seq<Tombstone>, cols: seq<Column>): Cells -> bool {
    (row: Cells) => DescribedLets(deletes, Getter(cols, row))
  }

  /** A narrower filter keeps the same rows exactly when it keeps every row the wider one does. */
  lemma {:induction false} FilterSameIff<T(!new)>(s: seq<T>, a: T -> bool, b: T -> bool)
    requires forall x :: x in s && a(x) ==> b(x)
    ensures Filter(s, a) == Filter(s, b) <==> forall x :: x in s && b(x) ==> a(x)
    ensures |Filter(s, a)| <= |Filter(s, b)|
  {
    if s != [] {
      FilterSameIff(s[1..], a, b);
      var ra, rb := Filter(s[1..], a), Filter(s[1..], b);
      assert s == [s[0]] + s[1..];
      assert b(s[0]) && !a(s[0]) ==> |Filter(s, b)| == 1 + |rb| && |Filter(s, a)| == |ra|;
      assert a(s[0]) ==> ([s[0]] + ra == [s[0]] + rb <==> ra == rb) by {
        assert ([s[0]] + ra)[1..] == ra && ([s[0]] + rb)[1..] == rb;
      }
    }
  }

  /** On a batch: the enforced deletes leave what the described ones would exactly when every row
   *  at the end of some window is also inside another delete. */
  lemma WindowIff(deletes: seq<Tombstone>, b: Batch)
    requires IsBatch(b) && Applied(Deletes(deletes), b).Ok?
    ensures Applied(Deletes(deletes), b).value.rows == Filter(b.rows, DescribedLetting(deletes, b.cols)) <==>
            forall row :: row in b.rows && SomeAtEnd(deletes, Getter(b.cols, row)) ==> !DescribedLetting(deletes, b.cols)(row)
  {
    var r, wide := Letting(Deletes(deletes), b.cols), DescribedLetting(deletes, b.cols);
    AppliedIsLets(Deletes(deletes), b);
    forall row ensures r(row) <==> wide(row) && !SomeAtEnd(deletes, Getter(b.cols, row)) { RowIff(deletes, Getter(b.cols, row)); }
    FilterSameIff(b.rows, r, wide);
  }

  /** A row exactly at the end of a delete's window goes, and its description keeps it. */
  lemma EndInstantGoes(d: Tombstone, t: int)
    requires Calendar.IsI64(t) && d.tagEquals == [] && d.maxTs == Some(t) && (d.minTs.Some? ==> d.minTs.value <= t)
    ensures var b := Batch([TIME], [[Stamp(t)]]);
            Applied(Deletes([d]), b) == Ok(Batch([TIME], [])) && Filter(b.rows, DescribedLetting([d], b.cols)) == b.rows
  {
    var row := [Stamp(t)];
    var b, get := Batch([TIME], [row]), Getter([TIME], row);
    GetAt([TIME], row, 0);
    assert RowFits(b.cols, row);
    NoTags(d);
    AppliedIsLets(Deletes([d]), b);
    assert AtEnd([d][0], get);
    RowIff([d], get);
    assert !Letting(Deletes([d]), b.cols)(row);
    assert DescribedLetting([d], b.cols)(row);
  }

  lemma NoTags(d: Tombstone)
    requires d.tagEquals == []
    ensures FirstBad([TIME], [d]).None?
  {
    assert Init([d]) == [] && Last([d]) == d;
  }
}
