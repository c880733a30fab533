/** Flush: the sort-based pass that keeps the last write of each key and splits by hour. */
module Flush {
  import opened Basics
  import opened Sorting
  import opened LastWrite
  import opened Batches
  import Calendar

  function Reader(cols: seq<Column>): Cells -> Row<Cell> { (row: Cells) => Read(cols, row) }

  function Fits(cols: seq<Column>): Cells -> bool { (row: Cells) => RowFits(cols, row) }

  /** Row order of `prepare_ordered`: by sort key. */
  function Below(cols: seq<Column>, leading: Option<string>): (Cells, Cells) -> bool {
    (a: Cells, b: Cells) =>
      cols != [] && |a| == |cols| && |b| == |cols| && TupleLess(SortKey(cols, leading, a), SortKey(cols, leading, b))
  }

  lemma BelowOrder(cols: seq<Column>, leading: Option<string>, a: Cells, b: Cells)
    requires IsSchema(cols) && LeadsByTag(cols, leading) && RowFits(cols, a) && RowFits(cols, b)
    ensures Below(cols, leading)(a, b) ==>
              Reader(cols)(a).Key() != Reader(cols)(b).Key() && !Below(cols, leading)(b, a)
    ensures !Below(cols, leading)(a, b) && !Below(cols, leading)(b, a) ==>
              Reader(cols)(a).Key() == Reader(cols)(b).Key()
  {
    SortKeyIff(cols, leading, a, b);
    KeyIff(cols, a, b);
    TupleOrder(SortKey(cols, leading, a), SortKey(cols, leading, b));
  }

  lemma BelowTransitive(cols: seq<Column>, leading: Option<string>, a: Cells, b: Cells, c: Cells)
    requires Below(cols, leading)(a, b) && Below(cols, leading)(b, c)
    ensures Below(cols, leading)(a, c)
  {
    TupleTransitive(SortKey(cols, leading, a), SortKey(cols, leading, b), SortKey(cols, leading, c));
  }

  /** Whatever tag leads, the sort order is an order of primary keys. */
  lemma KeysOrdered(cols: seq<Column>, leading: Option<string>)
    requires IsSchema(cols) && LeadsByTag(cols, leading)
    ensures OrdersKeys(Reader(cols), Below(cols, leading), Fits(cols))
  {
    var f, below, ok := Reader(cols), Below(cols, leading), Fits(cols);
    forall a, b | ok(a) && ok(b)
      ensures below(a, b) ==> f(a).Key() != f(b).Key() && !below(b, a)
      ensures !below(a, b) && !below(b, a) ==> f(a).Key() == f(b).Key()
    {
      BelowOrder(cols, leading, a, b);
    }
    forall a, b, c | below(a, b) && below(b, c) ensures below(a, c) { BelowTransitive(cols, leading, a, b, c); }
  }

  // ----- prepare_ordered

  /** The hour partition of a timestamp; the source's timestamps are i64. */
  function HourText(): int -> string {
    (ns: int) => if Calendar.IsI64(ns) then Calendar.HourPartition(ns) else ""
  }

  /** The hour of a row, read off its first column. */
  function HourOf(): Cells -> string {
    (row: Cells) => if row != [] && row[0].Stamp? then HourText()(row[0].ns) else ""
  }

  method PrepareOrdered(b: Batch, leading: Option<string>) returns (parts: Parts<Cells>)
    ensures parts == Group(HourOf(), Prepare(Below(b.cols, leading), b.rows))
  {
    var below := Below(b.cols, leading);
    var sorted := StableSort(below, b.rows);
    var kept: seq<Cells> := [];
    for i := 0 to |sorted|
      invariant kept == Sweep(below, sorted[..i])
    {
      assert Init(sorted[..i + 1]) == sorted[..i];
      if kept != [] && SameKey(below, Last(kept), sorted[i]) {
        kept := Init(kept) + [sorted[i]];
      } else {
        kept := kept + [sorted[i]];
      }
    }
    assert sorted[..|sorted|] == sorted;
    var hour := HourOf();
    parts := map[];
    for i := 0 to |kept|
      invariant parts == Group(hour, kept[..i])
    {
      assert Init(kept[..i + 1]) == kept[..i];
      parts := PutIn(parts, hour(kept[i]), kept[i]);
    }
    assert kept[..|kept|] == kept;
  }

  // ----- what a part holds

  lemma RowHour(cols: seq<Column>, row: Cells)
    requires IsSchema(cols) && RowFits(cols, row)
    ensures HourOf()(row) == HourText()(Reader(cols)(row).time)
  {
    GetAt(cols, row, 0);
    assert CellFits(cols[0].kind, row[0]);
  }

  /** `prepare_ordered` splits a batch into hour parts that hold, between them, exactly
   *  the last write of every key, each in the part of its hour, whichever tag leads. */
  lemma PartHolds(b: Batch, leading: Option<string>, h: string)
    requires IsBatch(b) && LeadsByTag(b.cols, leading)
    ensures var parts := Group(HourOf(), Prepare(Below(b.cols, leading), b.rows));
            var m := AtHour(HourText(), LastWins(Reader(b.cols), b.rows), h);
            && (h in parts ==> Holds(Reader(b.cols), parts[h], m) && AllOk(Fits(b.cols), parts[h]))
            && (h !in parts ==> m == map[])
  {
    forall r | Fits(b.cols)(r) ensures HourOf()(r) == HourText()(Reader(b.cols)(r).time) { RowHour(b.cols, r); }
    KeysOrdered(b.cols, leading);
    PartHoldsBy(Reader(b.cols), HourText(), HourOf(), Below(b.cols, leading), Fits(b.cols), b.rows, h);
  }

  lemma PartHoldsBy<R(!new), C>(f: R -> Row<C>, at: int -> string, hour: R -> string, below: (R, R) -> bool, ok: R -> bool,
                                rs: seq<R>, h: string)
    requires OrdersKeys(f, below, ok) && AllOk(ok, rs) && forall r :: ok(r) ==> hour(r) == at(f(r).time)
    ensures var parts := Group(hour, Prepare(below, rs));
            var m := AtHour(at, LastWins(f, rs), h);
            && (h in parts ==> Holds(f, parts[h], m) && AllOk(ok, parts[h]))
            && (h !in parts ==> m == map[])
  {
    var kept := Prepare(below, rs);
    PrepareIsLastWins(f, below, ok, rs);
    AllOkMembers(ok, rs, kept);
    GroupAt(hour, kept, h);
    InHourLastWins(f, at, hour, ok, kept, h);
    InHourSorted(hour, below, kept, h);
    AllOkMembers(ok, kept, InHour(hour, kept, h));
    SortedHolds(f, below, ok, InHour(hour, kept, h));
  }

  /** The bounds contain every row's time, and are attained if there is a row. */
  predicate Bounds(rows: seq<Cells>, lo: int, hi: int) {
    && (forall i :: 0 <= i < |rows| ==> rows[i] != [] && rows[i][0].Stamp? && lo <= rows[i][0].ns <= hi)
    && (rows != [] ==> (exists i :: 0 <= i < |rows| && rows[i][0].ns == lo) && (exists i :: 0 <= i < |rows| && rows[i][0].ns == hi))
  }

  /** `time_bounds` */
  method TimeBounds(rows: seq<Cells>) returns (lo: int, hi: int)
    requires forall i :: 0 <= i < |rows| ==> rows[i] != [] && rows[i][0].Stamp? && Calendar.IsI64(rows[i][0].ns)
    ensures Bounds(rows, lo, hi)
  {
    lo, hi := I64_MAX, I64_MIN;
    for i := 0 to |rows|
      invariant i == 0 ==> lo == I64_MAX && hi == I64_MIN
      invariant forall j :: 0 <= j < i ==> lo <= rows[j][0].ns <= hi
      invariant i > 0 ==> (exists j :: 0 <= j < i && rows[j][0].ns == lo) && (exists j :: 0 <= j < i && rows[j][0].ns == hi)
    {
      var v := rows[i][0].ns;
      lo := Min(lo, v);
      hi := Max(hi, v);
    }
  }
}
