/** Compaction merges: any bracketing of merges of flushed files is the last write per key
 *  of everything that was written. */
module Merge {
  import opened Basics
  import opened Sorting
  import opened LastWrite
  import opened Batches
  import opened Flush
  import Names
  import Calendar

  // ----- what several batches say together

  /** The logical rows of several batches, oldest first. */
  function History(bs: seq<Batch>): seq<Row<Cell>> {
    if bs == [] then [] else History(Init(bs)) + RowsOf(Last(bs))
  }

  function RowsOf(b: Batch): seq<Row<Cell>> { Map(b.rows, Reader(b.cols)) }

  function Same(): Row<Cell> -> Row<Cell> { (r: Row<Cell>) => r }

  /** The last write per key of everything in the batches. */
  function TableOf(bs: seq<Batch>): Table<Cell> { LastWins(Same(), History(bs)) }

  lemma {:induction false} HistoryAppend(a: seq<Batch>, b: seq<Batch>)
    ensures History(a + b) == History(a) + History(b)
  {
    if b == [] {
      assert a + b == a;
    } else {
      HistoryAppend(a, Init(b));
      assert Init(a + b) == a + Init(b);
      ConcatAssoc(History(a), History(Init(b)), RowsOf(Last(b)));
    }
  }

  lemma TableOfAppend(a: seq<Batch>, b: seq<Batch>)
    ensures TableOf(a + b) == TableOf(a) + TableOf(b)
  {
    HistoryAppend(a, b);
    LastWinsAppend(Same(), History(a), History(b));
  }

  lemma TableOfOne(b: Batch)
    ensures TableOf([b]) == LastWins(Reader(b.cols), b.rows)
  {
    assert Init([b]) == [] && History([b]) == [] + RowsOf(b) == RowsOf(b);
    LastWinsOfMap(Reader(b.cols), Same(), Reader(b.cols), b.rows);
  }

  // ----- concatenating aligned batches

  /** `concat_batches` of the aligned inputs. */
  function Combined(cols: seq<Column>, bs: seq<Batch>): seq<Cells> {
    if bs == [] then [] else Combined(cols, Init(bs)) + AlignBatch(cols, Last(bs)).rows
  }

  lemma AlignedFits(to: seq<Column>, from: seq<Column>, row: Cells)
    requires IsSchema(to) && IsSchema(from) && Carries(to, from) && RowFits(from, row)
    ensures RowFits(to, AlignRow(to, from, row))
  {
    forall i | 0 <= i < |to| ensures CellFits(to[i].kind, Get(from, row, to[i].name)) {
      if to[i].name in NamesOf(from) {
        var c :| c in from && c.name == to[i].name;
        var j :| 0 <= j < |from| && from[j] == c;
        SameName(to, to[i], c);
        GetAt(from, row, j);
        assert CellFits(from[j].kind, row[j]);
      } else {
        GetMissing(from, row, to[i].name);
        assert from[0] in from;
      }
    }
  }

  lemma AlignedRows(cols: seq<Column>, b: Batch)
    requires IsSchema(cols) && IsBatch(b) && Carries(cols, b.cols)
    ensures Map(AlignBatch(cols, b).rows, Reader(cols)) == RowsOf(b)
    ensures AllOk(Fits(cols), AlignBatch(cols, b).rows)
  {
    var rows := AlignBatch(cols, b).rows;
    forall i | 0 <= i < |b.rows| ensures Fits(cols)(rows[i]) && Reader(cols)(rows[i]) == Reader(b.cols)(b.rows[i]) {
      AlignKeepsRow(cols, b.cols, b.rows[i]);
      AlignedFits(cols, b.cols, b.rows[i]);
    }
  }

  lemma MapAppend<A, B>(a: seq<A>, b: seq<A>, f: A -> B)
    ensures Map(a + b, f) == Map(a, f) + Map(b, f)
  {
  }

  lemma AllOkAppend<R>(ok: R -> bool, a: seq<R>, b: seq<R>)
    requires AllOk(ok, a) && AllOk(ok, b)
    ensures AllOk(ok, a + b)
  {
  }

  /** Concatenating aligned batches reads as the concatenated history. */
  lemma {:induction false} CombinedReads(cols: seq<Column>, bs: seq<Batch>)
    requires IsSchema(cols) && AllBatches(bs) && forall b :: b in bs ==> Carries(cols, b.cols)
    ensures Map(Combined(cols, bs), Reader(cols)) == History(bs)
    ensures AllOk(Fits(cols), Combined(cols, bs))
  {
    if bs != [] {
      var b := Last(bs);
      assert b in bs && IsBatch(b);
      CombinedReads(cols, Init(bs));
      AlignedRows(cols, b);
      var before, rows := Combined(cols, Init(bs)), AlignBatch(cols, b).rows;
      MapAppend(before, rows, Reader(cols));
      AllOkAppend(Fits(cols), before, rows);
    }
  }

  // ----- merge_files

  /** The clustering tag: the largest (cardinality, name) among the tag columns. */
  function Cluster(card: string -> nat, cols: seq<Column>): (r: Option<string>)
    ensures r.None? <==> TagNames(cols) == {}
    ensures r.Some? ==> r.value in TagNames(cols)
    ensures r.Some? ==> forall n :: n in TagNames(cols) ==> card(n) <= card(r.value)
  {
    if cols == [] then None
    else
      var best := Cluster(card, Init(cols));
      var c := Last(cols);
      assert TagNames(cols) == TagNames(Init(cols)) + (if c.kind.Tag? then {c.name} else {}) by { InitLast(cols); }
      if !c.kind.Tag? || (best.Some? && Outranks(card, best.value, c.name)) then best else Some(c.name)
  }

  predicate Outranks(card: string -> nat, a: string, b: string) {
    card(a) > card(b) || (card(a) == card(b) && Names.LexLess(b, a))
  }

  datatype MergeError = NothingToMerge | TypeClash | CrossesHours(parts: nat)

  datatype Merged = Merged(batch: Batch, min: int, max: int)

  /** The rows `merge_files` keeps, in the order it stores them. */
  function Settled(card: string -> nat, cols: seq<Column>, bs: seq<Batch>): seq<Cells> {
    Prepare(Below(cols, Cluster(card, cols)), Combined(cols, bs))
  }

  /** What a merge of these batches leaves, or why it does not. */
  function MergeOf(card: string -> nat, bs: seq<Batch>): Result<Batch, MergeError> {
    var u := Union(ColumnsOf(bs));
    if bs == [] then Err(NothingToMerge)
    else if u.None? then Err(TypeClash)
    else
      var kept := Settled(card, u.value, bs);
      var parts := |Group(HourOf(), kept)|;
      if parts == 1 then Ok(Batch(u.value, kept)) else Err(CrossesHours(parts))
  }

  /** Align, concatenate, sort and sweep; fails unless one hour part comes out. */
  method MergeFiles(card: string -> nat, sets: seq<seq<Batch>>) returns (r: Result<Merged, MergeError>)
    requires AllBatches(Flatten(sets))
    ensures r.Ok? ==> MergeOf(card, Flatten(sets)) == Ok(r.value.batch) && Bounds(r.value.batch.rows, r.value.min, r.value.max)
    ensures r.Err? ==> MergeOf(card, Flatten(sets)) == Err(r.error)
  {
    var bs := Flatten(sets);
    if bs == [] { return Err(NothingToMerge); }
    var aligned := Align(bs);
    if aligned.None? { return Err(TypeClash); }
    var cols := aligned.value.0;
    var combined := Concat(cols, bs, aligned.value.1);
    UnionIsSchema(bs);
    SettledIs(card, cols, bs);
    r := Settle(cols, combined, Cluster(card, cols));
  }

  method Settle(cols: seq<Column>, combined: seq<Cells>, leading: Option<string>) returns (r: Result<Merged, MergeError>)
    requires IsSchema(cols) && AllOk(Fits(cols), Prepare(Below(cols, leading), combined))
    ensures var kept := Prepare(Below(cols, leading), combined);
            var parts := |Group(HourOf(), kept)|;
            if parts == 1 then r.Ok? && r.value.batch == Batch(cols, kept) && Bounds(kept, r.value.min, r.value.max)
            else r == Err(CrossesHours(parts))
  {
    var parts := PrepareOrdered(Batch(cols, combined), leading);
    if |parts| != 1 { return Err(CrossesHours(|parts|)); }
    OnePartIff(HourOf(), Prepare(Below(cols, leading), combined));
    var h :| h in parts;
    var merged := parts[h];
    FirstIsTime(cols, merged);
    var lo, hi := TimeBounds(merged);
    r := Ok(Merged(Batch(cols, merged), lo, hi));
  }

  lemma FirstIsTime(cols: seq<Column>, rows: seq<Cells>)
    requires IsSchema(cols) && AllOk(Fits(cols), rows)
    ensures forall i :: 0 <= i < |rows| ==> rows[i] != [] && rows[i][0].Stamp? && Calendar.IsI64(rows[i][0].ns)
  {
    forall i | 0 <= i < |rows| ensures rows[i] != [] && rows[i][0].Stamp? && Calendar.IsI64(rows[i][0].ns) {
      assert RowFits(cols, rows[i]) && CellFits(cols[0].kind, rows[i][0]);
    }
  }

  method Concat(cols: seq<Column>, bs: seq<Batch>, files: seq<Batch>) returns (rows: seq<Cells>)
    requires |files| == |bs| && forall i :: 0 <= i < |bs| ==> files[i] == AlignBatch(cols, bs[i])
    ensures rows == Combined(cols, bs)
  {
    rows := [];
    for i := 0 to |bs|
      invariant rows == Combined(cols, bs[..i])
    {
      assert Init(bs[..i + 1]) == bs[..i];
      rows := rows + files[i].rows;
    }
    assert bs[..|bs|] == bs;
  }

  /** The kept rows are the last write per key of all the inputs; one part, iff one hour. */
  lemma SettledIs(card: string -> nat, cols: seq<Column>, bs: seq<Batch>)
    requires IsSchema(cols) && AllBatches(bs) && forall b :: b in bs ==> Carries(cols, b.cols)
    ensures var kept := Settled(card, cols, bs);
            && AllOk(Fits(cols), kept) && Holds(Reader(cols), kept, TableOf(bs))
            && (|Group(HourOf(), kept)| == 1 <==> OneHour(HourText(), History(bs)))
  {
    CombinedReads(cols, bs);
    KeysOrdered(cols, Cluster(card, cols));
    forall r | Fits(cols)(r) ensures HourOf()(r) == HourText()(Reader(cols)(r).time) { RowHour(cols, r); }
    SettledBy(Reader(cols), HourText(), HourOf(), Below(cols, Cluster(card, cols)), Fits(cols), Combined(cols, bs));
    LastWinsOfMap(Reader(cols), Same(), Reader(cols), Combined(cols, bs));
  }

  lemma SettledBy<R(!new), C>(f: R -> Row<C>, at: int -> string, hour: R -> string, below: (R, R) -> bool, ok: R -> bool,
                              rs: seq<R>)
    requires OrdersKeys(f, below, ok) && AllOk(ok, rs) && forall r :: ok(r) ==> hour(r) == at(f(r).time)
    ensures var kept := Prepare(below, rs);
            && AllOk(ok, kept) && Holds(f, kept, LastWins(f, rs))
            && (|Group(hour, kept)| == 1 <==> OneHour(at, Map(rs, f)))
  {
    PrepareIsLastWins(f, below, ok, rs);
    AllOkMembers(ok, rs, Prepare(below, rs));
    SortedHolds(f, below, ok, Prepare(below, rs));
    PrepareOnePartIff(f, at, hour, below, ok, rs);
  }

  /** A merge succeeds exactly on non-empty, type-compatible input of one UTC hour, and what
   *  it leaves is the last write per key of the inputs, oldest first, whatever tag it
   *  clusters by. */
  lemma MergeExact(card: string -> nat, bs: seq<Batch>)
    requires AllBatches(bs)
    ensures MergeOf(card, bs).Ok? <==> NoClash(ColumnsOf(bs)) && OneHour(HourText(), History(bs))
    ensures MergeOf(card, bs).Ok? ==>
              var b := MergeOf(card, bs).value;
              IsBatch(b) && Holds(Reader(b.cols), b.rows, TableOf(bs)) && forall c :: c in b.cols <==> c in ColumnsOf(bs)
    ensures MergeOf(card, bs) == Err(TypeClash) <==> !NoClash(ColumnsOf(bs))
    ensures MergeOf(card, bs) == Err(NothingToMerge) <==> bs == []
  {
    UnionIff(ColumnsOf(bs));
    if bs != [] && NoClash(ColumnsOf(bs)) {
      UnionIsSchema(bs);
      SettledIs(card, Union(ColumnsOf(bs)).value, bs);
    }
  }
}
