/** Repeated compaction: any bracketing of contiguous merges of an hour's files leaves the
 *  last write per key of the whole history of that hour. */
module MergeTree {
  import opened Basics
  import opened Sorting
  import opened LastWrite
  import opened Batches
  import opened Flush
  import opened Merge

  /** A bracketing: files, and merges of adjacent results, each with its own cardinalities. */
  datatype Tree = Leaf(file: Batch) | Node(card: string -> nat, kids: seq<Tree>)

  function Leaves(t: Tree): seq<Batch> {
    match t
    case Leaf(b) => [b]
    case Node(_, kids) => LeavesOfAll(kids)
  }

  function LeavesOfAll(ts: seq<Tree>): seq<Batch> {
    if ts == [] then [] else LeavesOfAll(ts[..|ts| - 1]) + Leaves(ts[|ts| - 1])
  }

  /** Runs every merge of the bracketing, innermost first. */
  function Run(t: Tree): Option<Batch> {
    match t
    case Leaf(b) => Some(b)
    case Node(card, kids) =>
      var bs := RunAll(kids);
      if bs.None? then None else var r := MergeOf(card, bs.value); if r.Ok? then Some(r.value) else None
  }

  function RunAll(ts: seq<Tree>): Option<seq<Batch>> {
    if ts == [] then Some([])
    else
      var before, b := RunAll(ts[..|ts| - 1]), Run(ts[|ts| - 1]);
      if before.None? || b.None? then None else Some(before.value + [b.value])
  }

  // ----- tables and hours

  lemma HoldsTable<R, C>(f: R -> Row<C>, s: seq<R>, m: Table<C>)
    requires Holds(f, s, m)
    ensures LastWins(f, s) == m
  {
    var w := LastWins(f, s);
    forall k | k in w ensures k in m && m[k] == w[k] { var i := LastWinsHasWriter(f, s, k); }
    forall k | k in m ensures k in w {
      var i :| 0 <= i < |s| && f(s[i]).Key() == k;
      LastWinsHasKey(f, s, i);
    }
  }

  /** Some rows, all of hour h. */
  predicate AllIn<C>(at: int -> string, rows: seq<Row<C>>, h: string) {
    rows != [] && forall i :: 0 <= i < |rows| ==> at(rows[i].time) == h
  }

  predicate TableIn<C>(at: int -> string, m: Table<C>, h: string) {
    m != map[] && forall k :: k in m ==> at(k.0) == h
  }

  lemma AllInIff<R, C>(f: R -> Row<C>, at: int -> string, rs: seq<R>, h: string)
    ensures AllIn(at, Map(rs, f), h) <==> TableIn(at, LastWins(f, rs), h)
  {
    var m := LastWins(f, rs);
    if TableIn(at, m, h) {
      forall i | 0 <= i < |rs| ensures at(f(rs[i]).time) == h { LastWinsHasKey(f, rs, i); }
    }
    if AllIn(at, Map(rs, f), h) {
      LastWinsHasKey(f, rs, 0);
      forall k | k in m ensures at(k.0) == h { var i := LastWinsHasWriter(f, rs, k); }
    }
  }

  lemma HistoryIn(bs: seq<Batch>, h: string)
    ensures AllIn(HourText(), History(bs), h) <==> TableIn(HourText(), TableOf(bs), h)
  {
    AllInIff(Same(), HourText(), History(bs), h);
    assert Map(History(bs), Same()) == History(bs);
  }

  predicate AllFilesIn(bs: seq<Batch>, h: string) {
    forall i :: 0 <= i < |bs| ==> AllIn(HourText(), RowsOf(bs[i]), h)
  }

  lemma {:induction false} FilesHistory(bs: seq<Batch>, h: string)
    requires AllFilesIn(bs, h) && bs != []
    ensures AllIn(HourText(), History(bs), h)
  {
    var n := |bs| - 1;
    assert AllIn(HourText(), RowsOf(bs[n]), h);
    if n > 0 { FilesHistory(Init(bs), h); }
  }

  // ----- columns

  ghost predicate SameColumns(a: seq<Column>, b: seq<Column>) { forall c :: c in a <==> c in b }

  lemma ColumnsSnoc(bs: seq<Batch>, b: Batch)
    ensures ColumnsOf(bs + [b]) == ColumnsOf(bs) + b.cols
  {
    assert Init(bs + [b]) == bs;
  }

  lemma {:induction false} ColumnsAppend(a: seq<Batch>, b: seq<Batch>)
    ensures ColumnsOf(a + b) == ColumnsOf(a) + ColumnsOf(b)
  {
    if b == [] {
      assert a + b == a;
    } else {
      ColumnsAppend(a, Init(b));
      assert Init(a + b) == a + Init(b);
      ConcatAssoc(ColumnsOf(a), ColumnsOf(Init(b)), Last(b).cols);
    }
  }

  // ----- bracketings

  /** b stands for the files: same rows per key, same columns. */
  ghost predicate Stands(bs: seq<Batch>, files: seq<Batch>) {
    AllBatches(bs) && TableOf(bs) == TableOf(files) && SameColumns(ColumnsOf(bs), ColumnsOf(files))
  }

  lemma StandsAppend(a: seq<Batch>, fa: seq<Batch>, b: seq<Batch>, fb: seq<Batch>)
    requires Stands(a, fa) && Stands(b, fb)
    ensures Stands(a + b, fa + fb)
  {
    TableOfAppend(a, b);
    TableOfAppend(fa, fb);
    ColumnsAppend(a, b);
    ColumnsAppend(fa, fb);
  }

  lemma MergeStands(card: string -> nat, bs: seq<Batch>, files: seq<Batch>)
    requires Stands(bs, files) && MergeOf(card, bs).Ok?
    ensures Stands([MergeOf(card, bs).value], files)
  {
    MergeExact(card, bs);
    var b := MergeOf(card, bs).value;
    HoldsTable(Reader(b.cols), b.rows, TableOf(bs));
    TableOfOne(b);
    ColumnsSnoc([], b);
    assert [] + [b] == [b];
  }

  /** Whatever the bracketing and the clustering tags, the result of the merges holds the
   *  last write per key of the files at the leaves, and all of their columns. */
  lemma {:induction false} AnyBracketing(t: Tree)
    requires AllBatches(Leaves(t)) && Run(t).Some?
    ensures Stands([Run(t).value], Leaves(t))
  {
    match t
    case Leaf(_) =>
    case Node(card, kids) =>
      AnyBracketings(kids);
      MergeStands(card, RunAll(kids).value, LeavesOfAll(kids));
  }

  lemma {:induction false} AnyBracketings(ts: seq<Tree>)
    requires AllBatches(LeavesOfAll(ts)) && RunAll(ts).Some?
    ensures Stands(RunAll(ts).value, LeavesOfAll(ts))
  {
    if ts != [] {
      var n := |ts| - 1;
      var before, last := LeavesOfAll(ts[..n]), Leaves(ts[n]);
      SplitBatches(before, last);
      AnyBracketings(ts[..n]);
      AnyBracketing(ts[n]);
      StandsAppend(RunAll(ts[..n]).value, before, [Run(ts[n]).value], last);
    }
  }

  lemma SplitBatches(a: seq<Batch>, b: seq<Batch>)
    requires AllBatches(a + b)
    ensures AllBatches(a) && AllBatches(b)
  {
    assert forall i :: 0 <= i < |a| ==> (a + b)[i] == a[i];
    assert forall i :: 0 <= i < |b| ==> (a + b)[|a| + i] == b[i];
  }

  // ----- when a bracketing goes through

  /** Every merge is given something. */
  predicate Proper(t: Tree) {
    match t
    case Leaf(_) => true
    case Node(_, kids) => kids != [] && AllProper(kids)
  }

  predicate AllProper(ts: seq<Tree>) {
    ts == [] || (AllProper(ts[..|ts| - 1]) && Proper(ts[|ts| - 1]))
  }

  /** A bracketing of one hour's files goes through exactly when no two of them carry a
   *  column with different types. */
  lemma {:induction false} BracketingIff(t: Tree, h: string)
    requires Proper(t) && AllBatches(Leaves(t)) && AllFilesIn(Leaves(t), h)
    ensures Run(t).Some? <==> NoClash(ColumnsOf(Leaves(t)))
    ensures Leaves(t) != []
  {
    match t
    case Leaf(b) => LeafNoClash(b);
    case Node(card, kids) =>
      BracketingsIff(kids, h);
      if RunAll(kids).Some? {
        AnyBracketings(kids);
        MergeIff(card, RunAll(kids).value, LeavesOfAll(kids), h);
      }
  }

  lemma LeafNoClash(b: Batch)
    requires AllBatches([b])
    ensures NoClash(ColumnsOf([b]))
  {
    assert IsBatch([b][0]);
    ColumnsSnoc([], b);
    assert [] + [b] == [b] && [] + b.cols == b.cols;
  }

  lemma MergeIff(card: string -> nat, bs: seq<Batch>, files: seq<Batch>, h: string)
    requires Stands(bs, files) && AllFilesIn(files, h) && files != []
    ensures MergeOf(card, bs).Ok? <==> NoClash(ColumnsOf(files))
  {
    MergeExact(card, bs);
    FilesHistory(files, h);
    HistoryIn(files, h);
    HistoryIn(bs, h);
    NoClashSame(ColumnsOf(bs), ColumnsOf(files));
  }

  lemma NoClashSame(a: seq<Column>, b: seq<Column>)
    requires SameColumns(a, b)
    ensures NoClash(a) <==> NoClash(b)
  {
  }

  /** Merges below the top fail only on a clash. */
  lemma {:induction false} BracketingsIff(ts: seq<Tree>, h: string)
    requires AllProper(ts) && AllBatches(LeavesOfAll(ts)) && AllFilesIn(LeavesOfAll(ts), h)
    ensures NoClash(ColumnsOf(LeavesOfAll(ts))) ==> RunAll(ts).Some?
    ensures ts != [] ==> LeavesOfAll(ts) != []
  {
    if ts != [] {
      var n := |ts| - 1;
      var before, last := LeavesOfAll(ts[..n]), Leaves(ts[n]);
      SplitBatches(before, last);
      SplitFiles(before, last, h);
      BracketingsIff(ts[..n], h);
      BracketingIff(ts[n], h);
      ColumnsAppend(before, last);
      if NoClash(ColumnsOf(before) + ColumnsOf(last)) { NoClashParts(ColumnsOf(before), ColumnsOf(last)); }
    }
  }

  lemma NoClashParts(a: seq<Column>, b: seq<Column>)
    requires NoClash(a + b)
    ensures NoClash(a) && NoClash(b)
  {
    forall c, d | c in a && d in a ensures !Clash(c, d) { assert c in a + b && d in a + b; }
    forall c, d | c in b && d in b ensures !Clash(c, d) { assert c in a + b && d in a + b; }
  }

  lemma SplitFiles(a: seq<Batch>, b: seq<Batch>, h: string)
    requires AllFilesIn(a + b, h)
    ensures AllFilesIn(a, h) && AllFilesIn(b, h)
  {
    assert forall i :: 0 <= i < |a| ==> (a + b)[i] == a[i];
    assert forall i :: 0 <= i < |b| ==> (a + b)[|a| + i] == b[i];
  }

  // ----- from the buffer to settled files

  /** The files of hour h that flushing these buffers leaves, oldest first. */
  function Flushed(buffers: seq<Batch>, h: string): seq<Batch> {
    if buffers == [] then [] else Flushed(Init(buffers), h) + FlushedPart(Last(buffers), h)
  }

  function FlushedPart(b: Batch, h: string): seq<Batch> {
    var parts := Group(HourOf(), Prepare(Below(b.cols, None), b.rows));
    if h in parts then [Batch(b.cols, parts[h])] else []
  }

  /** No key occurs twice. */
  ghost predicate Deduped(b: Batch) { Holds(Reader(b.cols), b.rows, LastWins(Reader(b.cols), b.rows)) }

  lemma PartIsFile(cols: seq<Column>, rows: seq<Cells>, m: Table<Cell>)
    requires IsSchema(cols) && AllOk(Fits(cols), rows) && Holds(Reader(cols), rows, m)
    ensures IsBatch(Batch(cols, rows)) && TableOf([Batch(cols, rows)]) == m && Deduped(Batch(cols, rows))
  {
    HoldsTable(Reader(cols), rows, m);
    TableOfOne(Batch(cols, rows));
    assert forall i :: 0 <= i < |rows| ==> Fits(cols)(rows[i]);
  }

  /** The part of hour h, if there is one. */
  lemma FlushedPartHolds(b: Batch, h: string, parts: map<string, seq<Cells>>)
    requires IsBatch(b) && parts == Group(HourOf(), Prepare(Below(b.cols, None), b.rows))
    ensures var m := AtHour(HourText(), LastWins(Reader(b.cols), b.rows), h);
            if h in parts then IsBatch(Batch(b.cols, parts[h])) && TableOf([Batch(b.cols, parts[h])]) == m && Deduped(Batch(b.cols, parts[h]))
            else m == map[]
  {
    PartHolds(b, None, h);
    if h in parts { PartIsFile(b.cols, parts[h], AtHour(HourText(), LastWins(Reader(b.cols), b.rows), h)); }
  }

  lemma FlushedPartIs(b: Batch, h: string)
    requires IsBatch(b)
    ensures AllBatches(FlushedPart(b, h)) && TableOf(FlushedPart(b, h)) == AtHour(HourText(), TableOf([b]), h)
    ensures forall f :: f in FlushedPart(b, h) ==> Deduped(f)
  {
    FlushedPartHolds(b, h, Group(HourOf(), Prepare(Below(b.cols, None), b.rows)));
    TableOfOne(b);
  }

  lemma FlushedPartIn(b: Batch, h: string)
    requires IsBatch(b)
    ensures AllFilesIn(FlushedPart(b, h), h)
  {
    PartHolds(b, None, h);
    var fs := FlushedPart(b, h);
    if fs != [] {
      GroupNonEmpty(HourOf(), Prepare(Below(b.cols, None), b.rows), h);
      HoldsIn(Reader(b.cols), HourText(), fs[0].rows, LastWins(Reader(b.cols), b.rows), h);
    }
  }

  lemma HoldsIn<R, C>(f: R -> Row<C>, at: int -> string, s: seq<R>, m: Table<C>, h: string)
    requires s != [] && Holds(f, s, AtHour(at, m, h))
    ensures AllIn(at, Map(s, f), h)
  {
    forall i | 0 <= i < |s| ensures at(f(s[i]).time) == h { assert f(s[i]).Key() in AtHour(at, m, h); }
  }

  lemma GroupNonEmpty<R>(hour: R -> string, rs: seq<R>, h: string)
    requires h in Group(hour, rs)
    ensures Group(hour, rs)[h] != []
  {
    if h !in Group(hour, Init(rs)) || hour(Last(rs)) == h {
    } else {
      GroupNonEmpty(hour, Init(rs), h);
    }
  }

  lemma {:induction false} FlushedIs(buffers: seq<Batch>, h: string)
    requires AllBatches(buffers)
    ensures TableOf(Flushed(buffers, h)) == AtHour(HourText(), TableOf(buffers), h)
    ensures AllBatches(Flushed(buffers, h)) && AllFilesIn(Flushed(buffers, h), h)
    ensures forall f :: f in Flushed(buffers, h) ==> Deduped(f)
  {
    if buffers != [] {
      var b := Last(buffers);
      FlushedIs(Init(buffers), h);
      FlushedPartIs(b, h);
      FlushedPartIn(b, h);
      TableOfAppend(Flushed(Init(buffers), h), FlushedPart(b, h));
      TableOfAppend(Init(buffers), [b]);
      InitLast(buffers);
      AtHourOverride(HourText(), TableOf(Init(buffers)), TableOf([b]), h);
    }
  }

  lemma MergeDedups(card: string -> nat, bs: seq<Batch>)
    requires AllBatches(bs) && MergeOf(card, bs).Ok?
    ensures Deduped(MergeOf(card, bs).value)
  {
    MergeExact(card, bs);
    var b := MergeOf(card, bs).value;
    HoldsTable(Reader(b.cols), b.rows, TableOf(bs));
  }

  lemma RunDedups(t: Tree)
    requires AllBatches(Leaves(t)) && Run(t).Some? && forall f :: f in Leaves(t) ==> Deduped(f)
    ensures Deduped(Run(t).value)
  {
    match t
    case Leaf(b) => assert b in Leaves(t);
    case Node(card, kids) =>
      AnyBracketings(kids);
      MergeDedups(card, RunAll(kids).value);
  }

  /** End to end: flush any number of buffers, compact hour h's files in any bracketing; it
   *  goes through iff the files' column types agree, and then the settled file holds, once
   *  each, exactly hour h of the last write per key of everything ever buffered. */
  lemma FlushAndCompact(buffers: seq<Batch>, h: string, t: Tree)
    requires AllBatches(buffers) && Proper(t) && Leaves(t) == Flushed(buffers, h)
    ensures Run(t).Some? <==> NoClash(ColumnsOf(Flushed(buffers, h)))
    ensures Run(t).Some? ==> IsBatch(Run(t).value) && Deduped(Run(t).value) &&
                             TableOf([Run(t).value]) == AtHour(HourText(), TableOf(buffers), h)
  {
    FlushedIs(buffers, h);
    BracketingIff(t, h);
    if Run(t).Some? {
      AnyBracketing(t);
      RunDedups(t);
      assert IsBatch([Run(t).value][0]);
    }
  }
}
