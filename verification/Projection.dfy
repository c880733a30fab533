/** Restrictions survive projection: whatever columns a query asks for, none included, a scan
 *  returns exactly the rows every restriction lets through. */
module Projection {
  import opened Basics
  import opened Batches
  import opened Scan
  import opened Restrictions

  /** The columns a restriction's mask reads. */
  function Required(r: Restriction): set<string> {
    match r
    case Visibility(column, _) => {column}
    case Deletes(deletes) => {"time"} + TagsOf(deletes)
  }

  function TagsOf(deletes: seq<Tombstone>): set<string> {
    set d, t | d in deletes && t in d.tagEquals :: t.0
  }

  /** `pc` is the columns of `cols` with the given names, in some order. */
  ghost predicate Projects(pc: seq<Column>, cols: seq<Column>, names: set<string>) {
    DistinctNames(pc) && DistinctNames(cols) && forall c :: c in pc <==> c in cols && c.name in names
  }

  lemma KindIs(cols: seq<Column>, c: Column)
    requires DistinctNames(cols) && c in cols
    ensures KindOf(cols, c.name) == Some(c.kind)
  {
    var i := FindCol(cols, c.name);
    SameName(cols, c, cols[i.value]);
  }

  lemma KindKept(pc: seq<Column>, cols: seq<Column>, names: set<string>, n: string)
    requires Projects(pc, cols, names) && n in names
    ensures KindOf(pc, n) == KindOf(cols, n)
  {
    if n in NamesOf(cols) {
      var c :| c in cols && c.name == n;
      KindIs(cols, c);
      KindIs(pc, c);
    }
  }

  lemma CellKept(pc: seq<Column>, cols: seq<Column>, names: set<string>, row: Cells, n: string)
    requires Projects(pc, cols, names) && n in names && |row| == |cols|
    ensures Get(pc, AlignRow(pc, cols, row), n) == Get(cols, row, n)
  {
    if n in NamesOf(cols) {
      var c :| c in cols && c.name == n;
      var i :| 0 <= i < |pc| && pc[i] == c;
      GetAt(pc, AlignRow(pc, cols, row), i);
    } else {
      GetMissing(cols, row, n);
      GetMissing(pc, AlignRow(pc, cols, row), n);
    }
  }

  lemma {:induction false} FitKept(pc: seq<Column>, cols: seq<Column>, names: set<string>, tags: seq<(string, string)>)
    requires Projects(pc, cols, names) && forall t :: t in tags ==> t.0 in names
    ensures TagFit(pc, tags) == TagFit(cols, tags)
  {
    if tags != [] {
      FitKept(pc, cols, names, Init(tags));
      assert Last(tags) in tags;
      KindKept(pc, cols, names, Last(tags).0);
    }
  }

  lemma {:induction false} FirstBadKept(pc: seq<Column>, cols: seq<Column>, names: set<string>, deletes: seq<Tombstone>)
    requires Projects(pc, cols, names) && TagsOf(deletes) <= names
    ensures FirstBad(pc, deletes) == FirstBad(cols, deletes)
  {
    if deletes != [] {
      var d := Last(deletes);
      assert d in deletes;
      assert TagsOf(Init(deletes)) <= TagsOf(deletes);
      FirstBadKept(pc, cols, names, Init(deletes));
      forall t | t in d.tagEquals ensures t.0 in names { assert t.0 in TagsOf(deletes); }
      FitKept(pc, cols, names, d.tagEquals);
    }
  }

  lemma DeletedKept(pc: seq<Column>, cols: seq<Column>, names: set<string>, d: Tombstone, row: Cells)
    requires Projects(pc, cols, names) && |row| == |cols| && "time" in names && forall t :: t in d.tagEquals ==> t.0 in names
    ensures DeletedIn(pc, d, AlignRow(pc, cols, row)) <==> DeletedIn(cols, d, row)
  {
    FitKept(pc, cols, names, d.tagEquals);
    KindKept(pc, cols, names, "time");
    CellKept(pc, cols, names, row, "time");
    TagsKept(pc, cols, names, d.tagEquals, row);
  }

  lemma TagsKept(pc: seq<Column>, cols: seq<Column>, names: set<string>, tags: seq<(string, string)>, row: Cells)
    requires Projects(pc, cols, names) && |row| == |cols| && forall t :: t in tags ==> t.0 in names
    ensures TagsMatch(tags, Getter(pc, AlignRow(pc, cols, row))) <==> TagsMatch(tags, Getter(cols, row))
  {
    var g, h := Getter(pc, AlignRow(pc, cols, row)), Getter(cols, row);
    forall k | 0 <= k < |tags| ensures g(tags[k].0) == h(tags[k].0) {
      assert tags[k] in tags;
      CellKept(pc, cols, names, row, tags[k].0);
    }
  }

  lemma SurvivesKept(pc: seq<Column>, cols: seq<Column>, names: set<string>, deletes: seq<Tombstone>, row: Cells)
    requires Projects(pc, cols, names) && |row| == |cols| && "time" in names && TagsOf(deletes) <= names
    ensures Survives(pc, deletes, AlignRow(pc, cols, row)) <==> Survives(cols, deletes, row)
  {
    forall k | 0 <= k < |deletes| ensures DeletedIn(pc, deletes[k], AlignRow(pc, cols, row)) <==> DeletedIn(cols, deletes[k], row) {
      assert deletes[k] in deletes;
      forall t | t in deletes[k].tagEquals ensures t.0 in names { assert t.0 in TagsOf(deletes); }
      DeletedKept(pc, cols, names, deletes[k], row);
    }
  }

  lemma {:induction false} FilterMap<A(!new), B(!new)>(s: seq<A>, t: A -> B, keep: A -> bool, keep': B -> bool)
    requires forall x :: x in s ==> keep'(t(x)) == keep(x)
    ensures Filter(Map(s, t), keep') == Map(Filter(s, keep), t)
  {
    if s != [] {
      FilterMap(s[1..], t, keep, keep');
      assert Map(s, t) == [t(s[0])] + Map(s[1..], t);
      assert keep(s[0]) ==> Map([s[0]] + Filter(s[1..], keep), t) == [t(s[0])] + Map(Filter(s[1..], keep), t);
    }
  }

  predicate Fit(b: Batch) { forall i :: 0 <= i < |b.rows| ==> |b.rows[i]| == |b.cols| }

  function Narrow(pc: seq<Column>, r: Result<Batch, Failure>): Result<Batch, Failure> {
    if r.Err? then r else Ok(AlignBatch(pc, r.value))
  }

  lemma FilteredKept(pc: seq<Column>, b: Batch, keep: Cells -> bool, keep': Cells -> bool)
    requires forall row :: row in b.rows ==> keep'(AlignRow(pc, b.cols, row)) == keep(row)
    ensures Batch(pc, Filter(AlignBatch(pc, b).rows, keep')) == AlignBatch(pc, Batch(b.cols, Filter(b.rows, keep)))
  {
    FilterMap(b.rows, (row: Cells) => AlignRow(pc, b.cols, row), keep, keep');
  }

  lemma LabelsKept(pc: seq<Column>, b: Batch, names: set<string>, column: string, visible: string -> bool)
    requires Projects(pc, b.cols, names) && Fit(b) && column in names
    ensures Batch(pc, Filter(AlignBatch(pc, b).rows, Showing(pc, column, visible))) ==
            AlignBatch(pc, Batch(b.cols, Filter(b.rows, Showing(b.cols, column, visible))))
  {
    var keep, keep' := Showing(b.cols, column, visible), Showing(pc, column, visible);
    forall row | row in b.rows ensures keep'(AlignRow(pc, b.cols, row)) == keep(row) {
      CellKept(pc, b.cols, names, row, column);
    }
    FilteredKept(pc, b, keep, keep');
  }

  lemma DeletesKept(pc: seq<Column>, b: Batch, names: set<string>, deletes: seq<Tombstone>)
    requires Projects(pc, b.cols, names) && Fit(b) && "time" in names && TagsOf(deletes) <= names
    ensures Batch(pc, Filter(AlignBatch(pc, b).rows, Surviving(pc, deletes))) ==
            AlignBatch(pc, Batch(b.cols, Filter(b.rows, Surviving(b.cols, deletes))))
  {
    var keep, keep' := Surviving(b.cols, deletes), Surviving(pc, deletes);
    forall row | row in b.rows ensures keep'(AlignRow(pc, b.cols, row)) == keep(row) {
      SurvivesKept(pc, b.cols, names, deletes, row);
    }
    FilteredKept(pc, b, keep, keep');
  }

  /** A restriction acts on a projected batch as on the whole one. */
  lemma AppliedKept(r: Restriction, pc: seq<Column>, b: Batch, names: set<string>)
    requires Projects(pc, b.cols, names) && Fit(b) && Required(r) <= names
    ensures Applied(r, AlignBatch(pc, b)) == Narrow(pc, Applied(r, b))
  {
    match r
    case Visibility(column, visible) =>
      KindKept(pc, b.cols, names, column);
      LabelsKept(pc, b, names, column, visible);
    case Deletes(deletes) =>
      FirstBadKept(pc, b.cols, names, deletes);
      DeletesKept(pc, b, names, deletes);
  }

  lemma AppliedShape(r: Restriction, b: Batch)
    requires Fit(b) && Applied(r, b).Ok?
    ensures Applied(r, b).value.cols == b.cols && Fit(Applied(r, b).value)
  {
    var rows := Applied(r, b).value.rows;
    forall i | 0 <= i < |rows| ensures |rows[i]| == |b.cols| {
      assert rows[i] in rows && rows[i] in b.rows;
    }
  }

  function RequiredAll(rs: seq<Restriction>): set<string> {
    if rs == [] then {} else RequiredAll(rs[..|rs| - 1]) + Required(rs[|rs| - 1])
  }

  lemma {:induction false} AppliedAllKept(rs: seq<Restriction>, pc: seq<Column>, b: Batch, names: set<string>)
    requires Projects(pc, b.cols, names) && Fit(b) && RequiredAll(rs) <= names
    ensures AppliedAll(rs, AlignBatch(pc, b)) == Narrow(pc, AppliedAll(rs, b))
    ensures AppliedAll(rs, b).Ok? ==> AppliedAll(rs, b).value.cols == b.cols && Fit(AppliedAll(rs, b).value)
  {
    if rs != [] {
      var n := |rs| - 1;
      AppliedAllKept(rs[..n], pc, b, names);
      var before := AppliedAll(rs[..n], b);
      if before.Ok? {
        AppliedKept(rs[n], pc, before.value, names);
        if Applied(rs[n], before.value).Ok? { AppliedShape(rs[n], before.value); }
      }
    }
  }

  // ----- what survives, row by row

  function AllLet(rs: seq<Restriction>, cols: seq<Column>): Cells -> bool {
    (row: Cells) => forall k :: 0 <= k < |rs| ==> Lets(rs[k], Getter(cols, row))
  }

  lemma {:induction false} FitMeans(cols: seq<Column>, tags: seq<(string, string)>, row: Cells)
    requires DistinctNames(cols) && TagFit(cols, tags).Missing?
    ensures !TagsMatch(tags, Getter(cols, row))
  {
    var n := |tags| - 1;
    if TagFit(cols, Init(tags)).Missing? {
      FitMeans(cols, Init(tags), row);
      var k :| 0 <= k < n && Getter(cols, row)(Init(tags)[k].0) != Text(Init(tags)[k].1);
      assert Getter(cols, row)(tags[k].0) != Text(tags[k].1);
    } else {
      GetMissing(cols, row, tags[n].0);
    }
  }

  /** On a well-formed row the columnar test is the row test. */
  lemma DeletedIff(cols: seq<Column>, d: Tombstone, row: Cells)
    requires IsSchema(cols) && RowFits(cols, row) && !TagFit(cols, d.tagEquals).Unfit?
    ensures DeletedIn(cols, d, row) <==> Deleted(d, Getter(cols, row))
  {
    KindIs(cols, TIME);
    GetAt(cols, row, 0);
    assert CellFits(cols[0].kind, row[0]);
    if TagFit(cols, d.tagEquals).Missing? { FitMeans(cols, d.tagEquals, row); }
  }

  lemma {:induction false} NoBad(cols: seq<Column>, deletes: seq<Tombstone>, k: nat)
    requires k < |deletes| && FirstBad(cols, deletes).None?
    ensures !TagFit(cols, deletes[k].tagEquals).Unfit?
  {
    if k < |deletes| - 1 { NoBad(cols, Init(deletes), k); }
  }

  function Letting(r: Restriction, cols: seq<Column>): Cells -> bool { (row: Cells) => Lets(r, Getter(cols, row)) }

  lemma {:induction false} FilterSame<T(!new)>(s: seq<T>, a: T -> bool, b: T -> bool)
    requires forall x :: x in s ==> a(x) == b(x)
    ensures Filter(s, a) == Filter(s, b)
  {
    if s != [] { FilterSame(s[1..], a, b); }
  }

  lemma {:induction false} FilterAll<T(!new)>(s: seq<T>, a: T -> bool)
    requires forall x :: x in s ==> a(x)
    ensures Filter(s, a) == s
  {
    if s != [] { FilterAll(s[1..], a); }
  }

  lemma AppliedIsLets(r: Restriction, b: Batch)
    requires IsBatch(b) && Applied(r, b).Ok?
    ensures Applied(r, b).value == Batch(b.cols, Filter(b.rows, Letting(r, b.cols)))
  {
    match r
    case Visibility(column, visible) =>
      if KindOf(b.cols, column).None? {
        forall row | row in b.rows ensures Letting(r, b.cols)(row) { GetMissing(b.cols, row, column); }
        FilterAll(b.rows, Letting(r, b.cols));
      } else {
        FilterSame(b.rows, Showing(b.cols, column, visible), Letting(r, b.cols));
      }
    case Deletes(deletes) =>
      if b.rows != [] && deletes == [] {
        FilterAll(b.rows, Letting(r, b.cols));
      } else if b.rows != [] {
        forall row | row in b.rows ensures Surviving(b.cols, deletes)(row) == Letting(r, b.cols)(row) {
          SurvivesIff(b.cols, deletes, row);
        }
        FilterSame(b.rows, Surviving(b.cols, deletes), Letting(r, b.cols));
      }
  }

  lemma SurvivesIff(cols: seq<Column>, deletes: seq<Tombstone>, row: Cells)
    requires IsSchema(cols) && RowFits(cols, row) && FirstBad(cols, deletes).None?
    ensures Survives(cols, deletes, row) <==> Lets(Deletes(deletes), Getter(cols, row))
  {
    forall k | 0 <= k < |deletes| ensures DeletedIn(cols, deletes[k], row) <==> Deleted(deletes[k], Getter(cols, row)) {
      NoBad(cols, deletes, k);
      DeletedIff(cols, deletes[k], row);
    }
  }

  lemma {:induction false} FilterTwice<T(!new)>(s: seq<T>, a: T -> bool, b: T -> bool, both: T -> bool)
    requires forall x :: x in s ==> both(x) == (a(x) && b(x))
    ensures Filter(Filter(s, a), b) == Filter(s, both)
  {
    if s != [] { FilterTwice(s[1..], a, b, both); }
  }

  lemma AllLetMore(rs: seq<Restriction>, n: nat, cols: seq<Column>, row: Cells)
    requires |rs| == n + 1
    ensures AllLet(rs, cols)(row) <==> AllLet(rs[..n], cols)(row) && Letting(rs[n], cols)(row)
  {
    if AllLet(rs, cols)(row) {
      forall k | 0 <= k < n ensures Lets(rs[..n][k], Getter(cols, row)) { assert Lets(rs[k], Getter(cols, row)); }
    }
    if AllLet(rs[..n], cols)(row) {
      forall k | 0 <= k < n ensures Lets(rs[k], Getter(cols, row)) { assert Lets(rs[..n][k], Getter(cols, row)); }
    }
  }

  /** Restrictions in sequence keep exactly the rows that each of them lets through. */
  lemma {:induction false} AppliedAllIsLets(rs: seq<Restriction>, b: Batch)
    requires IsBatch(b) && AppliedAll(rs, b).Ok?
    ensures AppliedAll(rs, b).value == Batch(b.cols, Filter(b.rows, AllLet(rs, b.cols)))
  {
    if rs == [] {
      FilterAll(b.rows, AllLet(rs, b.cols));
    } else {
      var n := |rs| - 1;
      AppliedAllIsLets(rs[..n], b);
      var before := AppliedAll(rs[..n], b).value;
      KeptBatch(b, before);
      AppliedIsLets(rs[n], before);
      forall row | row in b.rows
        ensures AllLet(rs, b.cols)(row) == (AllLet(rs[..n], b.cols)(row) && Letting(rs[n], b.cols)(row))
      {
        AllLetMore(rs, n, b.cols, row);
      }
      FilterTwice(b.rows, AllLet(rs[..n], b.cols), Letting(rs[n], b.cols), AllLet(rs, b.cols));
    }
  }

  lemma KeptBatch(b: Batch, kept: Batch)
    requires IsBatch(b) && kept.cols == b.cols && forall row :: row in kept.rows ==> row in b.rows
    ensures IsBatch(kept)
  {
    forall i | 0 <= i < |kept.rows| ensures RowFits(kept.cols, kept.rows[i]) {
      assert kept.rows[i] in kept.rows;
      var j :| 0 <= j < |b.rows| && b.rows[j] == kept.rows[i];
    }
  }

  // ----- the scan

  /** What a query asks of the table's schema: everything, or the columns at some indices. */
  type Wanted = Option<seq<nat>>

  predicate WantedIn(wanted: Wanted, schema: seq<Column>) {
    wanted.Some? ==> forall i :: 0 <= i < |wanted.value| ==> wanted.value[i] < |schema|
  }

  function Target(wanted: Wanted, schema: seq<Column>): seq<Column>
    requires WantedIn(wanted, schema)
  {
    if wanted.None? then schema
    else seq(|wanted.value|, i requires 0 <= i < |wanted.value| => schema[wanted.value[i]])
  }

  /** The names a scan reads; None is all of them.  A bare count still reads `time`. */
  function Needed(wanted: Wanted, schema: seq<Column>, rs: seq<Restriction>): Option<set<string>>
    requires WantedIn(wanted, schema)
  {
    if wanted.None? then None
    else if wanted.value == [] then Some({"time"} + RequiredAll(rs))
    else Some(NamesOf(Target(wanted, schema)) + RequiredAll(rs))
  }

  /** A file's projection keeps the file's column order. */
  function FileColumns(cols: seq<Column>, needed: Option<set<string>>): seq<Column> {
    if needed.None? then cols else Filter(cols, (c: Column) => c.name in needed.value)
  }

  lemma {:induction false} FilterDistinct(cols: seq<Column>, keep: Column -> bool)
    requires DistinctNames(cols)
    ensures DistinctNames(Filter(cols, keep))
  {
    if cols != [] {
      FilterDistinct(cols[1..], keep);
      var rest := Filter(cols[1..], keep);
      forall i | 0 <= i < |rest| ensures rest[i].name != cols[0].name { assert rest[i] in rest && rest[i] in cols[1..]; }
    }
  }

  /** Every name a scan may ask for is read, or is missing from the batch anyway. */
  lemma FileProjects(cols: seq<Column>, needed: Option<set<string>>, names: set<string>)
    requires DistinctNames(cols) && (if needed.None? then NamesOf(cols) <= names else names == needed.value)
    ensures Projects(FileColumns(cols, needed), cols, names)
  {
    if needed.Some? { FilterDistinct(cols, (c: Column) => c.name in needed.value); }
  }

  /** Narrowing to what is read and then to what is wanted loses nothing that is wanted. */
  lemma AlignTwice(target: seq<Column>, pc: seq<Column>, cols: seq<Column>, names: set<string>, row: Cells)
    requires Projects(pc, cols, names) && |row| == |cols| && NamesOf(target) <= names
    ensures AlignRow(target, pc, AlignRow(pc, cols, row)) == AlignRow(target, cols, row)
  {
    forall i | 0 <= i < |target|
      ensures Get(pc, AlignRow(pc, cols, row), target[i].name) == Get(cols, row, target[i].name)
    {
      assert target[i] in target;
      CellKept(pc, cols, names, row, target[i].name);
    }
  }

  /** One batch of a scan: project, restrict, align to the target. */
  function Scanned(b: Batch, pc: seq<Column>, rs: seq<Restriction>, target: seq<Column>): Result<Batch, Failure> {
    var r := AppliedAll(rs, AlignBatch(pc, b));
    if r.Err? then r else Ok(AlignBatch(target, r.value))
  }

  /** The rows of a batch that every restriction lets through, in the target's columns. */
  function Let(rs: seq<Restriction>, b: Batch, target: seq<Column>): Batch {
    AlignBatch(target, Batch(b.cols, Filter(b.rows, AllLet(rs, b.cols))))
  }

  /** For every projection the scan of a batch is the projection of exactly the rows that all
   *  restrictions let through; it fails exactly when restricting the whole batch fails. */
  lemma ScannedExact(b: Batch, pc: seq<Column>, names: set<string>, rs: seq<Restriction>, target: seq<Column>)
    requires IsBatch(b) && Projects(pc, b.cols, names) && RequiredAll(rs) + NamesOf(target) <= names
    ensures Scanned(b, pc, rs, target).Ok? <==> AppliedAll(rs, b).Ok?
    ensures Scanned(b, pc, rs, target).Ok? ==> Scanned(b, pc, rs, target).value == Let(rs, b, target)
  {
    AppliedAllKept(rs, pc, b, names);
    if AppliedAll(rs, b).Ok? {
      AppliedAllIsLets(rs, b);
      var kept := Filter(b.rows, AllLet(rs, b.cols));
      var narrow := AlignBatch(pc, Batch(b.cols, kept));
      forall i | 0 <= i < |kept|
        ensures AlignRow(target, pc, narrow.rows[i]) == AlignRow(target, b.cols, kept[i])
      {
        assert kept[i] in kept && kept[i] in b.rows;
        AlignTwice(target, pc, b.cols, names, kept[i]);
      }
    }
  }

  lemma ScannedFile(b: Batch, schema: seq<Column>, wanted: Wanted, rs: seq<Restriction>)
    requires IsBatch(b) && WantedIn(wanted, schema)
    ensures var target, pc := Target(wanted, schema), FileColumns(b.cols, Needed(wanted, schema, rs));
            && (Scanned(b, pc, rs, target).Ok? <==> AppliedAll(rs, b).Ok?)
            && (Scanned(b, pc, rs, target).Ok? ==> Scanned(b, pc, rs, target).value == Let(rs, b, target))
  {
    var target, needed := Target(wanted, schema), Needed(wanted, schema, rs);
    var names := if needed.None? then NamesOf(b.cols) + NamesOf(target) + RequiredAll(rs) else needed.value;
    FileProjects(b.cols, needed, names);
    assert wanted.Some? && wanted.value == [] ==> NamesOf(target) == {};
    ScannedExact(b, FileColumns(b.cols, needed), names, rs, target);
  }

  /** Column j of a projected batch is the j-th the query asked for, and holds each kept row's cell of
   *  that name, null where the batch has no such column. */
  lemma ProjectedCells(b: Batch, schema: seq<Column>, wanted: seq<nat>, rs: seq<Restriction>, i: nat, j: nat)
    requires WantedIn(Some(wanted), schema) && j < |wanted| && i < |Filter(b.rows, AllLet(rs, b.cols))|
    ensures var out, name := Let(rs, b, Target(Some(wanted), schema)), schema[wanted[j]].name;
            && |out.cols| == |wanted| && out.cols[j] == schema[wanted[j]] && i < |out.rows| && |out.rows[i]| == |wanted|
            && out.rows[i][j] == Get(b.cols, Filter(b.rows, AllLet(rs, b.cols))[i], name)
            && (name !in NamesOf(b.cols) ==> out.rows[i][j] == Null)
  {
    var row := Filter(b.rows, AllLet(rs, b.cols))[i];
    if schema[wanted[j]].name !in NamesOf(b.cols) { GetMissing(b.cols, row, schema[wanted[j]].name); }
  }

  /** Restrictions in order, each by its own loop. */
  method Restrict(rs: seq<Restriction>, b: Batch) returns (r: Result<Batch, Failure>)
    ensures r == AppliedAll(rs, b)
  {
    var cur := b;
    for k := 0 to |rs|
      invariant AppliedAll(rs[..k], b) == Ok(cur)
    {
      assert rs[..k + 1][..k] == rs[..k];
      match rs[k] {
        case Visibility(column, visible) => r := ApplyVisibility(column, visible, cur);
        case Deletes(deletes) => r := ApplyTombstone(deletes, cur);
      }
      if r.Err? {
        FailureStays(rs, k + 1, b);
        return;
      }
      cur := r.value;
    }
    assert rs[..|rs|] == rs;
    r := Ok(cur);
  }

  lemma {:induction false} FailureStays(rs: seq<Restriction>, k: nat, b: Batch)
    requires k <= |rs| && AppliedAll(rs[..k], b).Err?
    ensures AppliedAll(rs, b) == AppliedAll(rs[..k], b)
  {
    var n := |rs| - 1;
    if k <= n {
      assert rs[..n][..k] == rs[..k];
      FailureStays(rs[..n], k, b);
    } else {
      assert rs[..k] == rs;
    }
  }

  /** The restricted scan over every loaded batch, buffer and file alike. */
  method ScanTable(batches: seq<Batch>, schema: seq<Column>, wanted: Wanted, rs: seq<Restriction>)
    returns (out: Result<seq<Batch>, Failure>)
    requires WantedIn(wanted, schema) && AllBatches(batches)
    ensures out.Ok? <==> forall i :: 0 <= i < |batches| ==> AppliedAll(rs, batches[i]).Ok?
    ensures out.Ok? ==> |out.value| == |batches|
    ensures out.Ok? ==> forall i :: 0 <= i < |batches| ==> out.value[i] == Let(rs, batches[i], Target(wanted, schema))
  {
    var target, needed := Target(wanted, schema), Needed(wanted, schema, rs);
    var done: seq<Batch> := [];
    for i := 0 to |batches|
      invariant |done| == i
      invariant forall j :: 0 <= j < i ==> AppliedAll(rs, batches[j]).Ok? && done[j] == Let(rs, batches[j], target)
    {
      var b := batches[i];
      ScannedFile(b, schema, wanted, rs);
      var r := Restrict(rs, AlignBatch(FileColumns(b.cols, needed), b));
      if r.Err? { return Err(r.error); }
      done := done + [AlignBatch(target, r.value)];
    }
    out := Ok(done);
  }

  // ----- when restricting fails

  /** Restriction k cannot be applied: its label column is not text, or one of its deletes names a
   *  column that is not and some row is still there. */
  ghost predicate BlockedAt(rs: seq<Restriction>, b: Batch, k: nat)
    requires k < |rs|
  {
    match rs[k]
    case Visibility(column, _) => KindOf(b.cols, column).Some? && !IsText(KindOf(b.cols, column).value)
    case Deletes(deletes) => FirstBad(b.cols, deletes).Some? && exists row :: row in b.rows && AllLet(rs[..k], b.cols)(row)
  }

  ghost predicate Blocked(rs: seq<Restriction>, b: Batch) { exists k :: 0 <= k < |rs| && BlockedAt(rs, b, k) }

  lemma BlockedInit(rs: seq<Restriction>, b: Batch, n: nat)
    requires |rs| == n + 1
    ensures Blocked(rs, b) <==> Blocked(rs[..n], b) || BlockedAt(rs, b, n)
  {
    forall k | 0 <= k < n ensures BlockedAt(rs[..n], b, k) <==> BlockedAt(rs, b, k) { assert rs[..n][..k] == rs[..k]; }
    if Blocked(rs[..n], b) {
      var k :| 0 <= k < |rs[..n]| && BlockedAt(rs[..n], b, k);
      assert BlockedAt(rs, b, k);
    }
    if Blocked(rs, b) {
      var k :| 0 <= k < |rs| && BlockedAt(rs, b, k);
      assert k < n ==> BlockedAt(rs[..n], b, k);
    }
  }

  lemma AppliedFails(r: Restriction, b: Batch, kept: seq<Cells>)
    ensures Applied(r, Batch(b.cols, kept)).Err? <==>
            match r
            case Visibility(column, _) => KindOf(b.cols, column).Some? && !IsText(KindOf(b.cols, column).value)
            case Deletes(deletes) => FirstBad(b.cols, deletes).Some? && kept != []
  {
  }

  /** Restricting a batch fails exactly when some restriction is blocked on it. */
  lemma {:induction false} AppliedFailsIff(rs: seq<Restriction>, b: Batch)
    requires IsBatch(b)
    ensures AppliedAll(rs, b).Err? <==> Blocked(rs, b)
  {
    if rs != [] {
      var n := |rs| - 1;
      AppliedFailsIff(rs[..n], b);
      BlockedInit(rs, b, n);
      if AppliedAll(rs[..n], b).Ok? {
        AppliedAllIsLets(rs[..n], b);
        var kept := Filter(b.rows, AllLet(rs[..n], b.cols));
        AppliedFails(rs[n], b, kept);
        assert kept != [] <==> exists row :: row in b.rows && AllLet(rs[..n], b.cols)(row) by {
          if kept != [] { assert kept[0] in kept; }
        }
      }
    }
  }

  /** Fewer rows never make it fail. */
  lemma FewerFail(rs: seq<Restriction>, few: Batch, b: Batch)
    requires IsBatch(b) && IsBatch(few) && few.cols == b.cols && forall row :: row in few.rows ==> row in b.rows
    ensures AppliedAll(rs, few).Err? ==> AppliedAll(rs, b).Err?
  {
    AppliedFailsIff(rs, few);
    AppliedFailsIff(rs, b);
    if Blocked(rs, few) {
      var k :| 0 <= k < |rs| && BlockedAt(rs, few, k);
      assert BlockedAt(rs, b, k);
    }
  }

  // ----- which restrictions a scan gets

  const VISIBILITY_COLUMN := "_visibility"

  /** `mandatory_predicate`: labels where the table has a label column, deletes where there
   *  are any. */
  function Mandatory(schema: seq<Column>, visible: string -> bool, deletes: seq<Tombstone>): seq<Restriction> {
    (if VISIBILITY_COLUMN in NamesOf(schema) then [Visibility(VISIBILITY_COLUMN, visible)] else [])
    + (if deletes == [] then [] else [Deletes(deletes)])
  }

  /** Leaving a restriction out never shows a row it would have hidden. */
  lemma MandatoryExact(schema: seq<Column>, cols: seq<Column>, visible: string -> bool, deletes: seq<Tombstone>, row: Cells)
    requires Carries(schema, cols)
    ensures AllLet(Mandatory(schema, visible, deletes), cols)(row) <==>
            Shows(visible, Get(cols, row, VISIBILITY_COLUMN)) && forall k :: 0 <= k < |deletes| ==> !Deleted(deletes[k], Getter(cols, row))
  {
    var rs, get := Mandatory(schema, visible, deletes), Getter(cols, row);
    if VISIBILITY_COLUMN !in NamesOf(schema) {
      forall c | c in cols ensures c.name != VISIBILITY_COLUMN { assert c in schema; }
      GetMissing(cols, row, VISIBILITY_COLUMN);
    }
    assert deletes != [] ==> rs[|rs| - 1] == Deletes(deletes);
    assert VISIBILITY_COLUMN in NamesOf(schema) ==> rs[0] == Visibility(VISIBILITY_COLUMN, visible);
    if AllLet(rs, cols)(row) {
      assert deletes != [] ==> Lets(rs[|rs| - 1], get);
      assert VISIBILITY_COLUMN in NamesOf(schema) ==> Lets(rs[0], get);
    }
  }
}
