/** Loading one file of a scan: time bounds, row-group statistics, bloom filters and the
 *  decode-time filter skip only rows the pushed filters drop anyway. */
module Scan {
  import opened Basics
  import opened Batches
  import opened Pruning
  import Names
  import Calendar

  // ----- files

  /** A column chunk's byte-array statistics and bloom filter, where it has them. */
  datatype Chunk = Chunk(stats: Option<(string, string)>, bloom: Option<string -> bool>)

  datatype RowGroup = RowGroup(rows: seq<Cells>, chunks: seq<Chunk>)

  /** `min` and `max` are the catalog's time bounds. */
  datatype DataFile = DataFile(cols: seq<Column>, groups: seq<RowGroup>, min: int, max: int)

  const STRING_FIELD := Field(2)

  predicate IsText(k: Kind) { k.Tag? || k == STRING_FIELD }

  predicate StatsAdmit(c: Chunk, v: string) {
    c.stats.None? || !(Names.LexLess(v, c.stats.value.0) || Names.LexLess(c.stats.value.1, v))
  }

  predicate BloomAdmits(c: Chunk, v: string) { c.bloom.None? || c.bloom.value(v) }

  /** Statistics bound the values present; blooms have no false negatives. */
  predicate ChunkTells(k: Kind, c: Chunk, rows: seq<Cells>, i: nat)
    requires forall r :: 0 <= r < |rows| ==> i < |rows[r]|
  {
    if IsText(k) then
      forall r :: 0 <= r < |rows| ==>
        (rows[r][i].Text? ==> StatsAdmit(c, rows[r][i].s) && BloomAdmits(c, rows[r][i].s)) && (rows[r][i].Text? || rows[r][i].Null?)
    else c.stats.None? && c.bloom.None?
  }

  predicate GroupOk(f: DataFile, g: RowGroup) {
    && |g.chunks| == |f.cols|
    && (forall r :: 0 <= r < |g.rows| ==> RowFits(f.cols, g.rows[r]) && InBounds(f, g.rows[r]))
    && (forall i :: 0 <= i < |f.cols| ==> ChunkTells(f.cols[i].kind, g.chunks[i], g.rows, i))
  }

  predicate InBounds(f: DataFile, row: Cells) { row != [] && row[0].Stamp? && f.min <= row[0].ns <= f.max }

  predicate FileOk(f: DataFile) { IsSchema(f.cols) && forall g :: 0 <= g < |f.groups| ==> GroupOk(f, f.groups[g]) }

  function RowsIn(groups: seq<RowGroup>): seq<Cells> {
    if groups == [] then [] else RowsIn(Init(groups)) + Last(groups).rows
  }

  // ----- choosing row groups

  function FindCol(cols: seq<Column>, name: string): (r: Option<nat>)
    ensures r.Some? ==> r.value < |cols| && cols[r.value].name == name
    ensures r.None? <==> name !in NamesOf(cols)
  {
    if cols == [] then None
    else
      var before := FindCol(Init(cols), name);
      assert NamesOf(cols) == NamesOf(Init(cols)) + {Last(cols).name} by { InitLast(cols); }
      if before.Some? then before else if Last(cols).name == name then Some(|cols| - 1) else None
  }

  /** The file's chunk for a literal's column admits its value; a missing column admits all. */
  predicate GroupAdmits(f: DataFile, g: RowGroup, t: (string, string), admits: (Chunk, string) -> bool) {
    var i := FindCol(f.cols, t.0);
    i.Some? && i.value < |g.chunks| ==> admits(g.chunks[i.value], t.1)
  }

  predicate AdmitsAll(f: DataFile, g: RowGroup, tags: seq<(string, string)>, admits: (Chunk, string) -> bool) {
    forall k :: 0 <= k < |tags| ==> GroupAdmits(f, g, tags[k], admits)
  }

  /** Indices below n that pass, ascending. */
  function KeptBelow(n: nat, ok: nat -> bool): seq<nat> {
    if n == 0 then [] else KeptBelow(n - 1, ok) + (if ok(n - 1) then [n - 1] else [])
  }

  function ByStats(f: DataFile, tags: seq<(string, string)>): nat -> bool {
    (g: nat) => g < |f.groups| ==> AdmitsAll(f, f.groups[g], tags, StatsAdmit)
  }

  function ByBloom(f: DataFile, tags: seq<(string, string)>): nat -> bool {
    (g: nat) => g < |f.groups| ==> AdmitsAll(f, f.groups[g], tags, BloomAdmits)
  }

  method StatsKeepRowGroups(f: DataFile, tags: seq<(string, string)>) returns (keep: seq<nat>)
    requires forall g :: 0 <= g < |f.groups| ==> |f.groups[g].chunks| == |f.cols|
    ensures keep == KeptBelow(|f.groups|, ByStats(f, tags))
  {
    keep := [];
    for g := 0 to |f.groups|
      invariant keep == KeptBelow(g, ByStats(f, tags))
    {
      var admitted := true;
      for k := 0 to |tags|
        invariant admitted <==> forall j :: 0 <= j < k ==> GroupAdmits(f, f.groups[g], tags[j], StatsAdmit)
      {
        var i := FindCol(f.cols, tags[k].0);
        if i.Some? && !StatsAdmit(f.groups[g].chunks[i.value], tags[k].1) { admitted := false; }
      }
      if admitted { keep := keep + [g]; }
    }
  }

  function BloomKeepRowGroups(f: DataFile, tags: seq<(string, string)>, candidates: seq<nat>): seq<nat> {
    Filter(candidates, ByBloom(f, tags))
  }

  function Kept(f: DataFile, tags: seq<(string, string)>): seq<nat> {
    if tags == [] then KeptBelow(|f.groups|, (g: nat) => true)
    else BloomKeepRowGroups(f, tags, KeptBelow(|f.groups|, ByStats(f, tags)))
  }

  // ----- decoding

  datatype ScanError = NotText(column: string)

  function HasText(i: nat, v: string): Cells -> bool { (row: Cells) => i < |row| && row[i] == Text(v) }

  /** The row filter: one predicate per literal whose column the file has, each on the rows
   *  the ones before it kept.  Comparing a column that is not text with text is an error. */
  function Decode(cols: seq<Column>, tags: seq<(string, string)>, rows: seq<Cells>): Result<seq<Cells>, ScanError> {
    if tags == [] then Ok(rows)
    else
      var before := Decode(cols, Init(tags), rows);
      var (name, v) := Last(tags);
      var i := FindCol(cols, name);
      if before.Err? || before.value == [] || i.None? then before
      else if !IsText(cols[i.value].kind) then Err(NotText(name))
      else Ok(Filter(before.value, HasText(i.value, v)))
  }

  function Gather(groups: seq<RowGroup>, keep: seq<nat>): seq<Cells> {
    if keep == [] then []
    else Gather(groups, Init(keep)) + (if Last(keep) < |groups| then groups[Last(keep)].rows else [])
  }

  predicate OutsideTime(f: DataFile, p: Pruning) {
    (p.min.Some? && f.max < p.min.value) || (p.max.Some? && f.min > p.max.value)
  }

  /** `load_one_file`: None when the file was pruned away entirely. */
  function LoadOneFile(f: DataFile, p: Pruning): Result<Option<seq<Cells>>, ScanError> {
    if OutsideTime(f, p) || Kept(f, p.tags) == [] then Ok(None)
    else
      var rows := Decode(f.cols, p.tags, Gather(f.groups, Kept(f, p.tags)));
      if rows.Err? then Err(rows.error) else Ok(Some(rows.value))
  }

  function LoadedRows(r: Option<seq<Cells>>): seq<Cells> { if r.None? then [] else r.value }

  // ----- nothing that passes is dropped

  lemma {:induction false} FilterNone<T(!new)>(s: seq<T>, keep: T -> bool)
    requires forall x :: x in s ==> !keep(x)
    ensures Filter(s, keep) == []
  {
    if s != [] { FilterNone(s[1..], keep); }
  }

  lemma {:induction false} FilterFilter<T(!new)>(s: seq<T>, some: T -> bool, keep: T -> bool)
    requires forall x :: x in s && keep(x) ==> some(x)
    ensures Filter(Filter(s, some), keep) == Filter(s, keep)
  {
    if s != [] {
      FilterFilter(s[1..], some, keep);
      if some(s[0]) { FilterAppend([s[0]], Filter(s[1..], some), keep); FilterAppend([s[0]], s[1..], keep); assert [s[0]] + s[1..] == s; }
    }
  }

  function Getter(cols: seq<Column>, row: Cells): Lookup { (n: string) => Get(cols, row, n) }

  function Passing(env: Env, cols: seq<Column>, fs: seq<Expr>): Cells -> bool {
    (row: Cells) => Passes(env, Getter(cols, row), fs)
  }

  function Extracted(fs: seq<Expr>): Pruning { NoteAll(NOTHING, AllAtoms(fs)) }

  /** The literal's cell in a passing row. */
  lemma PassingCell(env: Env, f: DataFile, g: RowGroup, row: Cells, fs: seq<Expr>, t: (string, string), i: nat)
    requires FileOk(f) && AllPin(env, fs) && GroupOk(f, g) && row in g.rows && Passing(env, f.cols, fs)(row)
    requires t in Extracted(fs).tags && FindCol(f.cols, t.0) == Some(i) && IsText(f.cols[i].kind)
    ensures i < |row| && row[i] == Text(t.1) && StatsAdmit(g.chunks[i], t.1) && BloomAdmits(g.chunks[i], t.1)
  {
    var r :| 0 <= r < |g.rows| && g.rows[r] == row;
    assert RowFits(f.cols, row) && ChunkTells(f.cols[i].kind, g.chunks[i], g.rows, i);
    GetAt(f.cols, row, i);
    PassesTags(env, Getter(f.cols, row), fs, t);
  }

  /** A skipped group has no passing row. */
  lemma SkippedGroup(env: Env, f: DataFile, g: RowGroup, row: Cells, fs: seq<Expr>)
    requires FileOk(f) && AllPin(env, fs) && GroupOk(f, g) && row in g.rows && Passing(env, f.cols, fs)(row)
    ensures AdmitsAll(f, g, Extracted(fs).tags, StatsAdmit) && AdmitsAll(f, g, Extracted(fs).tags, BloomAdmits)
  {
    var tags := Extracted(fs).tags;
    forall k | 0 <= k < |tags|
      ensures GroupAdmits(f, g, tags[k], StatsAdmit) && GroupAdmits(f, g, tags[k], BloomAdmits)
    {
      var i := FindCol(f.cols, tags[k].0);
      if i.Some? {
        if IsText(f.cols[i.value].kind) {
          PassingCell(env, f, g, row, fs, tags[k], i.value);
        } else {
          assert ChunkTells(f.cols[i.value].kind, g.chunks[i.value], g.rows, i.value);
        }
      }
    }
  }

  lemma {:induction false} GatherKept(groups: seq<RowGroup>, n: nat, ok: nat -> bool, pass: Cells -> bool)
    requires n <= |groups| && forall g, row :: 0 <= g < n && row in groups[g].rows && pass(row) ==> ok(g)
    ensures Filter(Gather(groups, KeptBelow(n, ok)), pass) == Filter(RowsIn(groups[..n]), pass)
  {
    if n > 0 {
      var last := groups[n - 1].rows;
      GatherKept(groups, n - 1, ok, pass);
      TakeSnoc(groups, n - 1);
      assert Init(groups[..n]) == groups[..n - 1];
      FilterAppend(RowsIn(groups[..n - 1]), last, pass);
      if ok(n - 1) {
        GatherSnoc(groups, KeptBelow(n - 1, ok), n - 1);
        FilterAppend(Gather(groups, KeptBelow(n - 1, ok)), last, pass);
      } else {
        FilterNone(last, pass);
        assert KeptBelow(n, ok) == KeptBelow(n - 1, ok);
      }
    }
  }

  lemma GatherSnoc(groups: seq<RowGroup>, keep: seq<nat>, g: nat)
    requires g < |groups|
    ensures Gather(groups, keep + [g]) == Gather(groups, keep) + groups[g].rows
  {
    assert Init(keep + [g]) == keep;
  }

  function Both(a: nat -> bool, b: nat -> bool): nat -> bool { (g: nat) => a(g) && b(g) }

  lemma {:induction false} KeptBoth(n: nat, a: nat -> bool, b: nat -> bool)
    ensures Filter(KeptBelow(n, a), b) == KeptBelow(n, Both(a, b))
  {
    if n > 0 {
      KeptBoth(n - 1, a, b);
      var last: nat := n - 1;
      FilterAppend(KeptBelow(n - 1, a), [last], b);
      assert Filter([last], b) == if b(last) then [last] else [];
      assert KeptBelow(n - 1, a) + [] == KeptBelow(n - 1, a);
    }
  }

  lemma {:induction false} DecodeKeeps(cols: seq<Column>, tags: seq<(string, string)>, rows: seq<Cells>, pass: Cells -> bool)
    requires forall k, row :: 0 <= k < |tags| && row in rows && pass(row) ==> Carried(cols, tags[k], row)
    requires Decode(cols, tags, rows).Ok?
    ensures Filter(Decode(cols, tags, rows).value, pass) == Filter(rows, pass)
    ensures forall row :: row in Decode(cols, tags, rows).value ==> row in rows
  {
    if tags != [] {
      var t := tags[|tags| - 1];
      forall k, row | 0 <= k < |Init(tags)| && row in rows && pass(row) ensures Carried(cols, Init(tags)[k], row) {
        assert Init(tags)[k] == tags[k];
      }
      DecodeKeeps(cols, Init(tags), rows, pass);
      var i := FindCol(cols, t.0);
      if i.Some? && IsText(cols[i.value].kind) {
        var before := Decode(cols, Init(tags), rows).value;
        assert forall row :: row in before && pass(row) ==> Carried(cols, t, row);
        FilterFilter(before, HasText(i.value, t.1), pass);
      }
    }
  }

  /** The row has the literal, wherever its file has that column as text. */
  predicate Carried(cols: seq<Column>, t: (string, string), row: Cells) {
    var i := FindCol(cols, t.0);
    i.Some? && IsText(cols[i.value].kind) ==> HasText(i.value, t.1)(row)
  }

  lemma {:induction false} RowsInMembers(groups: seq<RowGroup>, row: Cells) returns (g: nat)
    requires row in RowsIn(groups)
    ensures g < |groups| && row in groups[g].rows
  {
    if row in Last(groups).rows { g := |groups| - 1; } else { g := RowsInMembers(Init(groups), row); }
  }

  lemma {:induction false} GatherMembers(groups: seq<RowGroup>, keep: seq<nat>, row: Cells) returns (g: nat)
    requires row in Gather(groups, keep)
    ensures g < |groups| && row in groups[g].rows
  {
    if row in Gather(groups, Init(keep)) { g := GatherMembers(groups, Init(keep), row); } else { g := Last(keep); }
  }

  lemma KeptGroups(env: Env, f: DataFile, fs: seq<Expr>)
    requires FileOk(f) && AllPin(env, fs)
    ensures var pass := Passing(env, f.cols, fs);
            Filter(Gather(f.groups, Kept(f, Extracted(fs).tags)), pass) == Filter(RowsIn(f.groups), pass)
  {
    var pass, n, tags := Passing(env, f.cols, fs), |f.groups|, Extracted(fs).tags;
    assert f.groups[..n] == f.groups;
    if tags == [] {
      GatherKept(f.groups, n, (g: nat) => true, pass);
    } else {
      var ok := Both(ByStats(f, tags), ByBloom(f, tags));
      KeptBoth(n, ByStats(f, tags), ByBloom(f, tags));
      forall g, row | 0 <= g < n && row in f.groups[g].rows && pass(row) ensures ok(g) {
        SkippedGroup(env, f, f.groups[g], row, fs);
      }
      GatherKept(f.groups, n, ok, pass);
    }
  }

  lemma CarriedByPassing(env: Env, f: DataFile, fs: seq<Expr>, rows: seq<Cells>, keep: seq<nat>, t: (string, string), row: Cells)
    requires FileOk(f) && AllPin(env, fs) && rows == Gather(f.groups, keep) && t in Extracted(fs).tags
    requires row in rows && Passing(env, f.cols, fs)(row)
    ensures Carried(f.cols, t, row)
  {
    var i := FindCol(f.cols, t.0);
    if i.Some? && IsText(f.cols[i.value].kind) {
      var g := GatherMembers(f.groups, keep, row);
      PassingCell(env, f, f.groups[g], row, fs, t, i.value);
    }
  }

  /** A file outside the extracted bounds has no passing row. */
  lemma OutsideNone(env: Env, f: DataFile, fs: seq<Expr>)
    requires FileOk(f) && AllExclude(env, fs) && OutsideTime(f, Extracted(fs))
    ensures Filter(RowsIn(f.groups), Passing(env, f.cols, fs)) == []
  {
    forall row: Cells | row in RowsIn(f.groups) ensures !Passing(env, f.cols, fs)(row) {
      var g := RowsInMembers(f.groups, row);
      var r :| 0 <= r < |f.groups[g].rows| && f.groups[g].rows[r] == row;
      assert GroupOk(f, f.groups[g]) && RowFits(f.cols, row) && InBounds(f, row);
      assert CellFits(f.cols[0].kind, row[0]);
      GetAt(f.cols, row, 0);
      if Passing(env, f.cols, fs)(row) { PassesBounds(env, Getter(f.cols, row), fs, row[0].ns); }
    }
    FilterNone(RowsIn(f.groups), Passing(env, f.cols, fs));
  }

  /** Pruning never changes an answer: filtering what a pruned load returns gives, in order,
   *  exactly what filtering the whole file gives. */
  lemma PruningKeepsAnswers(env: Env, f: DataFile, fs: seq<Expr>)
    requires FileOk(f) && Prunable(env, fs) && LoadOneFile(f, Extracted(fs)).Ok?
    ensures var pass := Passing(env, f.cols, fs);
            Filter(LoadedRows(LoadOneFile(f, Extracted(fs)).value), pass) == Filter(RowsIn(f.groups), pass)
  {
    var pass, p := Passing(env, f.cols, fs), Extracted(fs);
    if OutsideTime(f, p) {
      OutsideNone(env, f, fs);
    } else {
      var keep := Kept(f, p.tags);
      var rows := Gather(f.groups, keep);
      KeptGroups(env, f, fs);
      if keep != [] {
        forall k, row | 0 <= k < |p.tags| && row in rows && pass(row) ensures Carried(f.cols, p.tags[k], row) {
          CarriedByPassing(env, f, fs, rows, keep, p.tags[k], row);
        }
        DecodeKeeps(f.cols, p.tags, rows, pass);
      }
    }
  }

  // ----- when it fails

  /** The literal's column is text, or absent. */
  predicate TextLiteral(cols: seq<Column>, t: (string, string)) {
    var i := FindCol(cols, t.0);
    i.Some? ==> IsText(cols[i.value].kind)
  }

  /** Literal k is not text, and the row carries every literal before it, all of them text. */
  predicate Reaches(cols: seq<Column>, tags: seq<(string, string)>, row: Cells, k: nat)
    requires k <= |tags|
  {
    forall j :: 0 <= j < k ==> TextLiteral(cols, tags[j]) && Carried(cols, tags[j], row)
  }

  ghost predicate SomeFails(cols: seq<Column>, tags: seq<(string, string)>, rows: seq<Cells>) {
    exists k, row :: 0 <= k < |tags| && !TextLiteral(cols, tags[k]) && row in rows && Reaches(cols, tags, row, k)
  }

  lemma ReachesInit(cols: seq<Column>, tags: seq<(string, string)>, row: Cells, k: nat)
    requires k < |tags|
    ensures Reaches(cols, Init(tags), row, k) <==> Reaches(cols, tags, row, k)
  {
    assert forall j :: 0 <= j < k ==> Init(tags)[j] == tags[j];
  }

  lemma SomeFailsInit(cols: seq<Column>, tags: seq<(string, string)>, rows: seq<Cells>)
    requires tags != []
    ensures SomeFails(cols, tags, rows) <==>
            SomeFails(cols, Init(tags), rows) ||
            (!TextLiteral(cols, Last(tags)) && exists row :: row in rows && Reaches(cols, Init(tags), row, |tags| - 1))
  {
    forall k, row | 0 <= k < |tags| ensures Reaches(cols, Init(tags), row, k) <==> Reaches(cols, tags, row, k) {
      ReachesInit(cols, tags, row, k);
    }
    if SomeFails(cols, Init(tags), rows) {
      var k, row :| 0 <= k < |Init(tags)| && !TextLiteral(cols, Init(tags)[k]) && row in rows && Reaches(cols, Init(tags), row, k);
      assert !TextLiteral(cols, tags[k]) && Reaches(cols, tags, row, k);
    }
    if SomeFails(cols, tags, rows) {
      var k, row :| 0 <= k < |tags| && !TextLiteral(cols, tags[k]) && row in rows && Reaches(cols, tags, row, k);
      assert k < |tags| - 1 ==> !TextLiteral(cols, Init(tags)[k]) && Reaches(cols, Init(tags), row, k);
    }
    if row :| row in rows && Reaches(cols, Init(tags), row, |tags| - 1) && !TextLiteral(cols, Last(tags)) {
      assert Reaches(cols, tags, row, |tags| - 1);
    }
  }

  /** A decode that goes through keeps exactly the rows that reach its end. */
  lemma {:induction false} DecodedAre(cols: seq<Column>, tags: seq<(string, string)>, rows: seq<Cells>, row: Cells)
    requires Decode(cols, tags, rows).Ok?
    ensures row in Decode(cols, tags, rows).value <==> row in rows && Reaches(cols, tags, row, |tags|)
  {
    if tags != [] {
      var n := |tags| - 1;
      DecodedAre(cols, Init(tags), rows, row);
      ReachesInit(cols, tags, row, n);
      assert Reaches(cols, tags, row, n + 1) <==> Reaches(cols, tags, row, n) && TextLiteral(cols, tags[n]) && Carried(cols, tags[n], row);
    }
  }

  /** Exactly a row that carries the literals up to one that meets a non-text column fails a
   *  decode. */
  lemma {:induction false} DecodeFailsIff(cols: seq<Column>, tags: seq<(string, string)>, rows: seq<Cells>)
    ensures Decode(cols, tags, rows).Err? <==> SomeFails(cols, tags, rows)
  {
    if tags != [] {
      DecodeFailsIff(cols, Init(tags), rows);
      SomeFailsInit(cols, tags, rows);
      var before := Decode(cols, Init(tags), rows);
      if before.Ok? {
        forall row ensures row in before.value <==> row in rows && Reaches(cols, Init(tags), row, |tags| - 1) {
          DecodedAre(cols, Init(tags), rows, row);
        }
        if before.value != [] { assert before.value[0] in before.value; }
      }
    }
  }

  /** One row at instant t with the number n in column v, and no statistics. */
  function NumberFile(t: int, n: int): DataFile {
    DataFile([TIME, Column("v", Field(1))], [RowGroup([[Stamp(t), Value(1, n)]], [Chunk(None, None), Chunk(None, None)])], t, t)
  }

  /** CAST(v AS TEXT) = s */
  function NumberAsText(s: string): Expr { Cmp(Eq, Cast(Col("v"), AsText), Lit(Utf8(Some(s)))) }

  lemma NumberFileOk(t: int, n: int)
    requires Calendar.IsI64(t)
    ensures FileOk(NumberFile(t, n)) && Getter(NumberFile(t, n).cols, [Stamp(t), Value(1, n)])("v") == Value(1, n)
  {
    var f, row := NumberFile(t, n), [Stamp(t), Value(1, n)];
    assert RowFits(f.cols, row) && InBounds(f, row);
    assert ChunkTells(f.cols[0].kind, f.groups[0].chunks[0], f.groups[0].rows, 0);
    GetAt(f.cols, row, 1);
  }

  /** Such as a number compared through its text: its row passes the filter, and loading its file
   *  fails. */
  lemma NumberAsTextFails(env: Env, t: int, n: int)
    requires Calendar.IsI64(t)
    ensures var f, e := NumberFile(t, n), NumberAsText(env.render(Value(1, n)));
            Passing(env, f.cols, [e])([Stamp(t), Value(1, n)]) && LoadOneFile(f, Extracted([e])) == Err(NotText("v"))
  {
    var f, s := NumberFile(t, n), env.render(Value(1, n));
    NumberFileOk(t, n);
    NumberPasses(env, f.cols, [Stamp(t), Value(1, n)], n);
    NumberLiteral(s);
    OneGroup(f, [("v", s)]);
    assert Init(f.cols) == [TIME] && FindCol([TIME], "v").None? && FindCol(f.cols, "v") == Some(1);
    NotTextFails(f.cols, ("v", s), f.groups[0].rows, 1);
  }

  lemma NumberPasses(env: Env, cols: seq<Column>, row: Cells, n: int)
    requires Getter(cols, row)("v") == Value(1, n)
    ensures Passing(env, cols, [NumberAsText(env.render(Value(1, n)))])(row)
  {
    AsTextHolds(env, Getter(cols, row), "v", Value(1, n));
  }

  lemma NumberLiteral(s: string)
    ensures Extracted([NumberAsText(s)]) == Pruning(None, None, [("v", s)])
  {
    assert TagEq(NumberAsText(s)) == Some(("v", s));
    TagExtracted(NumberAsText(s), ("v", s));
  }

  lemma TagNoted(e: Expr, t: (string, string))
    requires TagEq(e) == Some(t)
    ensures Note(NOTHING, e) == Pruning(None, None, [t])
  {
    assert NOTHING.tags + [t] == [t];
  }

  lemma TagExtracted(e: Expr, t: (string, string))
    requires TagEq(e) == Some(t)
    ensures Extracted([e]) == Pruning(None, None, [t]) && AllAtoms([e]) == [e]
  {
    OneAtom(e);
    TagNoted(e, t);
  }

  lemma NotTextFails(cols: seq<Column>, t: (string, string), rows: seq<Cells>, i: nat)
    requires FindCol(cols, t.0) == Some(i) && !IsText(cols[i].kind) && rows != []
    ensures Decode(cols, [t], rows) == Err(NotText(t.0))
  {
    assert Init([t]) == [] && Decode(cols, [], rows) == Ok(rows);
  }

  lemma OneGroup(f: DataFile, tags: seq<(string, string)>)
    requires |f.groups| == 1 && tags != [] && forall i :: 0 <= i < |f.groups[0].chunks| ==> f.groups[0].chunks[i] == Chunk(None, None)
    ensures Kept(f, tags) == [0] && Gather(f.groups, [0]) == f.groups[0].rows
  {
    OneKept(|f.groups|, ByStats(f, tags), ByBloom(f, tags));
    OneGathered(f.groups, [0]);
  }

  lemma OneGathered(groups: seq<RowGroup>, first: seq<nat>)
    requires |groups| == 1 && first == [0]
    ensures Gather(groups, first) == groups[0].rows
  {
    assert Init(first) == [] && Gather(groups, Init(first)) == [] && [] + groups[0].rows == groups[0].rows;
  }

  lemma OneKept(n: nat, a: nat -> bool, b: nat -> bool)
    requires n == 1 && a(0) && b(0)
    ensures Filter(KeptBelow(n, a), b) == [0]
  {
    assert KeptBelow(0, a) == [] && KeptBelow(n, a) == [0];
  }

  lemma TextNeverFails(f: DataFile, p: Pruning)
    requires forall k :: 0 <= k < |p.tags| ==> TextLiteral(f.cols, p.tags[k])
    ensures LoadOneFile(f, p).Ok?
  {
    DecodeFailsIff(f.cols, p.tags, Gather(f.groups, Kept(f, p.tags)));
  }

  // ----- casts that pruning does not see

  /** The pruned load of a file answers the filters as the whole file does. */
  ghost predicate AnswersKept(env: Env, f: DataFile, fs: seq<Expr>) {
    var r, pass := LoadOneFile(f, Extracted(fs)), Passing(env, f.cols, fs);
    r.Ok? && Filter(LoadedRows(r.value), pass) == Filter(RowsIn(f.groups), pass)
  }

  lemma OneAtom(e: Expr)
    requires !e.And?
    ensures AllAtoms([e]) == [e] && NoteAll(NOTHING, [e]) == Note(NOTHING, e)
  {
    assert Init([e]) == [] && [] + [e] == [e];
  }

  /** One row at instant t. */
  function InstantFile(t: int): DataFile {
    DataFile([TIME], [RowGroup([[Stamp(t)]], [Chunk(None, None)])], t, t)
  }

  lemma InstantFileOk(t: int)
    requires Calendar.IsI64(t)
    ensures FileOk(InstantFile(t)) && RowsIn(InstantFile(t).groups) == [[Stamp(t)]]
    ensures Getter([TIME], [Stamp(t)])("time") == Stamp(t)
  {
    var f := InstantFile(t);
    assert RowFits(f.cols, [Stamp(t)]) && InBounds(f, [Stamp(t)]);
    assert Init(f.groups) == [];
    GetAt([TIME], [Stamp(t)], 0);
  }

  lemma PrunedInstant(env: Env, e: Expr, t: int)
    requires TimeCmp(e) && Calendar.IsI64(t) && Beyond(e, t) && Eval(env, AtTime(t), e).True?
    ensures !AnswersKept(env, InstantFile(t), [e])
  {
    OneAtom(e);
    InstantFileOk(t);
    EvalAtTime(env, Getter([TIME], [Stamp(t)]), e, t);
    var pass := Passing(env, [TIME], [e]);
    assert pass([Stamp(t)]) && OutsideTime(InstantFile(t), Extracted([e]));
    assert [Stamp(t)] in Filter(RowsIn(InstantFile(t).groups), pass);
  }

  /** A time comparison, under any casts, prunes soundly on every file exactly when it is true
   *  of no instant beyond the literal lifted out of it. */
  lemma TimePruningIff(env: Env, e: Expr)
    requires TimeCmp(e)
    ensures (forall f :: FileOk(f) ==> AnswersKept(env, f, [e])) <==> Excludes(env, e)
  {
    OneAtom(e);
    if Excludes(env, e) {
      forall f | FileOk(f) ensures AnswersKept(env, f, [e]) {
        TextNeverFails(f, Extracted([e]));
        PruningKeepsAnswers(env, f, [e]);
      }
    } else {
      var t :| Calendar.IsI64(t) && Beyond(e, t) && Eval(env, AtTime(t), e).True?;
      InstantFileOk(t);
      PrunedInstant(env, e, t);
    }
  }

  /** Where only resolutions change, evaluating it at one instant decides. */
  lemma ResolutionPruningIff(env: Env, e: Expr)
    requires Monotone(env) && TimeCmp(e) && InstantOnly(e.l) && InstantOnly(e.r) && Calendar.IsI64(TsLiteral(e.r).value)
    ensures (forall f :: FileOk(f) ==> AnswersKept(env, f, [e])) <==> Tight(env, e)
  {
    TimePruningIff(env, e);
    TightIff(env, e);
  }

  /** Comparing by day: CAST(time AS DATE) >= CAST(literal AS DATE). */
  lemma CoarseCastLosesRows(env: Env, ts: int)
    requires Calendar.IsI64(ts - 1) && env.conv(0, ts - 1) == env.conv(0, ts)
    ensures var e := Cmp(GtEq, Cast(Col("time"), Instant(0)), Cast(Lit(Nanos(Some(ts))), Instant(0)));
            !AnswersKept(env, InstantFile(ts - 1), [e])
  {
    var e := Cmp(GtEq, Cast(Col("time"), Instant(0)), Cast(Lit(Nanos(Some(ts))), Instant(0)));
    assert TrueAt(env, e, ts - 1);
    EvalIsTrueAt(env, e, ts - 1);
    PrunedInstant(env, e, ts - 1);
  }

  /** Comparing as text: where a later instant's text sorts first ('10' before '9'), its row
   *  passes and is pruned. */
  lemma TextCastLosesRows(env: Env, a: int, b: int)
    requires a < b && Calendar.IsI64(b) && Names.LexLess(env.render(Stamp(b)), env.render(Stamp(a)))
    ensures !AnswersKept(env, InstantFile(b), [TextCmp(a)])
  {
    TextCmpIs(env, a, b);
    PrunedInstant(env, TextCmp(a), b);
  }

  /** One row with the tag `name` at x, and no statistics. */
  function TagFile(name: string, x: string): DataFile {
    DataFile([TIME, Column(name, Tag)], [RowGroup([[Stamp(0), Text(x)]], [Chunk(None, None), Chunk(None, None)])], 0, 0)
  }

  lemma TagFileOk(name: string, x: string)
    requires name != "time"
    ensures FileOk(TagFile(name, x)) && RowsIn(TagFile(name, x).groups) == [[Stamp(0), Text(x)]]
    ensures Getter(TagFile(name, x).cols, [Stamp(0), Text(x)])(name) == Text(x) && FindCol(TagFile(name, x).cols, name) == Some(1)
  {
    var f, row := TagFile(name, x), [Stamp(0), Text(x)];
    assert RowFits(f.cols, row) && InBounds(f, row);
    assert ChunkTells(f.cols[0].kind, f.groups[0].chunks[0], f.groups[0].rows, 0);
    GetAt(f.cols, row, 1);
    assert Init(f.groups) == [] && Init(f.cols) == [TIME] && FindCol([TIME], name).None?;
  }

  lemma TagDecoded(cols: seq<Column>, t: (string, string), rows: seq<Cells>, i: nat)
    requires FindCol(cols, t.0) == Some(i) && IsText(cols[i].kind) && forall row :: row in rows ==> !HasText(i, t.1)(row)
    ensures Decode(cols, [t], rows) == Ok([])
  {
    FilterNone(rows, HasText(i, t.1));
    assert Init([t]) == [] && Decode(cols, [], rows) == Ok(rows);
  }

  /** A text other than the literal of which the comparison is true: its row is lost. */
  lemma PrunedTag(env: Env, e: Expr, x: string)
    requires TagEq(e).Some? && TagEq(e).value.0 != "time" && x != TagEq(e).value.1 && Eval(env, AtText(x), e).True?
    ensures !AnswersKept(env, TagFile(TagEq(e).value.0, x), [e])
  {
    var t, row := TagEq(e).value, [Stamp(0), Text(x)];
    var f := TagFile(t.0, x);
    TagFileOk(t.0, x);
    TagExtracted(e, t);
    OneGroup(f, [t]);
    TagDecoded(f.cols, t, [row], 1);
    EvalAtText(env, Getter(f.cols, row), e, t);
    var pass := Passing(env, f.cols, [e]);
    assert pass(row) && row in Filter(RowsIn(f.groups), pass);
    assert LoadOneFile(f, Extracted([e])) == Ok(Some([])) && Filter(LoadedRows(Some([])), pass) == [];
  }

  /** A tag comparison, under any casts, prunes soundly on every file that has its column as text
   *  or not at all exactly when it is true of no text but its literal. */
  lemma TagPruningIff(env: Env, e: Expr)
    requires TagEq(e).Some? && TagEq(e).value.0 != "time"
    ensures (forall f :: FileOk(f) && TextLiteral(f.cols, TagEq(e).value) ==> AnswersKept(env, f, [e])) <==> Pins(env, e)
  {
    var t := TagEq(e).value;
    TagExtracted(e, t);
    if Pins(env, e) {
      assert Prunable(env, [e]);
      forall f | FileOk(f) && TextLiteral(f.cols, t) ensures AnswersKept(env, f, [e]) {
        TextNeverFails(f, Extracted([e]));
        PruningKeepsAnswers(env, f, [e]);
      }
    } else {
      var x :| x != t.1 && Eval(env, AtText(x), e).True?;
      TagFileOk(t.0, x);
      PrunedTag(env, e, x);
      assert TextLiteral(TagFile(t.0, x).cols, t);
    }
  }

  /** Comparing a tag through a number: where another text reads as the same number ('05' and
   *  '5'), its row passes and is lost. */
  lemma NumberCastLosesRows(env: Env, name: string, s: string, x: string, n: int)
    requires name != "time" && x != s && env.other(OtherType(0), Text(x)) == Value(1, n) && env.render(Value(1, n)) == s
    ensures !AnswersKept(env, TagFile(name, x), [NumberCmp(name, s)])
  {
    NumberCmpIs(env, name, s, x, n);
    PrunedTag(env, NumberCmp(name, s), x);
  }

  // ----- what pruning does skip

  /** `time` compared with a literal, without casts. */
  function TimeAgainst(op: Op, lit: Literal): Expr { Cmp(op, Col("time"), Lit(lit)) }

  /** A file that ends before a lower bound, or starts after an upper one, is not read at all. */
  lemma SkipsOutside(f: DataFile, op: Op, t: int, us: int)
    requires Calendar.IsI64(us * 1000) && t == us * 1000
    ensures (op.Gt? || op.GtEq?) && f.max < t ==> LoadOneFile(f, Extracted([TimeAgainst(op, Nanos(Some(t)))])) == Ok(None)
    ensures (op.Lt? || op.LtEq?) && f.min > t ==> LoadOneFile(f, Extracted([TimeAgainst(op, Nanos(Some(t)))])) == Ok(None)
    ensures (op.Gt? || op.GtEq?) && f.max < t ==> LoadOneFile(f, Extracted([TimeAgainst(op, Micros(Some(us)))])) == Ok(None)
    ensures (op.Lt? || op.LtEq?) && f.min > t ==> LoadOneFile(f, Extracted([TimeAgainst(op, Micros(Some(us)))])) == Ok(None)
  {
    OneAtom(TimeAgainst(op, Nanos(Some(t))));
    OneAtom(TimeAgainst(op, Micros(Some(us))));
  }

  /** Neither is one none of whose row groups can hold the tag asked for. */
  lemma SkipsAbsentTag(f: DataFile, name: string, s: string, i: nat)
    requires FindCol(f.cols, name) == Some(i) && forall g :: 0 <= g < |f.groups| ==> i < |f.groups[g].chunks|
    requires forall g :: 0 <= g < |f.groups| ==> !StatsAdmit(f.groups[g].chunks[i], s) || !BloomAdmits(f.groups[g].chunks[i], s)
    ensures LoadOneFile(f, Extracted([TagAgainst(name, s)])) == Ok(None)
  {
    var e := TagAgainst(name, s);
    PlainTag(e, name, s);
    TagExtracted(e, (name, s));
    KeepsNone(f, (name, s), Extracted([e]).tags, i);
    NoneLoaded(f, Extracted([e]));
  }

  /** A column compared with a text, without casts. */
  function TagAgainst(name: string, s: string): Expr { Cmp(Eq, Col(name), Lit(Utf8(Some(s)))) }

  lemma PlainTag(e: Expr, name: string, s: string)
    requires e == TagAgainst(name, s)
    ensures TagEq(e) == Some((name, s))
  {
  }

  lemma NoneLoaded(f: DataFile, p: Pruning)
    requires Kept(f, p.tags) == []
    ensures LoadOneFile(f, p) == Ok(None)
  {
  }

  lemma KeepsNone(f: DataFile, t: (string, string), tags: seq<(string, string)>, i: nat)
    requires tags == [t] && FindCol(f.cols, t.0) == Some(i) && forall g :: 0 <= g < |f.groups| ==> i < |f.groups[g].chunks|
    requires forall g :: 0 <= g < |f.groups| ==> !StatsAdmit(f.groups[g].chunks[i], t.1) || !BloomAdmits(f.groups[g].chunks[i], t.1)
    ensures Kept(f, tags) == []
  {
    var ok := Both(ByStats(f, tags), ByBloom(f, tags));
    KeptBoth(|f.groups|, ByStats(f, tags), ByBloom(f, tags));
    forall g: nat | g < |f.groups| ensures !ok(g) { AdmitsOne(f, f.groups[g], t, tags, i); }
    NoneKept(|f.groups|, ok);
  }

  lemma AdmitsOne(f: DataFile, g: RowGroup, t: (string, string), tags: seq<(string, string)>, i: nat)
    requires tags == [t] && FindCol(f.cols, t.0) == Some(i) && i < |g.chunks|
    ensures AdmitsAll(f, g, tags, StatsAdmit) ==> StatsAdmit(g.chunks[i], t.1)
    ensures AdmitsAll(f, g, tags, BloomAdmits) ==> BloomAdmits(g.chunks[i], t.1)
  {
    assert AdmitsAll(f, g, tags, StatsAdmit) ==> GroupAdmits(f, g, tags[0], StatsAdmit);
    assert AdmitsAll(f, g, tags, BloomAdmits) ==> GroupAdmits(f, g, tags[0], BloomAdmits);
  }

  lemma {:induction false} NoneKept(n: nat, ok: nat -> bool)
    requires forall g: nat :: g < n ==> !ok(g)
    ensures KeptBelow(n, ok) == []
  {
    if n > 0 { NoneKept(n - 1, ok); }
  }

  // ----- counting row groups

  class ScanStats {
    var filesConsidered: nat
    var filesTimePruned: nat
    var considered: nat
    var statsPruned: nat
    var bloomPruned: nat
    var scanned: nat

    constructor ()
      ensures Balanced()
    {
      filesConsidered, filesTimePruned, considered, statsPruned, bloomPruned, scanned := 0, 0, 0, 0, 0, 0;
    }

    predicate Balanced() reads this { considered == statsPruned + bloomPruned + scanned }
  }

  lemma {:induction false} KeptAtMost(n: nat, ok: nat -> bool)
    ensures |KeptBelow(n, ok)| <= n
    ensures (forall g :: 0 <= g < n ==> ok(g)) ==> |KeptBelow(n, ok)| == n
  {
    if n > 0 { KeptAtMost(n - 1, ok); }
  }

  lemma {:induction false} FilterAtMost<T(!new)>(s: seq<T>, keep: T -> bool)
    ensures |Filter(s, keep)| <= |s|
  {
    if s != [] { FilterAtMost(s[1..], keep); }
  }

  /** Loads one file and counts every row group exactly once. */
  method Load(f: DataFile, p: Pruning, stats: ScanStats) returns (r: Result<Option<seq<Cells>>, ScanError>)
    requires forall g :: 0 <= g < |f.groups| ==> |f.groups[g].chunks| == |f.cols|
    modifies stats
    ensures r == LoadOneFile(f, p)
    ensures old(stats.Balanced()) ==> stats.Balanced()
    ensures stats.considered == old(stats.considered) + (if OutsideTime(f, p) then 0 else |f.groups|)
    ensures stats.scanned == old(stats.scanned) + (if OutsideTime(f, p) then 0 else |Kept(f, p.tags)|)
    ensures stats.filesTimePruned == old(stats.filesTimePruned) + (if OutsideTime(f, p) then 1 else 0)
    ensures stats.filesConsidered == old(stats.filesConsidered) + 1
  {
    stats.filesConsidered := stats.filesConsidered + 1;
    if OutsideTime(f, p) {
      stats.filesTimePruned := stats.filesTimePruned + 1;
      return Ok(None);
    }
    stats.considered := stats.considered + |f.groups|;
    var keep: seq<nat>;
    if p.tags == [] {
      keep := KeptBelow(|f.groups|, (g: nat) => true);
      KeptAtMost(|f.groups|, (g: nat) => true);
    } else {
      var byStats := StatsKeepRowGroups(f, p.tags);
      KeptAtMost(|f.groups|, ByStats(f, p.tags));
      stats.statsPruned := stats.statsPruned + (|f.groups| - |byStats|);
      keep := BloomKeepRowGroups(f, p.tags, byStats);
      FilterAtMost(byStats, ByBloom(f, p.tags));
      stats.bloomPruned := stats.bloomPruned + (|byStats| - |keep|);
    }
    stats.scanned := stats.scanned + |keep|;
    if keep == [] { return Ok(None); }
    var rows := Decode(f.cols, p.tags, Gather(f.groups, keep));
    r := if rows.Err? then Err(rows.error) else Ok(Some(rows.value));
  }
}
