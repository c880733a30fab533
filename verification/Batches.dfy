/** Record batches: named, typed columns over rows of cells, and their alignment. */
module Batches {
  import opened Basics
  import opened Names
  import opened LastWrite
  import Calendar

  datatype Cell = Null | Text(s: string) | Stamp(ns: int) | Value(ty: nat, v: int)

  /** Column types: the time column, dictionary-encoded tags, and fields by type. */
  datatype Kind = Time | Tag | Field(ty: nat)

  datatype Column = Column(name: string, kind: Kind)

  type Cells = seq<Cell>

  datatype Batch = Batch(cols: seq<Column>, rows: seq<Cells>)

  const TIME := Column("time", Time)

  predicate DistinctNames(cols: seq<Column>) {
    forall i, j :: 0 <= i < j < |cols| ==> cols[i].name != cols[j].name
  }

  /** Schemas start with `time` and use it nowhere else. */
  predicate IsSchema(cols: seq<Column>) {
    cols != [] && cols[0] == TIME && DistinctNames(cols) && forall i :: 1 <= i < |cols| ==> !cols[i].kind.Time?
  }

  predicate CellFits(kind: Kind, c: Cell) {
    match kind
    case Time => c.Stamp? && Calendar.IsI64(c.ns)
    case Tag => c.Null? || c.Text?
    case Field(_) => true
  }

  predicate RowFits(cols: seq<Column>, row: Cells) {
    |row| == |cols| && forall i :: 0 <= i < |cols| ==> CellFits(cols[i].kind, row[i])
  }

  predicate IsBatch(b: Batch) {
    IsSchema(b.cols) && forall i :: 0 <= i < |b.rows| ==> RowFits(b.cols, b.rows[i])
  }

  /** `column_by_name` at one row; a missing column reads as null. */
  function Get(cols: seq<Column>, row: Cells, name: string): Cell {
    if cols == [] || |row| != |cols| then Null
    else if Last(cols).name == name then Last(row)
    else Get(Init(cols), Init(row), name)
  }

  lemma {:induction false} GetAt(cols: seq<Column>, row: Cells, i: nat)
    requires DistinctNames(cols) && |row| == |cols| && i < |cols|
    ensures Get(cols, row, cols[i].name) == row[i]
  {
    if i < |cols| - 1 { GetAt(Init(cols), Init(row), i); }
  }

  lemma {:induction false} GetMissing(cols: seq<Column>, row: Cells, name: string)
    requires forall c :: c in cols ==> c.name != name
    ensures Get(cols, row, name) == Null
  {
    if cols != [] && |row| == |cols| {
      assert Last(cols) in cols;
      GetMissing(Init(cols), Init(row), name);
    }
  }

  function NamesOf(cols: seq<Column>): set<string> { set c | c in cols :: c.name }

  function TagNames(cols: seq<Column>): set<string> { set c | c in cols && c.kind.Tag? :: c.name }

  function FieldNames(cols: seq<Column>): set<string> { set c | c in cols && c.kind.Field? :: c.name }

  /** The logical row a row of cells stands for. */
  function Read(cols: seq<Column>, row: Cells): Row<Cell> {
    var time := Get(cols, row, "time");
    Row(if time.Stamp? then time.ns else 0,
        map n | n in TagNames(cols) && Get(cols, row, n).Text? :: Get(cols, row, n).s,
        map n | n in FieldNames(cols) && !Get(cols, row, n).Null? :: Get(cols, row, n))
  }

  // ----- align

  /** `to` carries every column of `from`, with its type. */
  predicate Carries(to: seq<Column>, from: seq<Column>) { forall c :: c in from ==> c in to }

  /** One aligned row: the target's columns, nulls where the batch has none. */
  function AlignRow(to: seq<Column>, from: seq<Column>, row: Cells): (r: Cells)
    ensures |r| == |to| && forall i :: 0 <= i < |to| ==> r[i] == Get(from, row, to[i].name)
  {
    seq(|to|, i requires 0 <= i < |to| => Get(from, row, to[i].name))
  }

  lemma SameName(cols: seq<Column>, a: Column, b: Column)
    requires DistinctNames(cols) && a in cols && b in cols && a.name == b.name
    ensures a == b
  {
  }

  lemma AlignedGet(to: seq<Column>, from: seq<Column>, row: Cells, name: string)
    requires IsSchema(to) && IsSchema(from) && Carries(to, from) && |row| == |from|
    ensures Get(to, AlignRow(to, from, row), name) == Get(from, row, name)
  {
    if name in NamesOf(to) {
      var c :| c in to && c.name == name;
      var i :| 0 <= i < |to| && to[i] == c;
      GetAt(to, AlignRow(to, from, row), i);
    } else {
      GetMissing(to, AlignRow(to, from, row), name);
      forall c | c in from ensures c.name != name { assert c in to; }
      GetMissing(from, row, name);
    }
  }

  /** Alignment changes how a row is stored, never what it says. */
  lemma AlignKeepsRow(to: seq<Column>, from: seq<Column>, row: Cells)
    requires IsSchema(to) && IsSchema(from) && Carries(to, from) && |row| == |from|
    ensures Read(to, AlignRow(to, from, row)) == Read(from, row)
  {
    var row' := AlignRow(to, from, row);
    forall n ensures Get(to, row', n) == Get(from, row, n) { AlignedGet(to, from, row, n); }
    TagsThere(to, from, row);
    FieldsThere(to, from, row);
  }

  lemma TagsThere(to: seq<Column>, from: seq<Column>, row: Cells)
    requires IsSchema(to) && Carries(to, from)
    ensures forall n :: n in TagNames(from) ==> n in TagNames(to)
    ensures forall n :: n in TagNames(to) && !Get(from, row, n).Null? ==> n in TagNames(from)
  {
    forall n | n in TagNames(to) && !Get(from, row, n).Null? ensures n in TagNames(from) {
      var c :| c in to && c.kind.Tag? && c.name == n;
      if c !in from {
        forall d | d in from ensures d.name != n { if d.name == n { SameName(to, c, d); } }
        GetMissing(from, row, n);
      }
    }
  }

  lemma FieldsThere(to: seq<Column>, from: seq<Column>, row: Cells)
    requires IsSchema(to) && Carries(to, from)
    ensures forall n :: n in FieldNames(from) ==> n in FieldNames(to)
    ensures forall n :: n in FieldNames(to) && !Get(from, row, n).Null? ==> n in FieldNames(from)
  {
    forall n | n in FieldNames(to) && !Get(from, row, n).Null? ensures n in FieldNames(from) {
      var c :| c in to && c.kind.Field? && c.name == n;
      if c !in from {
        forall d | d in from ensures d.name != n { if d.name == n { SameName(to, c, d); } }
        GetMissing(from, row, n);
      }
    }
  }

  // ----- the union schema

  /** Two columns share a name but not a type. */
  predicate Clash(c: Column, d: Column) { c.name == d.name && c.kind != d.kind }

  predicate NoClash(cs: seq<Column>) { forall c, d :: c in cs && d in cs ==> !Clash(c, d) }

  /** First-seen union of columns; a name carried with two types is an error. */
  function Union(cs: seq<Column>): Option<seq<Column>> {
    if cs == [] then Some([]) else Absorb(Union(Init(cs)), Last(cs))
  }

  function Absorb(known: Option<seq<Column>>, c: Column): Option<seq<Column>> {
    if known.None? then None
    else if c in known.value then known
    else if c.name in NamesOf(known.value) then None
    else Some(known.value + [c])
  }

  lemma {:induction false} UnionIff(cs: seq<Column>)
    ensures Union(cs).Some? <==> NoClash(cs)
    ensures Union(cs).Some? ==> DistinctNames(Union(cs).value) && forall c :: c in Union(cs).value <==> c in cs
    ensures Union(cs).Some? && cs != [] ==> Union(cs).value != [] && Union(cs).value[0] == cs[0]
  {
    if cs != [] {
      UnionIff(Init(cs));
      AbsorbIff(Init(cs), Last(cs), Union(Init(cs)));
      InitLast(cs);
    }
  }

  lemma AbsorbNew(cs: seq<Column>, c: Column, k: seq<Column>)
    requires NoClash(cs) && DistinctNames(k) && (forall d :: d in k <==> d in cs) && c.name !in NamesOf(k)
    ensures NoClash(cs + [c]) && DistinctNames(k + [c]) && forall d :: d in k + [c] <==> d in cs + [c]
  {
    forall d | d in cs ensures d.name != c.name { assert d in k && d.name in NamesOf(k); }
    forall i | 0 <= i < |k| ensures k[i].name != c.name { assert k[i] in k; }
  }

  lemma AbsorbIff(cs: seq<Column>, c: Column, known: Option<seq<Column>>)
    requires known.Some? <==> NoClash(cs)
    requires known.Some? ==> DistinctNames(known.value) && forall d :: d in known.value <==> d in cs
    requires known.Some? && cs != [] ==> known.value != [] && known.value[0] == cs[0]
    ensures var u := Absorb(known, c);
            && (u.Some? <==> NoClash(cs + [c]))
            && (u.Some? ==> DistinctNames(u.value) && forall d :: d in u.value <==> d in cs + [c])
            && (u.Some? ==> u.value != [] && u.value[0] == (cs + [c])[0])
  {
    if known.Some? {
      var k := known.value;
      if c in k {
        forall d | d in k ensures !Clash(c, d) && !Clash(d, c) { if d.name == c.name { SameName(k, c, d); } }
      } else if c.name in NamesOf(k) {
        var d :| d in k && d.name == c.name;
        assert Clash(c, d) && d in cs + [c] && c in cs + [c];
      } else {
        AbsorbNew(cs, c, k);
        assert k != [] ==> k[0] in k;
      }
    } else {
      var d, e :| d in cs && e in cs && Clash(d, e);
      assert d in cs + [c] && e in cs + [c];
    }
  }

  function ColumnsOf(bs: seq<Batch>): seq<Column> {
    if bs == [] then [] else ColumnsOf(Init(bs)) + Last(bs).cols
  }

  ghost predicate SomeHas(bs: seq<Batch>, c: Column) { exists b :: b in bs && c in b.cols }

  lemma {:induction false} ColumnsOfMembers(bs: seq<Batch>, c: Column)
    ensures c in ColumnsOf(bs) <==> SomeHas(bs, c)
  {
    if bs != [] {
      ColumnsOfMembers(Init(bs), c);
      if SomeHas(Init(bs), c) {
        var b :| b in Init(bs) && c in b.cols;
        assert b in bs;
      }
      if c in Last(bs).cols { assert Last(bs) in bs; }
      if SomeHas(bs, c) {
        var b :| b in bs && c in b.cols;
        assert b in Init(bs) || b == Last(bs);
      }
    }
  }

  predicate AllBatches(bs: seq<Batch>) { forall i :: 0 <= i < |bs| ==> IsBatch(bs[i]) }

  lemma {:induction false} ColumnsOfFirst(bs: seq<Batch>)
    requires AllBatches(bs) && bs != []
    ensures ColumnsOf(bs) != [] && ColumnsOf(bs)[0] == TIME
    ensures forall c :: c in ColumnsOf(bs) && c.kind.Time? ==> c == TIME
  {
    if |bs| > 1 { ColumnsOfFirst(Init(bs)); }
    assert IsBatch(Last(bs));
  }

  /** The union of batch schemas is a schema that carries each of them. */
  lemma UnionIsSchema(bs: seq<Batch>)
    requires AllBatches(bs) && bs != [] && Union(ColumnsOf(bs)).Some?
    ensures var u := Union(ColumnsOf(bs)).value;
            IsSchema(u) && forall b :: b in bs ==> Carries(u, b.cols)
  {
    var cs, u := ColumnsOf(bs), Union(ColumnsOf(bs)).value;
    UnionIff(cs);
    ColumnsOfFirst(bs);
    forall i | 1 <= i < |u| ensures !u[i].kind.Time? { assert u[i] in u; }
    forall b, c | b in bs && c in b.cols ensures c in u {
      assert SomeHas(bs, c);
      ColumnsOfMembers(bs, c);
    }
  }

  function AlignBatch(to: seq<Column>, b: Batch): Batch {
    Batch(to, Map(b.rows, (r: Cells) => AlignRow(to, b.cols, r)))
  }

  lemma {:induction false} NoneStays(a: seq<Column>, b: seq<Column>)
    requires Union(a).None?
    ensures Union(a + b).None?
  {
    if b == [] {
      assert a + b == a;
    } else {
      NoneStays(a, Init(b));
      assert Init(a + b) == a + Init(b);
    }
  }

  lemma {:induction false} NoneStaysInBatches(bs: seq<Batch>, n: nat)
    requires n <= |bs| && Union(ColumnsOf(bs[..n])).None?
    ensures Union(ColumnsOf(bs)).None?
  {
    if n < |bs| {
      InitPrefix(bs, n);
      NoneStaysInBatches(Init(bs), n);
      NoneStays(ColumnsOf(Init(bs)), Last(bs).cols);
    } else {
      assert bs[..n] == bs;
    }
  }

  /** One batch's columns against what is known so far. */
  method Learn(known: seq<Column>, cols: seq<Column>, ghost seen: seq<Column>) returns (r: Option<seq<Column>>)
    requires Union(seen) == Some(known)
    ensures r == Union(seen + cols)
  {
    var now := known;
    assert seen + cols[..0] == seen;
    for j := 0 to |cols|
      invariant Union(seen + cols[..j]) == Some(now)
    {
      assert Init(seen + cols[..j + 1]) == seen + cols[..j];
      if cols[j] in now {
      } else if cols[j].name in NamesOf(now) {
        assert seen + cols == (seen + cols[..j + 1]) + cols[j + 1..];
        NoneStays(seen + cols[..j + 1], cols[j + 1..]);
        return None;
      } else {
        now := now + [cols[j]];
      }
    }
    assert cols[..|cols|] == cols;
    r := Some(now);
  }

  /** `align`: learn the union schema, then rewrite every batch to it. */
  method Align(bs: seq<Batch>) returns (r: Option<(seq<Column>, seq<Batch>)>)
    ensures r.None? <==> Union(ColumnsOf(bs)).None?
    ensures r.Some? ==> r.value.0 == Union(ColumnsOf(bs)).value
    ensures r.Some? ==> |r.value.1| == |bs| &&
                        forall i :: 0 <= i < |bs| ==> r.value.1[i] == AlignBatch(r.value.0, bs[i])
  {
    var known: seq<Column> := [];
    for i := 0 to |bs|
      invariant Union(ColumnsOf(bs[..i])) == Some(known)
    {
      assert Init(bs[..i + 1]) == bs[..i];
      var next := Learn(known, bs[i].cols, ColumnsOf(bs[..i]));
      if next.None? {
        NoneStaysInBatches(bs, i + 1);
        return None;
      }
      known := next.value;
    }
    assert bs[..|bs|] == bs;
    var aligned: seq<Batch> := [];
    for i := 0 to |bs|
      invariant |aligned| == i && forall k :: 0 <= k < i ==> aligned[k] == AlignBatch(known, bs[k])
    {
      aligned := aligned + [AlignBatch(known, bs[i])];
    }
    r := Some((known, aligned));
  }

  // ----- the order of primary keys

  /** Nulls first, then by value; text in byte order. */
  predicate CellLess(a: Cell, b: Cell) {
    match (a, b)
    case (Null, _) => !b.Null?
    case (Text(s), Text(t)) => LexLess(s, t)
    case (Text(_), Stamp(_)) => true
    case (Text(_), Value(_, _)) => true
    case (Stamp(x), Stamp(y)) => x < y
    case (Stamp(_), Value(_, _)) => true
    case (Value(t, x), Value(u, y)) => t < u || (t == u && x < y)
    case (_, _) => false
  }

  lemma CellOrder(a: Cell, b: Cell)
    ensures CellLess(a, b) || a == b || CellLess(b, a)
    ensures !(CellLess(a, b) && CellLess(b, a)) && !CellLess(a, a)
  {
    if a.Text? && b.Text? {
      LexTotal(a.s, b.s);
      if LexLess(a.s, b.s) && LexLess(b.s, a.s) { LexTransitive(a.s, b.s, a.s); }
      LexIrreflexive(a.s);
    }
    if a.Text? { LexIrreflexive(a.s); }
  }

  lemma CellTransitive(a: Cell, b: Cell, c: Cell)
    requires CellLess(a, b) && CellLess(b, c)
    ensures CellLess(a, c)
  {
    if a.Text? && b.Text? && c.Text? { LexTransitive(a.s, b.s, c.s); }
  }

  predicate TupleLess(a: Cells, b: Cells) {
    a != [] && b != [] && (CellLess(a[0], b[0]) || (a[0] == b[0] && TupleLess(a[1..], b[1..])))
  }

  lemma {:induction false} TupleOrder(a: Cells, b: Cells)
    requires |a| == |b|
    ensures TupleLess(a, b) || a == b || TupleLess(b, a)
    ensures TupleLess(a, b) ==> a != b && !TupleLess(b, a)
  {
    if a != [] {
      CellOrder(a[0], b[0]);
      CellOrder(b[0], a[0]);
      TupleOrder(a[1..], b[1..]);
      assert a == [a[0]] + a[1..] && b == [b[0]] + b[1..];
    }
  }

  lemma {:induction false} TupleTransitive(a: Cells, b: Cells, c: Cells)
    requires TupleLess(a, b) && TupleLess(b, c)
    ensures TupleLess(a, c)
  {
    CellOrder(a[0], b[0]);
    CellOrder(b[0], c[0]);
    if a[0] == b[0] && b[0] == c[0] {
      TupleTransitive(a[1..], b[1..], c[1..]);
    } else if CellLess(a[0], b[0]) && CellLess(b[0], c[0]) {
      CellTransitive(a[0], b[0], c[0]);
    }
  }

  /** The tag cells of a row in column order, leaving out one name. */
  function TagCells(cols: seq<Column>, but: Option<string>, row: Cells): Cells
    requires |row| == |cols|
  {
    if cols == [] then []
    else
      TagCells(Init(cols), but, Init(row)) +
      (if Last(cols).kind.Tag? && Some(Last(cols).name) != but then [Last(row)] else [])
  }

  /** The sort key of `prepare_ordered`: the leading column, if any, then time, then the other tags. */
  function SortKey(cols: seq<Column>, leading: Option<string>, row: Cells): Cells
    requires |row| == |cols| && cols != []
  {
    (if leading.Some? && leading.value in NamesOf(cols) then [Get(cols, row, leading.value)] else []) +
    [row[0]] + TagCells(cols[1..], leading, row[1..])
  }

  // ----- sort keys are primary keys

  lemma {:induction false} TagCellsIff(cols: seq<Column>, but: Option<string>, a: Cells, b: Cells)
    requires |a| == |cols| && |b| == |cols|
    ensures |TagCells(cols, but, a)| == |TagCells(cols, but, b)|
    ensures TagCells(cols, but, a) == TagCells(cols, but, b) <==>
            forall i :: 0 <= i < |cols| && cols[i].kind.Tag? && Some(cols[i].name) != but ==> a[i] == b[i]
  {
    if cols != [] {
      var n := |cols| - 1;
      TagCellsIff(Init(cols), but, Init(a), Init(b));
      var x, y := TagCells(Init(cols), but, Init(a)), TagCells(Init(cols), but, Init(b));
      SnocEq(x, a[n], y, b[n]);
      assert x + [] == x && y + [] == y;
    }
  }

  lemma SnocEq(x: Cells, a: Cell, y: Cells, b: Cell)
    requires |x| == |y|
    ensures x + [a] == y + [b] <==> x == y && a == b
  {
    if x + [a] == y + [b] {
      assert x == (x + [a])[..|x|] && y == (y + [b])[..|y|];
      assert a == (x + [a])[|x|] && b == (y + [b])[|y|];
    }
  }

  /** `leading` names a tag, or nothing in this schema. */
  predicate LeadsByTag(cols: seq<Column>, leading: Option<string>) {
    leading.Some? && leading.value in NamesOf(cols) ==> leading.value in TagNames(cols)
  }

  /** Equal times and equal tag cells. */
  predicate SameTags(cols: seq<Column>, a: Cells, b: Cells)
    requires |a| == |cols| && |b| == |cols| && cols != []
  {
    a[0] == b[0] && forall i :: 1 <= i < |cols| && cols[i].kind.Tag? ==> a[i] == b[i]
  }

  lemma SortKeyIff(cols: seq<Column>, leading: Option<string>, a: Cells, b: Cells)
    requires IsSchema(cols) && RowFits(cols, a) && RowFits(cols, b) && LeadsByTag(cols, leading)
    ensures |SortKey(cols, leading, a)| == |SortKey(cols, leading, b)|
    ensures SortKey(cols, leading, a) == SortKey(cols, leading, b) <==> SameTags(cols, a, b)
  {
    TagCellsIff(cols[1..], leading, a[1..], b[1..]);
    var ta, tb := TagCells(cols[1..], leading, a[1..]), TagCells(cols[1..], leading, b[1..]);
    if leading.Some? && leading.value in NamesOf(cols) {
      var i := TagIndex(cols, leading.value);
      GetAt(cols, a, i);
      GetAt(cols, b, i);
      HeadEq([a[i]] + [a[0]], ta, [b[i]] + [b[0]], tb);
      SnocEq([a[i]], a[0], [b[i]], b[0]);
      assert [a[i]] == [b[i]] <==> a[i] == b[i];
      TagsBut(cols, leading.value, i, a, b);
    } else {
      HeadEq([a[0]], ta, [b[0]], tb);
      assert [a[0]] == [b[0]] <==> a[0] == b[0];
      assert [] + [a[0]] == [a[0]] && [] + [b[0]] == [b[0]];
      NoneLeft(cols, leading, a, b);
    }
  }

  lemma HeadEq(h: Cells, t: Cells, h': Cells, t': Cells)
    requires |h| == |h'|
    ensures h + t == h' + t' <==> h == h' && t == t'
  {
    if h + t == h' + t' {
      assert h == (h + t)[..|h|] && h' == (h' + t')[..|h'|];
      assert t == (h + t)[|h|..] && t' == (h' + t')[|h'|..];
    }
  }

  lemma TagIndex(cols: seq<Column>, name: string) returns (i: nat)
    requires IsSchema(cols) && name in TagNames(cols)
    ensures 1 <= i < |cols| && cols[i].kind.Tag? && cols[i].name == name
  {
    var c :| c in cols && c.kind.Tag? && c.name == name;
    i :| 0 <= i < |cols| && cols[i] == c;
  }

  lemma TagsBut(cols: seq<Column>, name: string, i: nat, a: Cells, b: Cells)
    requires IsSchema(cols) && |a| == |cols| && |b| == |cols|
    requires 1 <= i < |cols| && cols[i].kind.Tag? && cols[i].name == name
    ensures a[0] == b[0] && a[i] == b[i] &&
            (forall j :: 0 <= j < |cols[1..]| && cols[1..][j].kind.Tag? && Some(cols[1..][j].name) != Some(name) ==>
              a[1..][j] == b[1..][j])
            <==> SameTags(cols, a, b)
  {
    if a[0] == b[0] && a[i] == b[i] &&
       (forall j :: 0 <= j < |cols[1..]| && cols[1..][j].kind.Tag? && Some(cols[1..][j].name) != Some(name) ==>
         a[1..][j] == b[1..][j])
    {
      forall k | 1 <= k < |cols| && cols[k].kind.Tag? ensures a[k] == b[k] {
        if k != i { assert cols[1..][k - 1] == cols[k] && a[1..][k - 1] == a[k] && b[1..][k - 1] == b[k]; }
      }
    }
  }

  lemma NoneLeft(cols: seq<Column>, leading: Option<string>, a: Cells, b: Cells)
    requires IsSchema(cols) && |a| == |cols| && |b| == |cols|
    requires leading.Some? ==> leading.value !in NamesOf(cols)
    ensures a[0] == b[0] &&
            (forall j :: 0 <= j < |cols[1..]| && cols[1..][j].kind.Tag? && Some(cols[1..][j].name) != leading ==>
              a[1..][j] == b[1..][j])
            <==> SameTags(cols, a, b)
  {
    if a[0] == b[0] &&
       (forall j :: 0 <= j < |cols[1..]| && cols[1..][j].kind.Tag? && Some(cols[1..][j].name) != leading ==>
         a[1..][j] == b[1..][j])
    {
      forall k | 1 <= k < |cols| && cols[k].kind.Tag? ensures a[k] == b[k] {
        assert cols[k] in cols;
        assert cols[1..][k - 1] == cols[k] && a[1..][k - 1] == a[k] && b[1..][k - 1] == b[k];
      }
    }
  }

  lemma KeyIff(cols: seq<Column>, a: Cells, b: Cells)
    requires IsSchema(cols) && RowFits(cols, a) && RowFits(cols, b)
    ensures Read(cols, a).Key() == Read(cols, b).Key() <==> SameTags(cols, a, b)
  {
    GetAt(cols, a, 0);
    GetAt(cols, b, 0);
    assert CellFits(cols[0].kind, a[0]) && CellFits(cols[0].kind, b[0]);
    forall i | 1 <= i < |cols| ensures Get(cols, a, cols[i].name) == a[i] && Get(cols, b, cols[i].name) == b[i] {
      GetAt(cols, a, i);
      GetAt(cols, b, i);
    }
    if SameTags(cols, a, b) {
      forall n | n in TagNames(cols) ensures Get(cols, a, n) == Get(cols, b, n) {
        var i := TagIndex(cols, n);
      }
      assert Read(cols, a).tags == Read(cols, b).tags;
    } else if a[0] == b[0] {
      var i :| 1 <= i < |cols| && cols[i].kind.Tag? && a[i] != b[i];
      KeysDiffer(cols, a, b, i);
    }
  }

  lemma KeysDiffer(cols: seq<Column>, a: Cells, b: Cells, i: nat)
    requires RowFits(cols, a) && RowFits(cols, b) && 1 <= i < |cols| && cols[i].kind.Tag? && a[i] != b[i]
    requires Get(cols, a, cols[i].name) == a[i] && Get(cols, b, cols[i].name) == b[i]
    ensures Read(cols, a).tags != Read(cols, b).tags
  {
    var n, s, t := cols[i].name, Read(cols, a).tags, Read(cols, b).tags;
    assert CellFits(cols[i].kind, a[i]) && CellFits(cols[i].kind, b[i]);
    assert cols[i] in cols && n in TagNames(cols);
    assert n in s <==> a[i].Text?;
    assert n in t <==> b[i].Text?;
    assert a[i].Text? && b[i].Text? ==> s[n] != t[n];
  }
}
