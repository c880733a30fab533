/** One table of the engine: bodies of lines go into the buffer, flushes turn buffers into files,
 *  and the schema registry holds column types fixed from one buffer to the next. */
module Ingest {
  import opened Basics
  import opened Columns
  import opened LineProtocol
  import opened TableBuffer
  import opened Batches
  import opened Snapshot
  import LastWrite
  import Calendar
  import Flush
  import Merge
  import MergeTree

  // ----- the schema registry

  /** A column's type as the registry reports it to the buffer. */
  function Reported(k: Kind): DataType {
    match k
    case Time => OtherType
    case Tag => Dictionary(Utf8)
    case Field(n) => if n == 0 then Float64 else if n == 1 then Int64 else if n == 2 then Utf8 else if n == 3 then UInt64 else Bit
  }

  function ReportedTypes(reg: seq<Column>): Established {
    if reg == [] then map[] else ReportedTypes(Init(reg))[Last(reg).name := Reported(Last(reg).kind)]
  }

  /** `schema_union`, with nothing known at first. */
  function Register(reg: seq<Column>, cols: seq<Column>): Option<seq<Column>> {
    if reg == [] then Some(cols) else Union(reg + cols)
  }

  lemma RegisterIff(reg: seq<Column>, cols: seq<Column>)
    ensures Register(reg, cols).Some? <==> reg == [] || NoClash(reg + cols)
  {
    UnionIff(reg + cols);
  }

  lemma {:induction false} ReportedIs(reg: seq<Column>, c: Column)
    requires NoClash(reg) && c in reg
    ensures c.name in ReportedTypes(reg) && ReportedTypes(reg)[c.name] == Reported(c.kind)
  {
    var d := Last(reg);
    assert d in reg;
    if d.name == c.name {
      assert !Clash(c, d);
    } else {
      InitLast(reg);
      ReportedIs(Init(reg), c);
    }
  }

  // ----- column types never drift

  predicate IsFieldKind(k: Kind) { k.Field? && k.ty <= 4 }

  /** Buffer columns have the types the registry has for them. */
  ghost predicate TypesAgree(reg: seq<Column>, types: Types) {
    forall c :: c in reg && c.kind.Field? && c.name in types ==> c.kind == KindFor(types[c.name])
  }

  lemma Adopted(reg: seq<Column>, c: Column, v: FieldValue)
    requires NoClash(reg) && c in reg && IsFieldKind(c.kind)
    ensures KindFor(Created(ReportedTypes(reg), c.name, v)) == c.kind
  {
    ReportedIs(reg, c);
  }

  /** What a line makes a buffer learn agrees with the registry it was shown. */
  lemma {:induction false} LearnAgrees(reg: seq<Column>, types: Types, fields: Fields)
    requires NoClash(reg) && TypesAgree(reg, types) && forall c :: c in reg && c.kind.Field? ==> IsFieldKind(c.kind)
    ensures var learned := TableBuffer.Learn(types, ReportedTypes(reg), fields);
            learned.Some? ==> TypesAgree(reg, learned.value) && learned.value.Keys == types.Keys + LastMap(fields).Keys
  {
    if fields != [] {
      LearnAgrees(reg, types, Init(fields));
      var before := TableBuffer.Learn(types, ReportedTypes(reg), Init(fields));
      var (k, v) := Last(fields);
      if before.Some? && k !in before.value {
        forall c | c in reg && c.kind.Field? && c.name == k ensures c.kind == KindFor(Created(ReportedTypes(reg), k, v)) {
          Adopted(reg, c, v);
        }
      }
    }
  }

  // ----- keys in use

  predicate Used(tagKeys: set<string>, fieldKeys: set<string>, c: Column) {
    c == TIME || (c.kind.Tag? && c.name in tagKeys) || (IsFieldKind(c.kind) && c.name in fieldKeys)
  }

  predicate AllUsed(tagKeys: set<string>, fieldKeys: set<string>, cols: seq<Column>) {
    forall c :: c in cols ==> Used(tagKeys, fieldKeys, c)
  }

  /** A buffer's columns, whatever their order. */
  ghost predicate HasColumns(cols: seq<Column>, tagKeys: set<string>, types: Types) {
    forall c :: c in cols <==> c == TIME || (c.kind.Tag? && c.name in tagKeys) || (c.name in types && c.kind == KindFor(types[c.name]))
  }

  /** With keys apart, a buffer's columns never clash with a registry its types agree with. */
  lemma NeverClashes(reg: seq<Column>, cols: seq<Column>, tagKeys: set<string>, fieldKeys: set<string>, tags: set<string>, types: Types)
    requires Apart(tagKeys, fieldKeys) && AllUsed(tagKeys, fieldKeys, reg) && NoClash(reg) && TypesAgree(reg, types)
    requires HasColumns(cols, tags, types) && tags <= tagKeys && types.Keys <= fieldKeys
    ensures NoClash(reg + cols) && AllUsed(tagKeys, fieldKeys, reg + cols)
  {
    forall c | c in cols ensures Used(tagKeys, fieldKeys, c) {
      assert c.name in types && c.kind == KindFor(types[c.name]) ==> IsFieldKind(c.kind);
    }
    forall c, d | c in reg + cols && d in reg + cols ensures !Clash(c, d) {
      if c.name == d.name {
        assert Used(tagKeys, fieldKeys, c) && Used(tagKeys, fieldKeys, d);
        assert c in reg && d in reg ==> !Clash(c, d);
      }
    }
  }

  lemma Registered(reg: seq<Column>, cols: seq<Column>)
    requires NoClash(reg + cols)
    ensures Register(reg, cols).Some? && forall c :: c in Register(reg, cols).value <==> c in reg + cols
    ensures NoClash(Register(reg, cols).value)
  {
    UnionIff(reg + cols);
    var out := Register(reg, cols).value;
    forall c, d | c in out && d in out ensures !Clash(c, d) { assert c in reg + cols && d in reg + cols; }
  }

  // ----- keys that change sides

  /** A buffer whose types agree with the registry can be registered, and so flushed, exactly when
   *  no key is a tag in one and a field in the other. */
  lemma RegistersIff(reg: seq<Column>, cols: seq<Column>, tags: set<string>, types: Types)
    requires NoClash(reg) && AllUsed(TagNames(reg), FieldNames(reg), reg) && TypesAgree(reg, types) && HasColumns(cols, tags, types)
    ensures NoClash(reg + cols) <==> Apart(TagNames(reg) + tags, FieldNames(reg) + types.Keys)
  {
    var tagKeys, fieldKeys, all := TagNames(reg) + tags, FieldNames(reg) + types.Keys, reg + cols;
    if Apart(tagKeys, fieldKeys) {
      NeverClashes(reg, cols, tagKeys, fieldKeys, tags, types);
    } else {
      forall k | k in tagKeys ensures exists c :: c in all && c.name == k && c.kind.Tag? {
        if k in tags { assert Column(k, Tag) in cols && Column(k, Tag) in all; }
      }
      forall k | k in fieldKeys ensures exists c :: c in all && c.name == k && c.kind.Field? {
        if k in types { assert Column(k, KindFor(types[k])) in cols && Column(k, KindFor(types[k])) in all; }
      }
      assert TIME in all;
      var k :| (k in tagKeys && k in fieldKeys) || (k == "time" && k in tagKeys + fieldKeys);
    }
  }

  /** A value for a key that the files carry as a tag is accepted exactly when it is text; the
   *  buffer that holds it can then never be registered, and so never flushed. */
  lemma TagKeyAsField(reg: seq<Column>, types: Types, k: string, v: FieldValue, tags: set<string>, cols: seq<Column>)
    requires NoClash(reg) && Column(k, Tag) in reg && k !in types
    ensures var learned := TableBuffer.Learn(types, ReportedTypes(reg), [(k, v)]);
            && (learned.Some? <==> v.Str?)
            && (learned.Some? && HasColumns(cols, tags, learned.value) ==> Register(reg, cols).None?)
  {
    ReportedIs(reg, Column(k, Tag));
    var row := [(k, v)];
    assert Init(row) == [] && Last(row) == (k, v);
    var learned := TableBuffer.Learn(types, ReportedTypes(reg), row);
    if learned.Some? && HasColumns(cols, tags, learned.value) {
      var c, d := Column(k, Tag), Column(k, KindFor(learned.value[k]));
      assert d in cols && Clash(c, d) && c in reg + cols && d in reg + cols;
      RegisterIff(reg, cols);
    }
  }

  // ----- writes that overlap a flush

  /** Two buffers give no key two types. */
  predicate Agree(types: Types, more: Types) { forall k :: k in types && k in more ==> types[k] == more[k] }

  /** Once a buffer is registered, another's types agree with the registry exactly when they agree
   *  with the buffer's. */
  lemma AgreeIff(reg: seq<Column>, first: seq<Column>, reg1: seq<Column>, tags: set<string>, types: Types, more: Types)
    requires HasColumns(first, tags, types) && TypesAgree(reg, more) && forall c :: c in reg1 <==> c in reg + first
    ensures TypesAgree(reg1, more) <==> Agree(types, more)
  {
    if TypesAgree(reg1, more) {
      forall k | k in types && k in more ensures types[k] == more[k] {
        var c := Column(k, KindFor(types[k]));
        assert c in first && c in reg + first && c in reg1;
      }
    }
    if Agree(types, more) {
      forall c | c in reg1 && c.kind.Field? && c.name in more ensures c.kind == KindFor(more[c.name]) {
        assert c in reg + first;
      }
    }
  }

  lemma NamesAfter(reg: seq<Column>, first: seq<Column>, reg1: seq<Column>, tags: set<string>, types: Types)
    requires HasColumns(first, tags, types) && AllUsed(TagNames(reg), FieldNames(reg), reg) && forall c :: c in reg1 <==> c in reg + first
    ensures TagNames(reg1) == TagNames(reg) + tags && FieldNames(reg1) == FieldNames(reg) + types.Keys
    ensures AllUsed(TagNames(reg1), FieldNames(reg1), reg1)
  {
    forall k | k in tags ensures k in TagNames(reg1) { assert Column(k, Tag) in first && Column(k, Tag) in reg + first; }
    forall k | k in types ensures k in FieldNames(reg1) {
      var c := Column(k, KindFor(types[k]));
      assert c in first && c in reg + first;
    }
    forall c | c in reg ensures c in reg1 { assert c in reg + first; }
    forall c | c in reg1 ensures Used(TagNames(reg1), FieldNames(reg1), c) { assert c in reg + first; }
  }

  /** A buffer is swapped out before its columns are registered, and writes in between still see the
   *  old registry.  Their buffer can be registered after the first exactly when the two give no
   *  key two types and no key is a tag on one side and a field on another. */
  lemma OverlappedWritesIff(reg: seq<Column>, first: seq<Column>, tags1: set<string>, types1: Types,
                            second: seq<Column>, tags2: set<string>, types2: Types)
    requires NoClash(reg + first) && AllUsed(TagNames(reg), FieldNames(reg), reg) && TypesAgree(reg, types2)
    requires HasColumns(first, tags1, types1) && HasColumns(second, tags2, types2)
    ensures Register(reg, first).Some?
    ensures Register(Register(reg, first).value, second).Some? <==>
            Agree(types1, types2) && Apart(TagNames(reg) + tags1 + tags2, FieldNames(reg) + types1.Keys + types2.Keys)
  {
    Registered(reg, first);
    var reg1 := Register(reg, first).value;
    NamesAfter(reg, first, reg1, tags1, types1);
    AgreeIff(reg, first, reg1, tags1, types1, types2);
    assert TIME in first && TIME in reg + first && TIME in reg1;
    RegistrableIff(reg1, second, tags2, types2);
  }

  lemma RegistrableIff(reg: seq<Column>, cols: seq<Column>, tags: set<string>, types: Types)
    requires reg != [] && NoClash(reg) && AllUsed(TagNames(reg), FieldNames(reg), reg) && HasColumns(cols, tags, types)
    ensures Register(reg, cols).Some? <==> TypesAgree(reg, types) && Apart(TagNames(reg) + tags, FieldNames(reg) + types.Keys)
  {
    RegisterIff(reg, cols);
    if TypesAgree(reg, types) {
      RegistersIff(reg, cols, tags, types);
    } else {
      var c :| c in reg && c.kind.Field? && c.name in types && c.kind != KindFor(types[c.name]);
      var d := Column(c.name, KindFor(types[c.name]));
      assert d in cols && c in reg + cols && d in reg + cols && Clash(c, d);
    }
  }

  // ----- rows keep their reading as the buffer learns more columns

  predicate Extends(types: Types, more: Types) { forall k :: k in types ==> k in more && more[k] == types[k] }

  lemma {:induction false} StoredStays(asFloat: int -> string, types: Types, more: Types, fields: Fields)
    requires Extends(types, more) && LastMap(fields).Keys <= types.Keys
    ensures StoredRow(asFloat, more, fields) == StoredRow(asFloat, types, fields)
  {
    if fields != [] { StoredStays(asFloat, types, more, Init(fields)); }
  }

  function LineRows(asFloat: int -> string, types: Types, lines: seq<Line>): seq<TableBuffer.Row> {
    seq(|lines|, i requires 0 <= i < |lines| => LineRow(asFloat, types, lines[i]))
  }

  ghost predicate AllKnown(types: Types, lines: seq<Line>) {
    forall i :: 0 <= i < |lines| ==> LastMap(lines[i].fields).Keys <= types.Keys
  }

  lemma LineRowsMore(asFloat: int -> string, types: Types, more: Types, lines: seq<Line>, line: Line)
    requires AllKnown(types, lines) && Extends(types, more)
    ensures LineRows(asFloat, types, lines) + [LineRow(asFloat, more, line)] == LineRows(asFloat, more, lines + [line])
  {
    forall i | 0 <= i < |lines| ensures LineRow(asFloat, types, lines[i]) == LineRow(asFloat, more, lines[i]) {
      StoredStays(asFloat, types, more, lines[i].fields);
    }
  }

  function TagKeysOf(lines: seq<Line>): set<string> {
    if lines == [] then {} else TagKeysOf(Init(lines)) + LastMap(Last(lines).tags).Keys
  }

  function FieldKeysOf(lines: seq<Line>): set<string> {
    if lines == [] then {} else FieldKeysOf(Init(lines)) + LastMap(Last(lines).fields).Keys
  }

  lemma KeysMore(lines: seq<Line>, line: Line)
    ensures TagKeysOf(lines + [line]) == TagKeysOf(lines) + LastMap(line.tags).Keys
    ensures FieldKeysOf(lines + [line]) == FieldKeysOf(lines) + LastMap(line.fields).Keys
  {
    assert Init(lines + [line]) == lines;
  }

  /** The lines of one table. */
  function Own(name: string, lines: seq<Line>): seq<Line> { Filter(lines, (l: Line) => l.table == name) }

  lemma OwnMore(name: string, lines: seq<Line>, k: nat)
    requires k < |lines|
    ensures lines[k].table == name ==> Own(name, lines[..k + 1]) == Own(name, lines[..k]) + [lines[k]]
    ensures lines[k].table != name ==> Own(name, lines[..k + 1]) == Own(name, lines[..k])
  {
    var own := (l: Line) => l.table == name;
    TakeSnoc(lines, k);
    FilterAppend(lines[..k], [lines[k]], own);
    assert Filter([lines[k]], own) == if own(lines[k]) then [lines[k]] else [];
  }

  // ----- one table

  function Encoding(code: string -> int): TableBuffer.Row -> LastWrite.Row<Cell> { (r: TableBuffer.Row) => EncodeRow(code, r) }

  /** What holds of a table whose keys are apart. */
  ghost predicate Steady(code: string -> int, reg: seq<Column>, types: Types, tagKeys: set<string>, fieldKeys: set<string>,
                         files: seq<Batch>, written: seq<TableBuffer.Row>) {
    && NoClash(reg) && AllUsed(tagKeys, fieldKeys, reg) && TypesAgree(reg, types)
    && AllBatches(files) && (forall b, c :: b in files && c in b.cols ==> c in reg)
    && Merge.History(files) == Map(written, Encoding(code))
  }

  /** Files whose types were all registered compact, in any bracketing, to the last write per key
   *  of everything written. */
  lemma SteadyCompacts(code: string -> int, reg: seq<Column>, types: Types, tagKeys: set<string>, fieldKeys: set<string>,
                       files: seq<Batch>, written: seq<TableBuffer.Row>, h: string, t: MergeTree.Tree)
    requires Steady(code, reg, types, tagKeys, fieldKeys, files, written)
    requires MergeTree.Proper(t) && MergeTree.Leaves(t) == MergeTree.Flushed(files, h)
    ensures MergeTree.Run(t).Some? && MergeTree.Deduped(MergeTree.Run(t).value)
    ensures Merge.TableOf([MergeTree.Run(t).value]) ==
            LastWrite.AtHour(Flush.HourText(), LastWrite.LastWins(Encoding(code), written), h)
  {
    var cs := ColumnsOf(MergeTree.Flushed(files, h));
    forall c, d | c in cs && d in cs ensures !Clash(c, d) {
      FlushedColumns(files, h, c);
      FlushedColumns(files, h, d);
    }
    MergeTree.FlushAndCompact(files, h, t);
    LastWrite.LastWinsOfMap(Encoding(code), Merge.Same(), Encoding(code), written);
  }

  lemma {:induction false} FlushedColumns(files: seq<Batch>, h: string, c: Column)
    requires c in ColumnsOf(MergeTree.Flushed(files, h))
    ensures exists b :: b in files && c in b.cols
  {
    if files != [] {
      var before, last := MergeTree.Flushed(Init(files), h), MergeTree.FlushedPart(Last(files), h);
      MergeTree.ColumnsAppend(before, last);
      if c in ColumnsOf(before) {
        FlushedColumns(Init(files), h, c);
        var b :| b in Init(files) && c in b.cols;
        assert b in files;
      } else {
        ColumnsOfMembers(last, c);
        assert Last(files) in files;
      }
    }
  }

  lemma SteadyLearns(code: string -> int, reg: seq<Column>, types: Types, tagKeys: set<string>, fieldKeys: set<string>,
                     files: seq<Batch>, written: seq<TableBuffer.Row>, fields: Fields, tagKeys': set<string>, fieldKeys': set<string>)
    requires Steady(code, reg, types, tagKeys, fieldKeys, files, written)
    requires TableBuffer.Learn(types, ReportedTypes(reg), fields).Some? && tagKeys <= tagKeys' && fieldKeys <= fieldKeys'
    ensures Steady(code, reg, TableBuffer.Learn(types, ReportedTypes(reg), fields).value, tagKeys', fieldKeys', files, written)
  {
    LearnAgrees(reg, types, fields);
  }

  lemma SteadyRegisters(code: string -> int, reg: seq<Column>, types: Types, tagKeys: set<string>, fieldKeys: set<string>,
                        files: seq<Batch>, written: seq<TableBuffer.Row>, cols: seq<Column>, tags: set<string>)
    requires Apart(tagKeys, fieldKeys) && Steady(code, reg, types, tagKeys, fieldKeys, files, written)
    requires HasColumns(cols, tags, types) && tags <= tagKeys && types.Keys <= fieldKeys
    ensures Register(reg, cols).Some? && Steady(code, Register(reg, cols).value, types, tagKeys, fieldKeys, files, written)
    ensures forall c :: c in cols ==> c in Register(reg, cols).value
  {
    NeverClashes(reg, cols, tagKeys, fieldKeys, tags, types);
    Registered(reg, cols);
  }

  lemma SteadyFlushes(code: string -> int, reg: seq<Column>, types: Types, tagKeys: set<string>, fieldKeys: set<string>,
                      files: seq<Batch>, written: seq<TableBuffer.Row>, batch: Batch, rows: seq<TableBuffer.Row>)
    requires Steady(code, reg, types, tagKeys, fieldKeys, files, written)
    requires IsBatch(batch) && Merge.RowsOf(batch) == Map(rows, Encoding(code)) && forall c :: c in batch.cols ==> c in reg
    ensures Steady(code, reg, map[], tagKeys, fieldKeys, files + [batch], written + rows)
  {
    HistoryMore(files, batch);
    Merge.MapAppend(written, rows, Encoding(code));
  }

  lemma HistoryMore(files: seq<Batch>, batch: Batch)
    ensures Merge.History(files + [batch]) == Merge.History(files) + Merge.RowsOf(batch)
  {
    assert Init(files + [batch]) == files;
  }

  lemma SnapshotColumns(tagNames: seq<string>, fieldNames: seq<string>, types: Types, tagKeys: set<string>)
    requires Lists(tagNames, tagKeys) && Lists(fieldNames, types.Keys)
    ensures HasColumns(Cols(tagNames, fieldNames, types), tagKeys, types)
  {
    var cols := Cols(tagNames, fieldNames, types);
    ColsAt(tagNames, fieldNames, types);
    forall c | c in cols
      ensures c == TIME || (c.kind.Tag? && c.name in tagKeys) || (c.name in types && c.kind == KindFor(types[c.name]))
    {
      var i :| 0 <= i < |cols| && cols[i] == c;
      ColumnAt(tagNames, fieldNames, types, i);
    }
    forall c: Column | c.kind.Tag? && c.name in tagKeys ensures c in cols {
      var j :| 0 <= j < |tagNames| && tagNames[j] == c.name;
      assert cols[1 + j] == c;
    }
    forall c: Column | c.name in types && c.kind == KindFor(types[c.name]) ensures c in cols {
      var j :| 0 <= j < |fieldNames| && fieldNames[j] == c.name;
      assert cols[1 + |tagNames| + j] == c;
    }
    assert cols[0] == TIME;
  }

  lemma ColumnAt(tagNames: seq<string>, fieldNames: seq<string>, types: Types, i: nat)
    requires i < 1 + |tagNames| + |fieldNames| && forall n :: n in fieldNames ==> n in types
    ensures var c := Cols(tagNames, fieldNames, types)[i];
            c == TIME || (c.kind.Tag? && c.name in tagNames) || (c.name in types && c.kind == KindFor(types[c.name]))
  {
    ColsAt(tagNames, fieldNames, types);
    var cols, t := Cols(tagNames, fieldNames, types), |tagNames|;
    if 0 < i <= t { assert cols[1 + (i - 1)] == Column(tagNames[i - 1], Tag); }
    if t < i { assert cols[1 + t + (i - 1 - t)] == ColumnFor(fieldNames[i - 1 - t], types); }
  }

  ghost predicate AllI64(times: seq<int>) { forall i :: 0 <= i < |times| ==> Calendar.IsI64(times[i]) }

  lemma SteadyAtFirst(code: string -> int)
    ensures Steady(code, [], map[], {}, {}, [], [])
  {
  }

  // ----- a buffer between its swap and its registration

  /** What a swapped-out buffer held. */
  datatype Part = Part(tags: set<string>, types: Types, rows: seq<TableBuffer.Row>)

  ghost predicate SealedOk(sealed: Option<Batch>, part: Part, tagKeys: set<string>, fieldKeys: set<string>) {
    sealed.Some? ==> HasColumns(sealed.value.cols, part.tags, part.types) && part.tags <= tagKeys && part.types.Keys <= fieldKeys
  }

  /** Nothing stands in the way: keys are apart, and no write that overlapped a flush has given one
   *  of its columns another type. */
  ghost predicate Undisturbed(tagKeys: set<string>, fieldKeys: set<string>, agreed: bool, sealed: Option<Batch>, part: Part, types: Types) {
    Apart(tagKeys, fieldKeys) && agreed && (sealed.Some? ==> Agree(part.types, types))
  }

  ghost predicate SealedSteady(code: string -> int, reg: seq<Column>, sealed: Option<Batch>, part: Part) {
    sealed.Some? ==> IsBatch(sealed.value) && Merge.RowsOf(sealed.value) == Map(part.rows, Encoding(code)) && TypesAgree(reg, part.types)
  }

  lemma SteadyTypes(code: string -> int, reg: seq<Column>, types: Types, more: Types, tagKeys: set<string>, fieldKeys: set<string>,
                    files: seq<Batch>, written: seq<TableBuffer.Row>)
    requires Steady(code, reg, types, tagKeys, fieldKeys, files, written) && TypesAgree(reg, more)
    ensures Steady(code, reg, more, tagKeys, fieldKeys, files, written)
  {
  }

  /** What a table knows survives one more line. */
  lemma LearnsOn(code: string -> int, reg: seq<Column>, types: Types, more: Types, tagKeys: set<string>, fieldKeys: set<string>,
                 tagKeys': set<string>, fieldKeys': set<string>, files: seq<Batch>, written: seq<TableBuffer.Row>,
                 agreed: bool, sealed: Option<Batch>, part: Part, fields: Fields)
    requires TableBuffer.Learn(types, ReportedTypes(reg), fields) == Some(more) && tagKeys <= tagKeys' && fieldKeys <= fieldKeys'
    requires SealedOk(sealed, part, tagKeys, fieldKeys)
    requires Undisturbed(tagKeys, fieldKeys, agreed, sealed, part, types) ==>
               Steady(code, reg, types, tagKeys, fieldKeys, files, written) && SealedSteady(code, reg, sealed, part)
    ensures Extends(types, more) && more.Keys == types.Keys + LastMap(fields).Keys && SealedOk(sealed, part, tagKeys', fieldKeys')
    ensures Undisturbed(tagKeys', fieldKeys', agreed, sealed, part, more) ==>
              Steady(code, reg, more, tagKeys', fieldKeys', files, written) && SealedSteady(code, reg, sealed, part)
  {
    LearnKeys(types, ReportedTypes(reg), fields);
    if Undisturbed(tagKeys', fieldKeys', agreed, sealed, part, more) {
      SteadyLearns(code, reg, types, tagKeys, fieldKeys, files, written, fields, tagKeys', fieldKeys');
    }
  }

  /** Upkeep of the buffer keeps a waiting buffer registrable. */
  lemma UpkeepKeeps(code: string -> int, reg: seq<Column>, types: Types, tagKeys: set<string>, fieldKeys: set<string>, files: seq<Batch>,
                    written: seq<TableBuffer.Row>, cols: seq<Column>, tags: set<string>, sealed: Option<Batch>, part: Part)
    requires Apart(tagKeys, fieldKeys) && Steady(code, reg, types, tagKeys, fieldKeys, files, written) && SealedSteady(code, reg, sealed, part)
    requires HasColumns(cols, tags, types) && tags <= tagKeys && types.Keys <= fieldKeys && (sealed.Some? ==> Agree(part.types, types))
    ensures Register(reg, cols).Some? && Steady(code, Register(reg, cols).value, types, tagKeys, fieldKeys, files, written)
    ensures SealedSteady(code, Register(reg, cols).value, sealed, part)
  {
    SteadyRegisters(code, reg, types, tagKeys, fieldKeys, files, written, cols, tags);
    NeverClashes(reg, cols, tagKeys, fieldKeys, tags, types);
    Registered(reg, cols);
    if sealed.Some? { AgreeIff(reg, cols, Register(reg, cols).value, tags, types, part.types); }
  }

  /** Registering a waiting buffer makes it a file. */
  lemma FinishKeeps(code: string -> int, reg: seq<Column>, types: Types, tagKeys: set<string>, fieldKeys: set<string>, files: seq<Batch>,
                    written: seq<TableBuffer.Row>, batch: Batch, part: Part)
    requires Apart(tagKeys, fieldKeys) && Steady(code, reg, types, tagKeys, fieldKeys, files, written)
    requires SealedSteady(code, reg, Some(batch), part) && SealedOk(Some(batch), part, tagKeys, fieldKeys)
    ensures Register(reg, batch.cols).Some?
    ensures Agree(part.types, types) ==>
              Steady(code, Register(reg, batch.cols).value, types, tagKeys, fieldKeys, files + [batch], written + part.rows)
  {
    SteadyTypes(code, reg, types, part.types, tagKeys, fieldKeys, files, written);
    SteadyRegisters(code, reg, part.types, tagKeys, fieldKeys, files, written, batch.cols, part.tags);
    NeverClashes(reg, batch.cols, tagKeys, fieldKeys, part.tags, part.types);
    Registered(reg, batch.cols);
    var reg1 := Register(reg, batch.cols).value;
    SteadyFlushes(code, reg1, part.types, tagKeys, fieldKeys, files, written, batch, part.rows);
    AgreeIff(reg, batch.cols, reg1, part.tags, part.types, types);
    if Agree(part.types, types) { SteadyTypes(code, reg1, map[], types, tagKeys, fieldKeys, files + [batch], written + part.rows); }
  }

  /** What other tables do with the same body: the first line one of them rejects, and whether the
   *  registry upkeep gets to this table. */
  datatype Others = Others(stop: nat, reached: bool)

  class Table {
    const name: string
    const asFloat: int -> string
    const code: string -> int
    var buffer: Buffer
    var registry: seq<Column>
    var files: seq<Batch>
    var sealed: Option<Batch>
    var flushing: Option<Batch>
    ghost var tagKeys: set<string>
    ghost var fieldKeys: set<string>
    ghost var written: seq<TableBuffer.Row>
    ghost var part: Part
    ghost var agreed: bool

    ghost predicate Calm()
      reads this, buffer
    {
      Undisturbed(tagKeys, fieldKeys, agreed, sealed, part, TypesOf(buffer.fields))
    }

    /** `tagKeys` and `fieldKeys` are what accepted lines have used; `written` is what was flushed;
     *  `part` is what the sealed buffer held. */
    ghost predicate Valid()
      reads this, buffer
    {
      && buffer.Valid() && buffer.asFloat == asFloat && AllI64(buffer.times)
      && buffer.tags.Keys <= tagKeys && buffer.fields.Keys <= fieldKeys && SealedOk(sealed, part, tagKeys, fieldKeys)
      && (Calm() ==> Steady(code, registry, TypesOf(buffer.fields), tagKeys, fieldKeys, files, written) &&
                     SealedSteady(code, registry, sealed, part))
    }

    constructor (name: string, asFloat: int -> string, code: string -> int)
      ensures Valid() && Calm() && fresh(buffer) && buffer.Rows() == [] && registry == [] && files == [] && written == []
      ensures tagKeys == {} && fieldKeys == {} && sealed == None
    {
      this.name, this.asFloat, this.code := name, asFloat, code;
      buffer := new Buffer(asFloat);
      registry, files, sealed, flushing, tagKeys, fieldKeys, written := [], [], None, None, {}, {}, [];
      part, agreed := Part({}, map[], []), true;
      SteadyAtFirst(code);
      new;
      assert TypesOf(buffer.fields) == map[];
    }

    /** The buffer's answer to one line. */
    method TakeLine(line: Line) returns (ok: bool)
      requires buffer.Valid() && buffer.asFloat == asFloat
      modifies buffer
      ensures buffer.Valid() && (!ok ==> unchanged(buffer))
      ensures ok <==> TableBuffer.Learn(old(TypesOf(buffer.fields)), ReportedTypes(registry), line.fields).Some?
      ensures ok ==> TypesOf(buffer.fields) == TableBuffer.Learn(old(TypesOf(buffer.fields)), ReportedTypes(registry), line.fields).value
      ensures ok ==> buffer.Rows() == old(buffer.Rows()) + [LineRow(asFloat, TypesOf(buffer.fields), line)]
      ensures ok ==> buffer.tags.Keys == old(buffer.tags.Keys) + LastMap(line.tags).Keys && buffer.times == old(buffer.times) + [line.timestamp]
    {
      ok := buffer.Append(line, ReportedTypes(registry));
    }

    /** One line, as the registry stands. */
    method AppendOne(line: Line) returns (ok: bool)
      requires Valid() && Calendar.IsI64(line.timestamp)
      modifies this`tagKeys, this`fieldKeys, buffer
      ensures Valid() && buffer == old(buffer)
      ensures ok <==> TableBuffer.Learn(old(TypesOf(buffer.fields)), ReportedTypes(registry), line.fields).Some?
      ensures !ok ==> buffer.Rows() == old(buffer.Rows()) && TypesOf(buffer.fields) == old(TypesOf(buffer.fields))
      ensures ok ==> buffer.Rows() == old(buffer.Rows()) + [LineRow(asFloat, TypesOf(buffer.fields), line)]
      ensures ok ==> LastMap(line.fields).Keys <= TypesOf(buffer.fields).Keys
      ensures Extends(old(TypesOf(buffer.fields)), TypesOf(buffer.fields))
      ensures tagKeys == old(tagKeys) + (if ok then LastMap(line.tags).Keys else {})
      ensures fieldKeys == old(fieldKeys) + (if ok then LastMap(line.fields).Keys else {})
    {
      ghost var types := TypesOf(buffer.fields);
      ok := TakeLine(line);
      if ok {
        tagKeys, fieldKeys := tagKeys + LastMap(line.tags).Keys, fieldKeys + LastMap(line.fields).Keys;
        LearnsOn(code, registry, types, TypesOf(buffer.fields), old(tagKeys), old(fieldKeys), tagKeys, fieldKeys, files, written,
                 agreed, sealed, part, line.fields);
      }
    }

    /** One more line after `own`. */
    method AppendOwn(line: Line, ghost own: seq<Line>, ghost rows0: seq<TableBuffer.Row>, ghost tags0: set<string>, ghost fields0: set<string>)
      returns (ok: bool)
      requires Valid() && Calendar.IsI64(line.timestamp) && AllKnown(TypesOf(buffer.fields), own)
      requires buffer.Rows() == rows0 + LineRows(asFloat, TypesOf(buffer.fields), own)
      requires tagKeys == tags0 + TagKeysOf(own) && fieldKeys == fields0 + FieldKeysOf(own)
      modifies this`tagKeys, this`fieldKeys, buffer
      ensures Valid() && buffer == old(buffer)
      ensures !ok ==> TableBuffer.Learn(TypesOf(buffer.fields), ReportedTypes(registry), line.fields).None?
      ensures var done := if ok then own + [line] else own;
              && AllKnown(TypesOf(buffer.fields), done) && buffer.Rows() == rows0 + LineRows(asFloat, TypesOf(buffer.fields), done)
              && tagKeys == tags0 + TagKeysOf(done) && fieldKeys == fields0 + FieldKeysOf(done)
    {
      ghost var types, rows := TypesOf(buffer.fields), buffer.Rows();
      ok := AppendOne(line);
      if ok {
        OneMore(asFloat, types, TypesOf(buffer.fields), own, line, rows0, rows, buffer.Rows());
        KeysMore(own, line);
      }
    }

    /** This table's lines in order, up to the first line that it or another table rejects; those
     *  before it stay. */
    method AppendAll(lines: seq<Line>, stop: nat) returns (k: nat)
      requires Valid() && forall i :: 0 <= i < |lines| ==> Calendar.IsI64(lines[i].timestamp)
      modifies this`tagKeys, this`fieldKeys, buffer
      ensures Valid() && buffer == old(buffer) && k <= |lines|
      ensures buffer.Rows() == old(buffer.Rows()) + LineRows(asFloat, TypesOf(buffer.fields), Own(name, lines[..k]))
      ensures k < |lines| && k != stop ==>
                lines[k].table == name && TableBuffer.Learn(TypesOf(buffer.fields), ReportedTypes(registry), lines[k].fields).None?
      ensures tagKeys == old(tagKeys) + TagKeysOf(Own(name, lines[..k])) && fieldKeys == old(fieldKeys) + FieldKeysOf(Own(name, lines[..k]))
    {
      k := 0;
      assert Own(name, lines[..0]) == [] && LineRows(asFloat, TypesOf(buffer.fields), []) == [];
      while k < |lines| && k != stop
        invariant Valid() && buffer == old(buffer) && k <= |lines|
        invariant AllKnown(TypesOf(buffer.fields), Own(name, lines[..k]))
        invariant buffer.Rows() == old(buffer.Rows()) + LineRows(asFloat, TypesOf(buffer.fields), Own(name, lines[..k]))
        invariant tagKeys == old(tagKeys) + TagKeysOf(Own(name, lines[..k])) && fieldKeys == old(fieldKeys) + FieldKeysOf(Own(name, lines[..k]))
      {
        OwnMore(name, lines, k);
        if lines[k].table == name {
          var ok := AppendOwn(lines[k], Own(name, lines[..k]), old(buffer.Rows()), old(tagKeys), old(fieldKeys));
          if !ok { return; }
        }
        k := k + 1;
      }
    }

    /** Registry upkeep after a write, when the buffer has more columns than the registry. */
    method Upkeep() returns (ok: bool)
      requires Valid()
      modifies this`registry
      ensures Valid() && (Calm() ==> ok)
    {
      var cols := Cols(buffer.tagNames, buffer.fieldNames, TypesOf(buffer.fields));
      if |cols| <= |registry| { return true; }
      SnapshotColumns(buffer.tagNames, buffer.fieldNames, TypesOf(buffer.fields), buffer.tags.Keys);
      ghost var calm := Calm();
      if calm {
        UpkeepKeeps(code, registry, TypesOf(buffer.fields), tagKeys, fieldKeys, files, written, cols, buffer.tags.Keys, sealed, part);
      }
      var r := Register(registry, cols);
      if r.None? { return false; }
      registry := r.value;
      ok := true;
    }

    /** `apply`, for this table's part of a body: its rows among the first k lines are in the buffer
     *  afterwards, and line k is the first that this table or another rejects. */
    method Apply(lines: seq<Line>, others: Others) returns (ok: bool, k: nat)
      requires Valid() && forall i :: 0 <= i < |lines| ==> Calendar.IsI64(lines[i].timestamp)
      modifies this, buffer
      ensures Valid() && buffer == old(buffer) && k <= |lines| && (ok ==> k == |lines|)
      ensures buffer.Rows() == old(buffer.Rows()) + LineRows(asFloat, TypesOf(buffer.fields), Own(name, lines[..k]))
      ensures k < |lines| && k != others.stop ==>
                lines[k].table == name && TableBuffer.Learn(TypesOf(buffer.fields), ReportedTypes(registry), lines[k].fields).None?
      ensures tagKeys == old(tagKeys) + TagKeysOf(Own(name, lines[..k])) && fieldKeys == old(fieldKeys) + FieldKeysOf(Own(name, lines[..k]))
      ensures files == old(files) && written == old(written) && flushing == old(flushing)
      ensures sealed == old(sealed) && part == old(part) && agreed == old(agreed)
      ensures Calm() ==> (ok <==> k == |lines| && others.reached)
    {
      k := AppendAll(lines, others.stop);
      if k < |lines| || !others.reached { return false, k; }
      ok := true;
      if Own(name, lines) != [] { ok := Upkeep(); }
    }

    /** `flush_all`, first half: the buffer is swapped out, under the ingest gate. */
    method Swap()
      requires Valid() && sealed.None? && buffer.times != []
      modifies this`buffer, this`sealed, this`flushing, this`part
      ensures Valid() && fresh(buffer) && buffer.Rows() == [] && sealed.Some? && flushing == sealed
      ensures part == Part(old(buffer.tags.Keys), old(TypesOf(buffer.fields)), old(buffer.Rows()))
      ensures sealed.value.cols == old(Cols(buffer.tagNames, buffer.fieldNames, TypesOf(buffer.fields)))
      ensures Calm() <==> old(Calm())
    {
      var batch := SealBatch();
      part := Part(buffer.tags.Keys, TypesOf(buffer.fields), buffer.Rows());
      buffer := new Buffer(asFloat);
      assert TypesOf(buffer.fields) == map[];
      sealed, flushing := Some(batch), Some(batch);
    }

    /** The snapshot to be written. */
    method SealBatch() returns (batch: Batch)
      requires Valid()
      ensures batch.cols == Cols(buffer.tagNames, buffer.fieldNames, TypesOf(buffer.fields))
      ensures HasColumns(batch.cols, buffer.tags.Keys, TypesOf(buffer.fields))
      ensures Calm() ==> SealedSteady(code, registry, Some(batch), Part(buffer.tags.Keys, TypesOf(buffer.fields), buffer.Rows()))
      ensures Calm() ==> Steady(code, registry, map[], tagKeys, fieldKeys, files, written)
    {
      batch := TakeSnapshot(buffer, code);
      SnapshotColumns(buffer.tagNames, buffer.fieldNames, TypesOf(buffer.fields), buffer.tags.Keys);
      ghost var calm := Calm();
      if calm { Sealing(batch); }
    }

    lemma Sealing(batch: Batch)
      requires Valid() && Calm() && batch.cols == Cols(buffer.tagNames, buffer.fieldNames, TypesOf(buffer.fields))
      requires |batch.rows| == |buffer.times| && forall i :: 0 <= i < |batch.rows| ==>
                 batch.rows[i] == RowCells(code, buffer.times[i], buffer.tagNames, buffer.tags, buffer.fieldNames, buffer.fields, i)
      ensures SealedSteady(code, registry, Some(batch), Part(buffer.tags.Keys, TypesOf(buffer.fields), buffer.Rows()))
      ensures Steady(code, registry, map[], tagKeys, fieldKeys, files, written)
    {
      SnapshotReads(code, buffer.times, buffer.tagNames, buffer.tags, buffer.fieldNames, buffer.fields, batch);
      SteadyTypes(code, registry, TypesOf(buffer.fields), map[], tagKeys, fieldKeys, files, written);
    }

    /** Second half, `flush_one`: the columns go into the registry, and only then does the buffer
     *  become a file.  A conflict leaves it in `flushing`. */
    method Finish() returns (ok: bool)
      requires Valid() && sealed.Some?
      modifies this
      ensures Valid() && sealed.None? && buffer == old(buffer) && tagKeys == old(tagKeys) && fieldKeys == old(fieldKeys)
      ensures ok <==> old(registry == [] || NoClash(registry + sealed.value.cols))
      ensures if ok then files == old(files) + [old(sealed.value)] && written == old(written) + old(part.rows) && flushing == None
              else files == old(files) && written == old(written) && registry == old(registry) && flushing == old(flushing)
      ensures old(Calm()) ==> ok && Calm()
      ensures agreed == (old(agreed) && Agree(old(part.types), TypesOf(buffer.fields)))
    {
      var batch := sealed.value;
      RegisterIff(registry, batch.cols);
      ghost var calm := Calm();
      if calm { FinishKeeps(code, registry, TypesOf(buffer.fields), tagKeys, fieldKeys, files, written, batch, part); }
      var r := Register(registry, batch.cols);
      agreed := agreed && Agree(part.types, TypesOf(buffer.fields));
      sealed := None;
      ok := r.Some?;
      if ok { registry, files, written, flushing := r.value, files + [batch], written + part.rows, None; }
    }

    /** End to end: while no key is used both as a tag and as a field, and no write overlapping a
     *  flush has changed a type, hour h's files compact in any bracketing, and what settles is hour
     *  h of the last write per key of every row flushed. */
    lemma Settles(h: string, t: MergeTree.Tree)
      requires Valid() && Calm()
      requires MergeTree.Proper(t) && MergeTree.Leaves(t) == MergeTree.Flushed(files, h)
      ensures MergeTree.Run(t).Some? && MergeTree.Deduped(MergeTree.Run(t).value)
      ensures Merge.TableOf([MergeTree.Run(t).value]) ==
              LastWrite.AtHour(Flush.HourText(), LastWrite.LastWins(Encoding(code), written), h)
    {
      SteadyCompacts(code, registry, TypesOf(buffer.fields), tagKeys, fieldKeys, files, written, h, t);
    }
  }

  lemma OneMore(asFloat: int -> string, types: Types, more: Types, lines: seq<Line>, line: Line,
                rows0: seq<TableBuffer.Row>, rows: seq<TableBuffer.Row>, rows': seq<TableBuffer.Row>)
    requires AllKnown(types, lines) && Extends(types, more) && LastMap(line.fields).Keys <= more.Keys
    requires rows == rows0 + LineRows(asFloat, types, lines) && rows' == rows + [LineRow(asFloat, more, line)]
    ensures rows' == rows0 + LineRows(asFloat, more, lines + [line]) && AllKnown(more, lines + [line])
  {
    LineRowsMore(asFloat, types, more, lines, line);
    ConcatAssoc(rows0, LineRows(asFloat, types, lines), [LineRow(asFloat, more, line)]);
    var upTo := lines + [line];
    forall i | 0 <= i < |upTo| ensures LastMap(upTo[i].fields).Keys <= more.Keys {
      assert i < |lines| ==> lines[i] == upTo[i] && types.Keys <= more.Keys;
    }
  }

  lemma {:induction false} LearnKeys(types: Types, est: Established, fields: Fields)
    ensures var learned := TableBuffer.Learn(types, est, fields);
            learned.Some? ==> Extends(types, learned.value) && learned.value.Keys == types.Keys + LastMap(fields).Keys
  {
    if fields != [] { LearnKeys(types, est, Init(fields)); }
  }
}
