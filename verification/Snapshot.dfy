/** Snapshots of the write buffer: the batch a flush or a scan sees is the rows appended. */
module Snapshot {
  import opened Basics
  import opened Columns
  import opened LineProtocol
  import opened TableBuffer
  import opened Batches
  import LastWrite
  import Calendar
  import Merge

  function KindFor(ty: FieldType): Kind {
    match ty
    case F64 => Field(0)
    case I64 => Field(1)
    case Text => Field(2)
    case U64 => Field(3)
    case Boolean => Field(4)
  }

  /** A stored value as a cell; `code` numbers the floats. */
  function Encode(code: string -> int, v: FieldValue): (c: Cell)
    ensures !c.Null?
  {
    match v
    case Float(t) => Value(0, code(t))
    case Int(n) => Value(1, n)
    case Str(s) => Cell.Text(s)
    case UInt(n) => Value(3, n)
    case Bool(b) => Value(4, if b then 1 else 0)
  }

  ghost predicate OneToOne(code: string -> int) { forall a, b {:trigger code(a), code(b)} :: code(a) == code(b) ==> a == b }

  /** A cell tells its value apart from every other, and is of its column's kind. */
  lemma EncodeSays(code: string -> int, a: FieldValue, b: FieldValue)
    requires OneToOne(code)
    ensures Encode(code, a) == Encode(code, b) <==> a == b
    ensures if a.Str? then Encode(code, a) == Cell.Text(a.s)
            else Encode(code, a).Value? && KindFor(TypeOf(a)) == Field(Encode(code, a).ty)
    ensures KindFor(TypeOf(a)) == KindFor(TypeOf(b)) <==> TypeOf(a) == TypeOf(b)
  {
  }

  function TagCell(v: Option<string>): Cell { if v.None? then Null else Cell.Text(v.value) }

  function FieldCell(code: string -> int, v: Option<FieldValue>): Cell { if v.None? then Null else Encode(code, v.value) }

  /** `time`, then the tags, then the fields, each in order of first appearance. */
  function Cols(tagNames: seq<string>, fieldNames: seq<string>, types: Types): seq<Column> {
    [TIME] + TagCols(tagNames) + FieldCols(fieldNames, types)
  }

  function TagCols(names: seq<string>): seq<Column> { seq(|names|, j requires 0 <= j < |names| => Column(names[j], Tag)) }

  function FieldCols(names: seq<string>, types: Types): seq<Column> {
    seq(|names|, j requires 0 <= j < |names| => ColumnFor(names[j], types))
  }

  /** Indexing one thing, then some, then others. */
  lemma Index3<T>(a: T, b: seq<T>, c: seq<T>, j: nat)
    ensures |[a] + b + c| == 1 + |b| + |c| && ([a] + b + c)[0] == a
    ensures j < |b| ==> ([a] + b + c)[1 + j] == b[j]
    ensures j < |c| ==> ([a] + b + c)[1 + |b| + j] == c[j]
  {
  }

  function ColumnFor(name: string, types: Types): Column { Column(name, if name in types then KindFor(types[name]) else Field(0)) }

  function TagCells(names: seq<string>, tags: map<string, TagCol>, i: nat): seq<Cell> {
    seq(|names|, j requires 0 <= j < |names| => if names[j] in tags then TagCell(TagAt(tags[names[j]], i)) else Null)
  }

  function FieldCells(code: string -> int, names: seq<string>, fields: map<string, FieldCol>, i: nat): seq<Cell> {
    seq(|names|, j requires 0 <= j < |names| => if names[j] in fields then FieldCell(code, FieldAt(fields[names[j]], i)) else Null)
  }

  function RowCells(code: string -> int, time: int, tagNames: seq<string>, tags: map<string, TagCol>,
                    fieldNames: seq<string>, fields: map<string, FieldCol>, i: nat): Cells {
    [Stamp(time)] + TagCells(tagNames, tags, i) + FieldCells(code, fieldNames, fields, i)
  }

  /** `snapshot` */
  method TakeSnapshot(b: Buffer, code: string -> int) returns (batch: Batch)
    ensures batch.cols == Cols(b.tagNames, b.fieldNames, TypesOf(b.fields))
    ensures |batch.rows| == |b.times| && forall i :: 0 <= i < |b.times| ==>
              batch.rows[i] == RowCells(code, b.times[i], b.tagNames, b.tags, b.fieldNames, b.fields, i)
  {
    var rows: seq<Cells> := [];
    for i := 0 to |b.times|
      invariant |rows| == i && forall j :: 0 <= j < i ==>
                  rows[j] == RowCells(code, b.times[j], b.tagNames, b.tags, b.fieldNames, b.fields, j)
    {
      rows := rows + [RowCells(code, b.times[i], b.tagNames, b.tags, b.fieldNames, b.fields, i)];
    }
    batch := Batch(Cols(b.tagNames, b.fieldNames, TypesOf(b.fields)), rows);
  }

  // ----- what it reads as

  /** No key is both a tag and a field, and none is `time`. */
  predicate Apart(tagKeys: set<string>, fieldKeys: set<string>) {
    "time" !in tagKeys && "time" !in fieldKeys && tagKeys !! fieldKeys
  }

  lemma ColsAt(tagNames: seq<string>, fieldNames: seq<string>, types: Types)
    ensures var cols := Cols(tagNames, fieldNames, types);
            && |cols| == 1 + |tagNames| + |fieldNames| && cols[0] == TIME
            && (forall j :: 0 <= j < |tagNames| ==> cols[1 + j] == Column(tagNames[j], Tag))
            && (forall j :: 0 <= j < |fieldNames| ==> cols[1 + |tagNames| + j] == ColumnFor(fieldNames[j], types))
  {
    forall j: nat ensures var cols := Cols(tagNames, fieldNames, types);
      && (j < |tagNames| ==> cols[1 + j] == Column(tagNames[j], Tag))
      && (j < |fieldNames| ==> cols[1 + |tagNames| + j] == ColumnFor(fieldNames[j], types))
    {
      Index3(TIME, TagCols(tagNames), FieldCols(fieldNames, types), j);
    }
  }

  /** The snapshot has a proper schema exactly when its names are distinct: a key used both as
   *  a tag and as a field gives two columns of one name. */
  lemma SchemaIff(tagNames: seq<string>, fieldNames: seq<string>, types: Types, tagKeys: set<string>, fieldKeys: set<string>)
    requires Lists(tagNames, tagKeys) && Lists(fieldNames, fieldKeys)
    ensures IsSchema(Cols(tagNames, fieldNames, types)) <==> Apart(tagKeys, fieldKeys)
  {
    var cols, t := Cols(tagNames, fieldNames, types), |tagNames|;
    ColsAt(tagNames, fieldNames, types);
    if IsSchema(cols) {
      forall i | 0 <= i < |tagNames| ensures tagNames[i] != "time" && tagNames[i] !in fieldNames {
        assert cols[0].name != cols[1 + i].name;
        forall j | 0 <= j < |fieldNames| ensures fieldNames[j] != tagNames[i] { assert cols[1 + i].name != cols[1 + t + j].name; }
      }
      forall j | 0 <= j < |fieldNames| ensures fieldNames[j] != "time" { assert cols[0].name != cols[1 + t + j].name; }
    }
    if Apart(tagKeys, fieldKeys) { DistinctCols(tagNames, fieldNames, types, tagKeys, fieldKeys); }
  }

  /** Such as the line `m,x=1 x=2 0`, which the buffer takes: its snapshot has one row and no
   *  proper schema, whatever the key and the values. */
  method KeyTwice(code: string -> int, asFloat: int -> string, k: string, tag: string, v: FieldValue, time: int) returns (batch: Batch)
    ensures |batch.rows| == 1 && !IsSchema(batch.cols)
  {
    var b := new Buffer(asFloat);
    var line := Line("m", [(k, tag)], [(k, v)], time);
    OnlyField(k, v);
    OnlyKey(k, tag);
    var ok := b.Append(line, map[]);
    assert k in b.tags && k in TypesOf(b.fields) && |b.times| == 1;
    batch := TakeSnapshot(b, code);
    SchemaIff(b.tagNames, b.fieldNames, TypesOf(b.fields), b.tags.Keys, b.fields.Keys);
  }

  lemma OnlyField(k: string, v: FieldValue)
    ensures TableBuffer.Learn(map[], map[], [(k, v)]) == Some(map[k := TypeOf(v)])
  {
    assert Init([(k, v)]) == [];
  }

  lemma OnlyKey<V>(k: string, v: V)
    ensures k in LastMap([(k, v)])
  {
    assert Last([(k, v)]).0 == k;
  }

  function NameAt(tagNames: seq<string>, fieldNames: seq<string>, i: nat): string
    requires i < 1 + |tagNames| + |fieldNames|
  {
    if i == 0 then "time" else if i <= |tagNames| then tagNames[i - 1] else fieldNames[i - 1 - |tagNames|]
  }

  lemma ColName(tagNames: seq<string>, fieldNames: seq<string>, types: Types, i: nat)
    requires i < 1 + |tagNames| + |fieldNames|
    ensures var c := Cols(tagNames, fieldNames, types)[i];
            c.name == NameAt(tagNames, fieldNames, i) && (i > 0 ==> !c.kind.Time?)
  {
    ColsAt(tagNames, fieldNames, types);
    var cols, t := Cols(tagNames, fieldNames, types), |tagNames|;
    if 0 < i <= t { assert cols[1 + (i - 1)] == Column(tagNames[i - 1], Tag); }
    if t < i { assert cols[1 + t + (i - 1 - t)] == ColumnFor(fieldNames[i - 1 - t], types); }
  }

  lemma NamesDiffer(tagNames: seq<string>, fieldNames: seq<string>, tagKeys: set<string>, fieldKeys: set<string>, i: nat, j: nat)
    requires Lists(tagNames, tagKeys) && Lists(fieldNames, fieldKeys) && Apart(tagKeys, fieldKeys)
    requires i < j < 1 + |tagNames| + |fieldNames|
    ensures NameAt(tagNames, fieldNames, i) != NameAt(tagNames, fieldNames, j)
  {
    var a, b, t := NameAt(tagNames, fieldNames, i), NameAt(tagNames, fieldNames, j), |tagNames|;
    assert j <= t ==> b in tagNames;
    assert j > t ==> b in fieldNames;
    assert 0 < i <= t ==> a in tagNames;
  }

  lemma DistinctCols(tagNames: seq<string>, fieldNames: seq<string>, types: Types, tagKeys: set<string>, fieldKeys: set<string>)
    requires Lists(tagNames, tagKeys) && Lists(fieldNames, fieldKeys) && Apart(tagKeys, fieldKeys)
    ensures IsSchema(Cols(tagNames, fieldNames, types))
  {
    var cols := Cols(tagNames, fieldNames, types);
    forall i | 1 <= i < |cols| ensures !cols[i].kind.Time? { ColName(tagNames, fieldNames, types, i); }
    forall i, j | 0 <= i < j < |cols| ensures cols[i].name != cols[j].name {
      ColName(tagNames, fieldNames, types, i);
      ColName(tagNames, fieldNames, types, j);
      NamesDiffer(tagNames, fieldNames, tagKeys, fieldKeys, i, j);
    }
  }

  /** A logical row in cell form. */
  function EncodeRow(code: string -> int, r: TableBuffer.Row): LastWrite.Row<Cell> {
    LastWrite.Row(r.time, r.tags, map k | k in r.fields :: Encode(code, r.fields[k]))
  }

  /** So does a row in cell form. */
  lemma EncodeRowSays(code: string -> int, r: TableBuffer.Row, s: TableBuffer.Row)
    requires OneToOne(code) && EncodeRow(code, r) == EncodeRow(code, s)
    ensures r == s
  {
    var a, b := EncodeRow(code, r).fields, EncodeRow(code, s).fields;
    assert r.fields.Keys == a.Keys == b.Keys == s.fields.Keys;
    forall k | k in r.fields ensures r.fields[k] == s.fields[k] {
      assert a[k] == Encode(code, r.fields[k]) && b[k] == Encode(code, s.fields[k]);
      EncodeSays(code, r.fields[k], s.fields[k]);
    }
  }

  /** The buffer's contents, as `Valid` has them. */
  ghost predicate Sound(times: seq<int>, tagNames: seq<string>, tags: map<string, TagCol>,
                        fieldNames: seq<string>, fields: map<string, FieldCol>) {
    Lists(tagNames, tags.Keys) && Lists(fieldNames, fields.Keys) && Apart(tags.Keys, fields.Keys) &&
    forall i :: 0 <= i < |times| ==> Calendar.IsI64(times[i])
  }

  lemma TagAtIndex(code: string -> int, time: int, tagNames: seq<string>, tags: map<string, TagCol>,
                   fieldNames: seq<string>, fields: map<string, FieldCol>, i: nat, j: nat)
    requires j < |tagNames| && tagNames[j] in tags
    ensures var cols, row := Cols(tagNames, fieldNames, TypesOf(fields)), RowCells(code, time, tagNames, tags, fieldNames, fields, i);
            && |cols| == |row| == 1 + |tagNames| + |fieldNames|
            && cols[1 + j] == Column(tagNames[j], Tag) && row[1 + j] == TagCell(TagAt(tags[tagNames[j]], i))
  {
    Index3(TIME, TagCols(tagNames), FieldCols(fieldNames, TypesOf(fields)), j);
    Index3(Stamp(time), TagCells(tagNames, tags, i), FieldCells(code, fieldNames, fields, i), j);
  }

  lemma FieldAtIndex(code: string -> int, time: int, tagNames: seq<string>, tags: map<string, TagCol>,
                     fieldNames: seq<string>, fields: map<string, FieldCol>, i: nat, j: nat)
    requires j < |fieldNames| && fieldNames[j] in fields
    ensures var cols, row := Cols(tagNames, fieldNames, TypesOf(fields)), RowCells(code, time, tagNames, tags, fieldNames, fields, i);
            && |cols| == |row| == 1 + |tagNames| + |fieldNames|
            && cols[1 + |tagNames| + j] == ColumnFor(fieldNames[j], TypesOf(fields))
            && row[1 + |tagNames| + j] == FieldCell(code, FieldAt(fields[fieldNames[j]], i))
  {
    Index3(TIME, TagCols(tagNames), FieldCols(fieldNames, TypesOf(fields)), j);
    Index3(Stamp(time), TagCells(tagNames, tags, i), FieldCells(code, fieldNames, fields, i), j);
  }

  /** Reading a tag or a field of the snapshot's row by name. */
  lemma GetTag(code: string -> int, time: int, tagNames: seq<string>, tags: map<string, TagCol>,
               fieldNames: seq<string>, fields: map<string, FieldCol>, i: nat, n: string)
    requires IsSchema(Cols(tagNames, fieldNames, TypesOf(fields))) && n in tagNames && n in tags
    ensures Get(Cols(tagNames, fieldNames, TypesOf(fields)), RowCells(code, time, tagNames, tags, fieldNames, fields, i), n)
            == TagCell(TagAt(tags[n], i))
  {
    var j :| 0 <= j < |tagNames| && tagNames[j] == n;
    TagAtIndex(code, time, tagNames, tags, fieldNames, fields, i, j);
    GetAt(Cols(tagNames, fieldNames, TypesOf(fields)), RowCells(code, time, tagNames, tags, fieldNames, fields, i), 1 + j);
  }

  lemma GetField(code: string -> int, time: int, tagNames: seq<string>, tags: map<string, TagCol>,
                 fieldNames: seq<string>, fields: map<string, FieldCol>, i: nat, n: string)
    requires IsSchema(Cols(tagNames, fieldNames, TypesOf(fields))) && n in fieldNames && n in fields
    ensures Get(Cols(tagNames, fieldNames, TypesOf(fields)), RowCells(code, time, tagNames, tags, fieldNames, fields, i), n)
            == FieldCell(code, FieldAt(fields[n], i))
  {
    var j :| 0 <= j < |fieldNames| && fieldNames[j] == n;
    FieldAtIndex(code, time, tagNames, tags, fieldNames, fields, i, j);
    GetAt(Cols(tagNames, fieldNames, TypesOf(fields)), RowCells(code, time, tagNames, tags, fieldNames, fields, i), 1 + |tagNames| + j);
  }

  lemma TagNamesIs(cols: seq<Column>, names: seq<string>, n: string)
    requires forall j :: 0 <= j < |names| ==> Column(names[j], Tag) in cols
    requires forall c :: c in cols && c.kind.Tag? ==> c.name in names
    ensures n in TagNames(cols) <==> n in names
  {
    if n in names {
      var j :| 0 <= j < |names| && names[j] == n;
      assert Column(names[j], Tag) in cols;
    }
  }

  lemma FieldNamesIs(cols: seq<Column>, names: seq<string>, types: Types, n: string)
    requires forall j :: 0 <= j < |names| ==> ColumnFor(names[j], types) in cols
    requires forall c :: c in cols && c.kind.Field? ==> c.name in names
    ensures n in FieldNames(cols) <==> n in names
  {
    if n in names {
      var j :| 0 <= j < |names| && names[j] == n;
      assert ColumnFor(names[j], types) in cols && ColumnFor(names[j], types).kind.Field?;
    }
  }

  lemma ColumnNames(tagNames: seq<string>, fieldNames: seq<string>, types: Types, n: string)
    ensures n in TagNames(Cols(tagNames, fieldNames, types)) <==> n in tagNames
    ensures n in FieldNames(Cols(tagNames, fieldNames, types)) <==> n in fieldNames
  {
    var cols := Cols(tagNames, fieldNames, types);
    ColsAt(tagNames, fieldNames, types);
    forall j | 0 <= j < |tagNames| ensures Column(tagNames[j], Tag) in cols { assert cols[1 + j] in cols; }
    forall j | 0 <= j < |fieldNames| ensures ColumnFor(fieldNames[j], types) in cols { assert cols[1 + |tagNames| + j] in cols; }
    forall c | c in cols ensures (c.kind.Tag? ==> c.name in tagNames) && (c.kind.Field? ==> c.name in fieldNames) {
      var i :| 0 <= i < |cols| && cols[i] == c;
      KindAt(tagNames, fieldNames, types, i);
    }
    TagNamesIs(cols, tagNames, n);
    FieldNamesIs(cols, fieldNames, types, n);
  }

  lemma KindAt(tagNames: seq<string>, fieldNames: seq<string>, types: Types, i: nat)
    requires i < 1 + |tagNames| + |fieldNames|
    ensures var c := Cols(tagNames, fieldNames, types)[i];
            (c.kind.Tag? ==> c.name in tagNames) && (c.kind.Field? ==> c.name in fieldNames)
  {
    ColsAt(tagNames, fieldNames, types);
    var cols, t := Cols(tagNames, fieldNames, types), |tagNames|;
    if 0 < i <= t { assert cols[1 + (i - 1)] == Column(tagNames[i - 1], Tag); }
    if t < i { assert cols[1 + t + (i - 1 - t)] == ColumnFor(fieldNames[i - 1 - t], types); }
  }

  lemma FitsAt(code: string -> int, times: seq<int>, tagNames: seq<string>, tags: map<string, TagCol>,
               fieldNames: seq<string>, fields: map<string, FieldCol>, i: nat)
    requires Sound(times, tagNames, tags, fieldNames, fields) && i < |times|
    ensures RowFits(Cols(tagNames, fieldNames, TypesOf(fields)), RowCells(code, times[i], tagNames, tags, fieldNames, fields, i))
  {
    var cols, t := Cols(tagNames, fieldNames, TypesOf(fields)), |tagNames|;
    var row := RowCells(code, times[i], tagNames, tags, fieldNames, fields, i);
    assert |cols| == |row| == 1 + t + |fieldNames| && cols[0] == TIME && row[0] == Stamp(times[i]);
    forall j | 0 <= j < |cols| ensures CellFits(cols[j].kind, row[j]) {
      if 0 < j <= t {
        assert tagNames[j - 1] in tagNames;
        TagAtIndex(code, times[i], tagNames, tags, fieldNames, fields, i, j - 1);
      } else if t < j {
        assert fieldNames[j - 1 - t] in fieldNames;
        FieldAtIndex(code, times[i], tagNames, tags, fieldNames, fields, i, j - 1 - t);
      }
    }
  }

  /** One row of the snapshot reads as the logical row. */
  lemma RowReads(code: string -> int, times: seq<int>, tagNames: seq<string>, tags: map<string, TagCol>,
                 fieldNames: seq<string>, fields: map<string, FieldCol>, i: nat)
    requires Sound(times, tagNames, tags, fieldNames, fields) && i < |times|
    ensures Read(Cols(tagNames, fieldNames, TypesOf(fields)), RowCells(code, times[i], tagNames, tags, fieldNames, fields, i))
            == EncodeRow(code, RowsIn(times, tags, fields)[i])
  {
    var cols, row := Cols(tagNames, fieldNames, TypesOf(fields)), RowCells(code, times[i], tagNames, tags, fieldNames, fields, i);
    DistinctCols(tagNames, fieldNames, TypesOf(fields), tags.Keys, fields.Keys);
    Index3(Stamp(times[i]), TagCells(tagNames, tags, i), FieldCells(code, fieldNames, fields, i), 0);
    GetAt(cols, row, 0);
    forall n ensures n in TagNames(cols) <==> n in tags { ColumnNames(tagNames, fieldNames, TypesOf(fields), n); }
    forall n ensures n in FieldNames(cols) <==> n in fields { ColumnNames(tagNames, fieldNames, TypesOf(fields), n); }
    forall n | n in tags ensures Get(cols, row, n) == TagCell(TagAt(tags[n], i)) {
      GetTag(code, times[i], tagNames, tags, fieldNames, fields, i, n);
    }
    forall n | n in fields ensures Get(cols, row, n) == FieldCell(code, FieldAt(fields[n], i)) {
      GetField(code, times[i], tagNames, tags, fieldNames, fields, i, n);
    }
    ReadIs(code, cols, row, times[i], tags, fields, i);
  }

  lemma ReadIs(code: string -> int, cols: seq<Column>, row: Cells, time: int, tags: map<string, TagCol>,
               fields: map<string, FieldCol>, i: nat)
    requires Get(cols, row, "time") == Stamp(time)
    requires forall n :: n in TagNames(cols) <==> n in tags
    requires forall n :: n in FieldNames(cols) <==> n in fields
    requires forall n :: n in tags ==> Get(cols, row, n) == TagCell(TagAt(tags[n], i))
    requires forall n :: n in fields ==> Get(cols, row, n) == FieldCell(code, FieldAt(fields[n], i))
    ensures Read(cols, row) ==
            EncodeRow(code, LastWrite.Row(time, RowAt(TagsRead(), tags, i), RowAt(FieldsRead(), fields, i)))
  {
    ReadTags(cols, row, tags, i, Read(cols, row).tags);
    ReadFields(code, cols, row, fields, i, Read(cols, row).fields);
  }

  lemma ReadTags(cols: seq<Column>, row: Cells, tags: map<string, TagCol>, i: nat, read: map<string, string>)
    requires forall n :: n in TagNames(cols) <==> n in tags
    requires forall n :: n in tags ==> Get(cols, row, n) == TagCell(TagAt(tags[n], i))
    requires read == map n | n in TagNames(cols) && Get(cols, row, n).Text? :: Get(cols, row, n).s
    ensures read == RowAt(TagsRead(), tags, i)
  {
    var r := RowAt(TagsRead(), tags, i);
    assert forall n :: n in read <==> n in r;
  }

  lemma ReadFields(code: string -> int, cols: seq<Column>, row: Cells, fields: map<string, FieldCol>, i: nat, read: map<string, Cell>)
    requires forall n :: n in FieldNames(cols) <==> n in fields
    requires forall n :: n in fields ==> Get(cols, row, n) == FieldCell(code, FieldAt(fields[n], i))
    requires read == map n | n in FieldNames(cols) && !Get(cols, row, n).Null? :: Get(cols, row, n)
    ensures var r := RowAt(FieldsRead(), fields, i); read == map k | k in r :: Encode(code, r[k])
  {
    var r := RowAt(FieldsRead(), fields, i);
    assert forall n :: n in read <==> n in r;
  }

  /** A snapshot is a well-formed batch whose rows read as the rows appended, in order. */
  lemma SnapshotReads(code: string -> int, times: seq<int>, tagNames: seq<string>, tags: map<string, TagCol>,
                      fieldNames: seq<string>, fields: map<string, FieldCol>, batch: Batch)
    requires Sound(times, tagNames, tags, fieldNames, fields)
    requires batch.cols == Cols(tagNames, fieldNames, TypesOf(fields)) && |batch.rows| == |times|
    requires forall i :: 0 <= i < |times| ==> batch.rows[i] == RowCells(code, times[i], tagNames, tags, fieldNames, fields, i)
    ensures IsBatch(batch)
    ensures |Merge.RowsOf(batch)| == |times|
    ensures forall i :: 0 <= i < |times| ==> Merge.RowsOf(batch)[i] == EncodeRow(code, RowsIn(times, tags, fields)[i])
  {
    DistinctCols(tagNames, fieldNames, TypesOf(fields), tags.Keys, fields.Keys);
    forall i | 0 <= i < |times|
      ensures RowFits(batch.cols, batch.rows[i])
      ensures Merge.RowsOf(batch)[i] == EncodeRow(code, RowsIn(times, tags, fields)[i])
    {
      FitsAt(code, times, tagNames, tags, fieldNames, fields, i);
      RowReads(code, times, tagNames, tags, fieldNames, fields, i);
    }
  }
}
