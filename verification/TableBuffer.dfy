/** One table's write buffer: interned tag columns, typed field columns, atomic appends. */
module TableBuffer {
  import opened Basics
  import opened Columns
  import LastWrite
  import opened LineProtocol

  // ----- tag columns

  datatype TagCol = TagCol(intern: map<string, nat>, values: seq<string>, keys: seq<Option<nat>>)

  /** Interning is a bijection between the values seen and their keys. */
  predicate Interned(c: TagCol) {
    && (forall i :: 0 <= i < |c.values| ==> c.values[i] in c.intern && c.intern[c.values[i]] == i)
    && (forall v :: v in c.intern ==> c.intern[v] < |c.values| && c.values[c.intern[v]] == v)
  }

  predicate TagOk(c: TagCol) {
    Interned(c) && forall i :: 0 <= i < |c.keys| && c.keys[i].Some? ==> c.keys[i].value < |c.values|
  }

  /** The tag value of row i, through the dictionary. */
  function TagAt(c: TagCol, i: nat): Option<string> {
    if i < |c.keys| && c.keys[i].Some? && c.keys[i].value < |c.values| then Some(c.values[c.keys[i].value]) else None
  }

  function TagsRead(): Reading<TagCol, string> { Reading((c: TagCol) => |c.keys|, TagAt, TagOk) }

  function NewTag(n: nat): TagCol { TagCol(map[], [], Resize([], n)) }

  function PadTag(c: TagCol, n: nat): TagCol { c.(keys := Resize(c.keys, n)) }

  function PushTag(c: TagCol, v: string): TagCol {
    if v in c.intern then c.(keys := c.keys + [Some(c.intern[v])])
    else TagCol(c.intern[v := |c.values|], c.values + [v], c.keys + [Some(|c.values|)])
  }

  function FinishTag(c: TagCol, n: nat): TagCol { if |c.keys| < n then c.(keys := c.keys + [None]) else c }

  lemma NewTagIs(before: map<string, TagCol>, n: nat, k: string)
    requires k !in before
    ensures Midway(TagsRead(), before, NewTag(n), n, k, None)
  {
  }

  lemma PushTagOk(c: TagCol, v: string)
    requires TagOk(c)
    ensures TagOk(PushTag(c, v)) && TagAt(PushTag(c, v), |c.keys|) == Some(v)
    ensures forall i :: 0 <= i < |c.keys| ==> TagAt(PushTag(c, v), i) == TagAt(c, i)
  {
  }

  lemma PushTagIs(before: map<string, TagCol>, c: TagCol, n: nat, k: string, value: Option<string>, v: string)
    requires Midway(TagsRead(), before, c, n, k, value)
    ensures Midway(TagsRead(), before, PushTag(PadTag(c, n), v), n, k, Some(v))
  {
    var p := PadTag(c, n);
    assert TagOk(p) && |p.keys| == n;
    assert forall i :: 0 <= i < n ==> TagAt(p, i) == TagAt(c, i);
    PushTagOk(p, v);
    assert forall i :: 0 <= i < n ==> TagsRead().at(c, i) == TagAt(c, i);
  }

  lemma FinishTagIs(before: map<string, TagCol>, c: TagCol, n: nat, k: string, value: Option<string>)
    requires Midway(TagsRead(), before, c, n, k, value)
    ensures Finished(TagsRead(), before, FinishTag(c, n + 1), n, k, value)
  {
    var f := FinishTag(c, n + 1);
    assert TagOk(c) && TagOk(f);
    assert forall i :: 0 <= i < n ==> TagAt(f, i) == TagAt(c, i) == TagsRead().at(c, i);
  }

  // ----- field columns

  datatype FieldType = F64 | I64 | U64 | Boolean | Text

  datatype FieldCol = FieldCol(ty: FieldType, cells: seq<Option<FieldValue>>)

  function TypeOf(v: FieldValue): FieldType {
    match v
    case Float(_) => F64
    case Int(_) => I64
    case UInt(_) => U64
    case Bool(_) => Boolean
    case Str(_) => Text
  }

  /** Integers land in float columns; nothing else changes type. */
  predicate Accepts(ty: FieldType, v: FieldValue) { TypeOf(v) == ty || (ty == F64 && (v.Int? || v.UInt?)) }

  /** The value as the column stores it; `asFloat` is the machine's conversion. */
  function Stored(asFloat: int -> string, ty: FieldType, v: FieldValue): FieldValue {
    if ty == F64 && v.Int? then Float(asFloat(v.i)) else if ty == F64 && v.UInt? then Float(asFloat(v.u)) else v
  }

  predicate FieldOk(c: FieldCol) { forall i :: 0 <= i < |c.cells| && c.cells[i].Some? ==> TypeOf(c.cells[i].value) == c.ty }

  function FieldAt(c: FieldCol, i: nat): Option<FieldValue> { if i < |c.cells| then c.cells[i] else None }

  function FieldsRead(): Reading<FieldCol, FieldValue> { Reading((c: FieldCol) => |c.cells|, FieldAt, FieldOk) }

  function PadField(c: FieldCol, n: nat): FieldCol { c.(cells := Resize(c.cells, n)) }

  lemma NewFieldIs(before: map<string, FieldCol>, ty: FieldType, n: nat, k: string)
    requires k !in before
    ensures Midway(FieldsRead(), before, PadField(FieldCol(ty, []), n), n, k, None)
  {
  }

  lemma PushFieldIs(before: map<string, FieldCol>, c: FieldCol, n: nat, k: string, value: Option<FieldValue>, v: FieldValue)
    requires Midway(FieldsRead(), before, c, n, k, value) && TypeOf(v) == c.ty
    ensures var p := PadField(c, n);
            Midway(FieldsRead(), before, p.(cells := p.cells + [Some(v)]), n, k, Some(v))
  {
    var p := PadField(c, n);
    var q := p.(cells := p.cells + [Some(v)]);
    assert FieldOk(c) && FieldOk(p) && FieldOk(q);
    assert forall i :: 0 <= i < n ==> FieldAt(q, i) == FieldAt(c, i) == FieldsRead().at(c, i);
  }

  lemma FinishFieldIs(before: map<string, FieldCol>, c: FieldCol, n: nat, k: string, value: Option<FieldValue>)
    requires Midway(FieldsRead(), before, c, n, k, value)
    ensures Finished(FieldsRead(), before, PadField(c, n + 1), n, k, value)
  {
    var f := PadField(c, n + 1);
    assert FieldOk(c) && FieldOk(f);
    assert forall i :: 0 <= i < n ==> FieldAt(f, i) == FieldAt(c, i) == FieldsRead().at(c, i);
  }

  // ----- column types

  datatype DataType = Float64 | Int64 | UInt64 | Bit | Utf8 | LargeUtf8 | Dictionary(inner: DataType) | OtherType

  type Established = map<string, DataType>

  /** The field type an established column's files carry, if it is a field at all. */
  function ColFor(dt: DataType): Option<FieldType> {
    match dt
    case Float64 => Some(F64)
    case Int64 => Some(I64)
    case UInt64 => Some(U64)
    case Bit => Some(Boolean)
    case Utf8 => Some(Text)
    case LargeUtf8 => Some(Text)
    case Dictionary(inner) => if inner.Utf8? || inner.LargeUtf8? then Some(Text) else None
    case OtherType => None
  }

  /** Every field type has its storage type, text has four, and nothing else is a field. */
  lemma ColForIff(dt: DataType, ty: FieldType)
    ensures ColFor(dt) == Some(ty) <==>
            || (dt == Float64 && ty == F64) || (dt == Int64 && ty == I64) || (dt == UInt64 && ty == U64) || (dt == Bit && ty == Boolean)
            || (ty == Text && dt in {Utf8, LargeUtf8, Dictionary(Utf8), Dictionary(LargeUtf8)})
  {
  }

  /** The type of a column this value would create. */
  function Created(est: Established, k: string, v: FieldValue): FieldType {
    if k in est && ColFor(est[k]).Some? then ColFor(est[k]).value else TypeOf(v)
  }

  type Types = map<string, FieldType>

  /** Column types after a row's fields, or None at the first conflict. */
  function Learn(types: Types, est: Established, fields: Fields): Option<Types> {
    if fields == [] then Some(types)
    else
      var before := Learn(types, est, Init(fields));
      var (k, v) := Last(fields);
      if before.None? then None
      else
        var ty := if k in before.value then before.value[k] else Created(est, k, v);
        if Accepts(ty, v) then Some(before.value[k := ty]) else None
  }

  /** The first value a row gives a key. */
  function FirstOf(fields: Fields, k: string): Option<FieldValue> {
    if fields == [] then None
    else
      var before := FirstOf(Init(fields), k);
      if before.Some? then before else if Last(fields).0 == k then Some(Last(fields).1) else None
  }

  /** The type a key has for this row: its column's, else the established one, else that of
   *  the first value the row gives it. */
  function TypeFor(types: Types, est: Established, fields: Fields, k: string): Option<FieldType> {
    if k in types then Some(types[k])
    else if FirstOf(fields, k).None? then None
    else Some(Created(est, k, FirstOf(fields, k).value))
  }

  /** The value is of its column's type, or an integer for a float column. */
  predicate FieldFits(types: Types, est: Established, fields: Fields, f: (string, FieldValue)) {
    var ty := TypeFor(types, est, fields, f.0);
    ty.Some? && (TypeOf(f.1) == ty.value || (ty.value.F64? && (f.1.Int? || f.1.UInt?)))
  }

  lemma {:induction false} FirstStays(fields: Fields, f: (string, FieldValue), k: string)
    ensures FirstOf(fields, k).Some? ==> FirstOf(fields + [f], k) == FirstOf(fields, k)
    ensures FirstOf(fields, k).None? ==> FirstOf(fields + [f], k) == if f.0 == k then Some(f.1) else None
  {
    assert Init(fields + [f]) == fields;
  }

  lemma {:induction false} FirstThere(fields: Fields, i: nat)
    requires i < |fields|
    ensures FirstOf(fields, fields[i].0).Some?
  {
    if i < |fields| - 1 { FirstThere(Init(fields), i); }
  }

  /** A line is rejected exactly when one of its values does not fit the type its column has,
   *  was established with, or takes from the line itself. */
  lemma {:induction false} LearnIff(types: Types, est: Established, fields: Fields)
    ensures Learn(types, est, fields).Some? <==> forall i :: 0 <= i < |fields| ==> FieldFits(types, est, fields, fields[i])
    ensures Learn(types, est, fields).Some? ==>
              forall k :: (if k in Learn(types, est, fields).value then Some(Learn(types, est, fields).value[k]) else None)
                          == TypeFor(types, est, fields, k)
  {
    if fields != [] {
      var before, f := Init(fields), Last(fields);
      LearnIff(types, est, before);
      InitLast(fields);
      forall k ensures TypeFor(types, est, before, k).Some? ==> TypeFor(types, est, fields, k) == TypeFor(types, est, before, k) {
        FirstStays(before, f, k);
      }
      FirstStays(before, f, f.0);
      forall i | 0 <= i < |before| ensures FieldFits(types, est, fields, fields[i]) <==> FieldFits(types, est, before, before[i]) {
        FirstThere(before, i);
      }
      assert fields[|fields| - 1] == f;
      assert forall i :: 0 <= i < |before| ==> fields[i] == before[i];
      if Learn(types, est, fields).Some? {
        forall k
          ensures (if k in Learn(types, est, fields).value then Some(Learn(types, est, fields).value[k]) else None)
                  == TypeFor(types, est, fields, k)
        {
          FirstStays(before, f, k);
        }
      }
    }
  }

  lemma {:induction false} LearnPrefix(types: Types, est: Established, fields: Fields, j: nat)
    requires j <= |fields| && Learn(types, est, fields).Some?
    ensures Learn(types, est, fields[..j]).Some?
    ensures forall k :: k in Learn(types, est, fields[..j]).value ==>
              k in Learn(types, est, fields).value && Learn(types, est, fields).value[k] == Learn(types, est, fields[..j]).value[k]
  {
    if j < |fields| {
      InitPrefix(fields, j);
      LearnPrefix(types, est, Init(fields), j);
    } else {
      assert fields[..j] == fields;
    }
  }

  /** A row's fields as the columns store them. */
  function StoredRow(asFloat: int -> string, types: Types, fields: Fields): Fields {
    if fields == [] then []
    else
      var (k, v) := Last(fields);
      StoredRow(asFloat, types, Init(fields)) + [(k, if k in types then Stored(asFloat, types[k], v) else v)]
  }

  // ----- the buffer

  type Row = LastWrite.Row<FieldValue>

  /** The row says what the line says: its time, the last value of each tag, and the last value of
   *  each field, unchanged unless it is an integer in a float column. */
  ghost predicate RowSays(asFloat: int -> string, types: Types, line: Line, r: Row) {
    && r.time == line.timestamp
    && (forall k, v :: k in r.tags && r.tags[k] == v <==> IsLast(line.tags, k, v))
    && (forall k :: k in r.fields <==> exists v :: IsLast(line.fields, k, v))
    && (forall k, v :: IsLast(line.fields, k, v) && k in r.fields ==> k in types && Holds(asFloat, types[k], v, r.fields[k]))
  }

  predicate Holds(asFloat: int -> string, ty: FieldType, v: FieldValue, held: FieldValue) {
    if TypeOf(v) == ty then held == v
    else ty.F64? && ((v.Int? && held == Float(asFloat(v.i))) || (v.UInt? && held == Float(asFloat(v.u))))
  }

  lemma {:induction false} StoredSays(asFloat: int -> string, types: Types, fields: Fields, k: string)
    requires forall i :: 0 <= i < |fields| ==> fields[i].0 in types && Accepts(types[fields[i].0], fields[i].1)
    ensures k in LastMap(StoredRow(asFloat, types, fields)) <==> k in LastMap(fields)
    ensures k in LastMap(fields) ==> k in types && Holds(asFloat, types[k], LastMap(fields)[k], LastMap(StoredRow(asFloat, types, fields))[k])
  {
    if fields != [] {
      StoredSays(asFloat, types, Init(fields), k);
      assert fields[|fields| - 1] == Last(fields);
      var row := StoredRow(asFloat, types, fields);
      assert Init(row) == StoredRow(asFloat, types, Init(fields)) && Last(row).0 == Last(fields).0;
    }
  }

  lemma LineRowSays(asFloat: int -> string, types: Types, line: Line)
    requires forall i :: 0 <= i < |line.fields| ==> line.fields[i].0 in types && Accepts(types[line.fields[i].0], line.fields[i].1)
    ensures RowSays(asFloat, types, line, LineRow(asFloat, types, line))
  {
    var r := LineRow(asFloat, types, line);
    forall k, v ensures k in r.tags && r.tags[k] == v <==> IsLast(line.tags, k, v) { LastMapSays(line.tags, k, v); }
    forall k ensures k in r.fields <==> k in LastMap(line.fields) { StoredSays(asFloat, types, line.fields, k); }
    forall k, v ensures k in LastMap(line.fields) && LastMap(line.fields)[k] == v <==> IsLast(line.fields, k, v) {
      LastMapSays(line.fields, k, v);
    }
    forall k ensures k in r.fields <==> exists v :: IsLast(line.fields, k, v) {
      if k in r.fields { assert IsLast(line.fields, k, LastMap(line.fields)[k]); }
    }
    forall k, v | IsLast(line.fields, k, v) && k in r.fields ensures k in types && Holds(asFloat, types[k], v, r.fields[k]) {
      StoredSays(asFloat, types, line.fields, k);
    }
  }

  /** What was learned from a line fits every field of it. */
  lemma {:induction false} LearnedFits(types: Types, est: Established, fields: Fields, learned: Types)
    requires Learn(types, est, fields) == Some(learned)
    ensures forall i :: 0 <= i < |fields| ==> fields[i].0 in learned && Accepts(learned[fields[i].0], fields[i].1)
  {
    if fields != [] {
      var before := Learn(types, est, Init(fields)).value;
      LearnedFits(types, est, Init(fields), before);
      forall i | 0 <= i < |fields| ensures fields[i].0 in learned && Accepts(learned[fields[i].0], fields[i].1) {
        assert i < |fields| - 1 ==> Init(fields)[i] == fields[i];
      }
    }
  }

  function TypesOf(fields: map<string, FieldCol>): Types { map k | k in fields :: fields[k].ty }

  ghost function RowsIn(times: seq<int>, tags: map<string, TagCol>, fields: map<string, FieldCol>): seq<Row> {
    seq(|times|, i requires 0 <= i < |times| =>
      LastWrite.Row(times[i], RowAt(TagsRead(), tags, i), RowAt(FieldsRead(), fields, i)))
  }

  lemma RowsGrew(times: seq<int>, tags: map<string, TagCol>, tags': map<string, TagCol>,
                 fields: map<string, FieldCol>, fields': map<string, FieldCol>, row: Row)
    requires Grew(TagsRead(), tags, tags', |times|, row.tags) && Grew(FieldsRead(), fields, fields', |times|, row.fields)
    ensures RowsIn(times + [row.time], tags', fields') == RowsIn(times, tags, fields) + [row]
  {
  }

  class Buffer {
    const asFloat: int -> string
    var times: seq<int>
    var tagNames: seq<string>
    var tags: map<string, TagCol>
    var fieldNames: seq<string>
    var fields: map<string, FieldCol>

    /** Every column is as long as `times`, and interning is sound. */
    ghost predicate Valid() reads this {
      && Even(TagsRead(), tags, |times|) && Even(FieldsRead(), fields, |times|)
      && Lists(tagNames, tags.Keys) && Lists(fieldNames, fields.Keys)
    }

    /** The logical rows held, oldest first. */
    ghost function Rows(): seq<Row> reads this { RowsIn(times, tags, fields) }

    constructor (asFloat: int -> string)
      ensures Valid() && Rows() == [] && this.asFloat == asFloat
      ensures times == [] && tagNames == [] && tags == map[] && fieldNames == [] && fields == map[]
    {
      this.asFloat := asFloat;
      times, tagNames, tags, fieldNames, fields := [], [], map[], [], map[];
    }

    /** Would every field of the line be accepted?  Touches nothing. */
    method Validate(line: Line, est: Established) returns (ok: bool)
      ensures ok <==> Learn(TypesOf(fields), est, line.fields).Some?
    {
      var pending: Types := map[];
      assert TypesOf(fields) + pending == TypesOf(fields);
      for j := 0 to |line.fields|
        invariant Learn(TypesOf(fields), est, line.fields[..j]) == Some(TypesOf(fields) + pending)
        invariant forall k :: k in pending ==> k !in fields
      {
        assert Init(line.fields[..j + 1]) == line.fields[..j];
        var (k, v) := line.fields[j];
        if k in fields {
          if !Accepts(fields[k].ty, v) {
            NoneStays(TypesOf(fields), est, line.fields, j + 1);
            return false;
          }
          assert (TypesOf(fields) + pending)[k := fields[k].ty] == TypesOf(fields) + pending;
        } else {
          var ty := if k in pending then pending[k] else Created(est, k, v);
          if !Accepts(ty, v) {
            NoneStays(TypesOf(fields), est, line.fields, j + 1);
            return false;
          }
          assert (TypesOf(fields) + pending)[k := ty] == TypesOf(fields) + pending[k := ty];
          pending := pending[k := ty];
        }
      }
      assert line.fields[..|line.fields|] == line.fields;
      ok := true;
    }

    method PushTags(row: Tags, n: nat)
      requires Even(TagsRead(), tags, n) && Lists(tagNames, tags.Keys)
      modifies this`tags, this`tagNames
      ensures Pushed(TagsRead(), old(tags), tags, n, row) && Lists(tagNames, tags.Keys)
      ensures tagNames == Appear(old(tagNames), row)
    {
      ghost var before := tags;
      PushedNone(TagsRead(), before, n);
      for j := 0 to |row|
        invariant Pushed(TagsRead(), before, tags, n, row[..j]) && Lists(tagNames, tags.Keys)
        invariant tagNames == Appear(old(tagNames), row[..j])
      {
        assert Init(row[..j + 1]) == row[..j] && Last(row[..j + 1]) == row[j];
        PushTagValue(before, row, n, j);
      }
      assert row[..|row|] == row;
    }

    method PushTagValue(ghost before: map<string, TagCol>, row: Tags, n: nat, j: nat)
      requires j < |row| && Pushed(TagsRead(), before, tags, n, row[..j]) && Lists(tagNames, tags.Keys)
      modifies this`tags, this`tagNames
      ensures Pushed(TagsRead(), before, tags, n, row[..j + 1]) && Lists(tagNames, tags.Keys)
      ensures tagNames == if row[j].0 in old(tagNames) then old(tagNames) else old(tagNames) + [row[j].0]
    {
      var (k, v) := row[j];
      assert row[..j + 1] == row[..j] + [(k, v)];
      ghost var value := LastOf(row[..j], k);
      var c;
      if k in tags {
        c := tags[k];
      } else {
        c := NewTag(n);
        NewTagIs(before, n, k);
        ListsMore(tagNames, tags.Keys, k);
        tagNames := tagNames + [k];
      }
      PushTagIs(before, c, n, k, value, v);
      c := PushTag(PadTag(c, n), v);
      PushedMore(TagsRead(), before, tags, n, row[..j], k, v, c);
      assert tags[k := c].Keys == tags.Keys + {k};
      tags := tags[k := c];
    }

    method PushFields(row: Fields, est: Established, n: nat, ghost learned: Types)
      requires Even(FieldsRead(), fields, n) && Lists(fieldNames, fields.Keys)
      requires Learn(TypesOf(fields), est, row) == Some(learned)
      modifies this`fields, this`fieldNames
      ensures Pushed(FieldsRead(), old(fields), fields, n, StoredRow(asFloat, learned, row))
      ensures Lists(fieldNames, fields.Keys) && TypesOf(fields) == learned && fieldNames == Appear(old(fieldNames), row)
    {
      ghost var before, types := fields, TypesOf(fields);
      PushedNone(FieldsRead(), before, n);
      for j := 0 to |row|
        invariant Pushed(FieldsRead(), before, fields, n, StoredRow(asFloat, learned, row[..j]))
        invariant Lists(fieldNames, fields.Keys) && Learn(types, est, row[..j]) == Some(TypesOf(fields))
        invariant fieldNames == Appear(old(fieldNames), row[..j])
      {
        assert Init(row[..j + 1]) == row[..j] && Last(row[..j + 1]) == row[j];
        LearnNext(types, est, row, j, learned);
        PushField(before, row, est, n, learned, j);
      }
      assert row[..|row|] == row;
    }

    method PushField(ghost before: map<string, FieldCol>, row: Fields, est: Established, n: nat, ghost learned: Types, j: nat)
      requires j < |row| && Pushed(FieldsRead(), before, fields, n, StoredRow(asFloat, learned, row[..j]))
      requires var (k, v) := row[j];
               k in learned && Accepts(learned[k], v) && learned[k] == (if k in fields then fields[k].ty else Created(est, k, v))
      requires Lists(fieldNames, fields.Keys)
      modifies this`fields, this`fieldNames
      ensures Pushed(FieldsRead(), before, fields, n, StoredRow(asFloat, learned, row[..j + 1]))
      ensures Lists(fieldNames, fields.Keys) && TypesOf(fields) == TypesOf(old(fields))[row[j].0 := learned[row[j].0]]
      ensures fieldNames == if row[j].0 in old(fieldNames) then old(fieldNames) else old(fieldNames) + [row[j].0]
    {
      var (k, v) := row[j];
      var c := NextField(asFloat, fields, est, k, v, n);
      NextFieldIs(asFloat, before, fields, est, k, v, n, StoredRow(asFloat, learned, row[..j]));
      StoredRowMore(asFloat, learned, row, j);
      PushedMore(FieldsRead(), before, fields, n, StoredRow(asFloat, learned, row[..j]), k, Stored(asFloat, c.ty, v), c);
      TypesMore(fields, k, c);
      if k !in fields {
        ListsMore(fieldNames, fields.Keys, k);
        fieldNames := fieldNames + [k];
      }
      fields := fields[k := c];
    }

    /** Append one parsed line; a rejected line leaves the buffer exactly as it was. */
    method Append(line: Line, est: Established) returns (ok: bool)
      requires Valid()
      modifies this
      ensures Valid()
      ensures ok <==> Learn(old(TypesOf(fields)), est, line.fields).Some?
      ensures !ok ==> unchanged(this)
      ensures ok ==> TypesOf(fields) == Learn(old(TypesOf(fields)), est, line.fields).value
      ensures ok ==> Rows() == old(Rows()) + [LineRow(asFloat, TypesOf(fields), line)]
      ensures ok ==> InOrderOfAppearance(old(tagNames), line.tags, tagNames) && InOrderOfAppearance(old(fieldNames), line.fields, fieldNames)
      ensures ok ==> |Rows()| == |old(Rows())| + 1 && RowSays(asFloat, TypesOf(fields), line, Rows()[|old(Rows())|])
      ensures ok ==> tags.Keys == old(tags.Keys) + LastMap(line.tags).Keys && times == old(times) + [line.timestamp]
    {
      ok := Validate(line, est);
      if !ok { return; }
      ghost var learned, tags0, fields0 := Learn(TypesOf(fields), est, line.fields).value, tags, fields;
      AppendTags(line.tags, |times|);
      AppendFields(line.fields, est, |times|, learned);
      AppearIs(old(tagNames), line.tags);
      AppearIs(old(fieldNames), line.fields);
      AppendedSays(asFloat, TypesOf(fields0), est, line, learned);
      RowsGrew(times, tags0, tags, fields0, fields, LineRow(asFloat, learned, line));
      times := times + [line.timestamp];
    }

    method AppendTags(row: Tags, n: nat)
      requires Even(TagsRead(), tags, n) && Lists(tagNames, tags.Keys)
      modifies this`tags, this`tagNames
      ensures Lists(tagNames, tags.Keys) && Grew(TagsRead(), old(tags), tags, n, LastMap(row))
      ensures tagNames == Appear(old(tagNames), row)
    {
      ghost var before := tags;
      PushTags(row, n);
      FinishTags(before, row, n);
    }

    method AppendFields(row: Fields, est: Established, n: nat, ghost learned: Types)
      requires Even(FieldsRead(), fields, n) && Lists(fieldNames, fields.Keys)
      requires Learn(TypesOf(fields), est, row) == Some(learned)
      modifies this`fields, this`fieldNames
      ensures Lists(fieldNames, fields.Keys) && TypesOf(fields) == learned && fieldNames == Appear(old(fieldNames), row)
      ensures Grew(FieldsRead(), old(fields), fields, n, LastMap(StoredRow(asFloat, learned, row)))
    {
      ghost var before := fields;
      PushFields(row, est, n, learned);
      FinishFields(before, StoredRow(asFloat, learned, row), n);
    }

    /** Pads the tag columns the row did not mention. */
    method FinishTags(ghost before: map<string, TagCol>, ghost row: Tags, n: nat)
      requires Pushed(TagsRead(), before, tags, n, row) && Lists(tagNames, tags.Keys)
      modifies this`tags
      ensures Lists(tagNames, tags.Keys) && Grew(TagsRead(), before, tags, n, LastMap(row))
    {
      var finish := (c: TagCol) => FinishTag(c, n + 1);
      forall k | k in tags ensures Finished(TagsRead(), before, finish(tags[k]), n, k, LastOf(row, k)) {
        FinishTagIs(before, tags[k], n, k, LastOf(row, k));
      }
      var out := EachColumn(tagNames, tags, finish);
      FinishedAll(TagsRead(), before, tags, n, row, finish, out);
      tags := out;
    }

    method FinishFields(ghost before: map<string, FieldCol>, ghost row: Fields, n: nat)
      requires Pushed(FieldsRead(), before, fields, n, row) && Lists(fieldNames, fields.Keys)
      modifies this`fields
      ensures Lists(fieldNames, fields.Keys) && TypesOf(fields) == old(TypesOf(fields))
      ensures Grew(FieldsRead(), before, fields, n, LastMap(row))
    {
      var finish := (c: FieldCol) => PadField(c, n + 1);
      forall k | k in fields ensures Finished(FieldsRead(), before, finish(fields[k]), n, k, LastOf(row, k)) {
        FinishFieldIs(before, fields[k], n, k, LastOf(row, k));
      }
      var out := EachColumn(fieldNames, fields, finish);
      FinishedAll(FieldsRead(), before, fields, n, row, finish, out);
      TypesSame(fields, out);
      fields := out;
    }
  }

  lemma AppendedSays(asFloat: int -> string, types: Types, est: Established, line: Line, learned: Types)
    requires Learn(types, est, line.fields) == Some(learned)
    ensures RowSays(asFloat, learned, line, LineRow(asFloat, learned, line))
  {
    LearnedFits(types, est, line.fields, learned);
    LineRowSays(asFloat, learned, line);
  }

  /** The logical row a line stands for: the last value of each key, as its column stores it. */
  function LineRow(asFloat: int -> string, types: Types, line: Line): Row {
    LastWrite.Row(line.timestamp, LastMap(line.tags), LastMap(StoredRow(asFloat, types, line.fields)))
  }

  /** The column of k with one more value. */
  function NextField(asFloat: int -> string, cols: map<string, FieldCol>, est: Established, k: string, v: FieldValue, n: nat): FieldCol {
    var c := if k in cols then cols[k] else PadField(FieldCol(Created(est, k, v), []), n);
    var p := PadField(c, n);
    p.(cells := p.cells + [Some(Stored(asFloat, c.ty, v))])
  }

  lemma NextFieldIs(asFloat: int -> string, before: map<string, FieldCol>, cols: map<string, FieldCol>, est: Established,
                    k: string, v: FieldValue, n: nat, done: Fields)
    requires Pushed(FieldsRead(), before, cols, n, done)
    requires Accepts(if k in cols then cols[k].ty else Created(est, k, v), v)
    ensures var c := NextField(asFloat, cols, est, k, v, n);
            Midway(FieldsRead(), before, c, n, k, Some(Stored(asFloat, c.ty, v)))
  {
    var c := if k in cols then cols[k] else PadField(FieldCol(Created(est, k, v), []), n);
    if k !in cols { NewFieldIs(before, c.ty, n, k); }
    StoredType(asFloat, c.ty, v);
    PushFieldIs(before, c, n, k, if k in cols then LastOf(done, k) else None, Stored(asFloat, c.ty, v));
  }

  lemma TypesMore(cols: map<string, FieldCol>, k: string, c: FieldCol)
    ensures TypesOf(cols[k := c]) == TypesOf(cols)[k := c.ty] && cols[k := c].Keys == cols.Keys + {k}
    ensures k in cols ==> cols.Keys + {k} == cols.Keys
  {
    var a, b := TypesOf(cols[k := c]), TypesOf(cols)[k := c.ty];
    assert cols[k := c].Keys == cols.Keys + {k};
    assert forall j :: j in a <==> j in b;
    assert forall j :: j in a ==> a[j] == b[j];
  }

  lemma TypesSame(cols: map<string, FieldCol>, out: map<string, FieldCol>)
    requires out.Keys == cols.Keys && forall k :: k in cols ==> out[k].ty == cols[k].ty
    ensures TypesOf(out) == TypesOf(cols)
  {
  }

  lemma StoredType(asFloat: int -> string, ty: FieldType, v: FieldValue)
    requires Accepts(ty, v)
    ensures TypeOf(Stored(asFloat, ty, v)) == ty
  {
  }

  lemma StoredRowMore(asFloat: int -> string, types: Types, row: Fields, j: nat)
    requires j < |row| && row[j].0 in types
    ensures StoredRow(asFloat, types, row[..j + 1]) ==
            StoredRow(asFloat, types, row[..j]) + [(row[j].0, Stored(asFloat, types[row[j].0], row[j].1))]
  {
    assert Init(row[..j + 1]) == row[..j];
  }

  /** Column types follow the line: after its first j fields they are what was learned. */
  lemma LearnNext(types: Types, est: Established, row: Fields, j: nat, learned: Types)
    requires j < |row| && Learn(types, est, row) == Some(learned)
    ensures Learn(types, est, row[..j]).Some?
    ensures var now := Learn(types, est, row[..j]).value;
            var (k, v) := row[j];
            && k in learned && Accepts(learned[k], v)
            && learned[k] == (if k in now then now[k] else Created(est, k, v))
            && Learn(types, est, row[..j + 1]) == Some(now[k := learned[k]])
  {
    LearnPrefix(types, est, row, j);
    LearnPrefix(types, est, row, j + 1);
    assert Init(row[..j + 1]) == row[..j] && Last(row[..j + 1]) == row[j];
    var now, next, k := Learn(types, est, row[..j]).value, Learn(types, est, row[..j + 1]).value, row[j].0;
    assert k in next && next == now[k := next[k]];
    assert k in learned && learned[k] == next[k];
  }

  lemma {:induction false} NoneStays(types: Types, est: Established, fields: Fields, j: nat)
    requires j <= |fields| && Learn(types, est, fields[..j]).None?
    ensures Learn(types, est, fields).None?
  {
    if j < |fields| {
      InitPrefix(fields, j);
      NoneStays(types, est, Init(fields), j);
    } else {
      assert fields[..j] == fields;
    }
  }
}
