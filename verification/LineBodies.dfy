/** Whole request bodies: the printer and the parser are inverses on exactly the rows that
 *  line protocol can carry. */
module LineBodies {
  import opened Basics
  import opened Escapes
  import opened LineProtocol
  import opened LineRoundTrip

  // ----- the parser invents no character

  lemma {:induction false} UnescapeFree(p: Place, t: string)
    requires NoBreak(t)
    ensures NoBreak(Unescape(p, t).0) && NoBreak(Unescape(p, t).1)
    decreases |t|
  {
    if t != [] {
      UnescapeFree(p, t[1..]);
      if |t| > 1 { UnescapeFree(p, t[2..]); }
    }
  }

  lemma {:induction false} QuotedFree(t: string)
    requires NoBreak(t) && Quoted(t).Some?
    ensures NoBreak(Quoted(t).value.0) && NoBreak(Quoted(t).value.1)
    decreases |t|
  {
    if t[0] == '\\' && |t| > 1 {
      QuotedFree(t[2..]);
    } else if t[0] != '"' {
      QuotedFree(t[1..]);
    }
  }

  lemma {:induction false} TokenFree(t: string)
    requires NoBreak(t)
    ensures NoBreak(Token(t).1)
  {
    if t != [] && !EndsToken(t[0]) { TokenFree(t[1..]); }
  }

  lemma FieldValFree(floats: FloatReader, t: string)
    requires NoBreak(t) && FieldVal(floats, t).Ok?
    ensures NoBreak(FieldVal(floats, t).value.1)
    ensures FieldVal(floats, t).value.0.Str? ==> NoBreak(FieldVal(floats, t).value.0.s)
  {
    if t != [] && t[0] == '"' { QuotedFree(t[1..]); } else { TokenFree(t); }
  }

  predicate AllTagsFree(tags: Tags) { forall i :: 0 <= i < |tags| ==> TagBreakFree(tags[i]) }

  predicate AllFieldsFree(fields: Fields) { forall i :: 0 <= i < |fields| ==> FieldBreakFree(fields[i]) }

  lemma {:induction false} TagsFree(t: string)
    requires NoBreak(t) && ParseTags(t).Ok?
    ensures NoBreak(ParseTags(t).value.1) && AllTagsFree(ParseTags(t).value.0)
    decreases |t|
  {
    if Begins(t, ',') {
      var k := Unescape(Key, t[1..]);
      UnescapeFree(Key, t[1..]);
      var v := Unescape(TagValue, k.1[1..]);
      UnescapeFree(TagValue, k.1[1..]);
      TagsFree(v.1);
    }
  }

  lemma {:induction false} FieldsFree(floats: FloatReader, t: string)
    requires NoBreak(t) && ParseFields(floats, t).Ok?
    ensures NoBreak(ParseFields(floats, t).value.1) && AllFieldsFree(ParseFields(floats, t).value.0)
    decreases |t|
  {
    var k := Unescape(Key, t);
    UnescapeFree(Key, t);
    var v := FieldVal(floats, k.1[1..]);
    FieldValFree(floats, k.1[1..]);
    if Begins(v.value.1, ',') { FieldsFree(floats, v.value.1[1..]); }
  }

  lemma ParsedFree(floats: FloatReader, t: string, mult: int, default: int)
    requires NoBreak(t) && ParseLine(floats, t, mult, default).Ok?
    ensures BreakFree(ParseLine(floats, t, mult, default).value)
  {
    var name := Unescape(Measurement, t);
    UnescapeFree(Measurement, t);
    TagsFree(name.1);
    var body := ParseTags(name.1).value.1;
    FieldsFree(floats, body[1..]);
  }

  lemma {:induction false} LinesFree(t: string, i: nat)
    requires i < |Lines(t)|
    ensures NoBreak(Lines(t)[i])
    decreases |t|
  {
    var n := FirstBreak(t);
    if i > 0 { LinesFree(t[n + 1..], i - 1); }
  }

  lemma {:induction false} StripFree(t: string)
    requires NoBreak(t)
    ensures NoBreak(StripReturns(t))
  {
    if t != [] && Last(t) == '\r' { StripFree(Init(t)); }
  }

  /** Whatever comes out of the parser is free of line breaks. */
  lemma {:induction false} EachFree(floats: FloatReader, lines: seq<string>, mult: int, default: int)
    requires forall i :: 0 <= i < |lines| ==> NoBreak(lines[i])
    requires ParseEach(floats, lines, mult, default).Ok?
    ensures forall i :: 0 <= i < |ParseEach(floats, lines, mult, default).value| ==>
              BreakFree(ParseEach(floats, lines, mult, default).value[i])
  {
    if lines != [] {
      var t := StripReturns(Last(lines));
      EachFree(floats, Init(lines), mult, default);
      StripFree(Last(lines));
      if !Silent(t) { ParsedFree(floats, t, mult, default); }
    }
  }

  // ----- the round trip

  /** What line protocol can carry: names that survive escaping, at least one field, no line
   *  break, and a measurement that does not read as a comment. */
  predicate RowOk(l: Line) { LineOk(l) && BreakFree(l) && l.table[0] != '#' }

  lemma {:induction false} AtMostOneEach(floats: FloatReader, lines: seq<string>, mult: int, default: int)
    requires ParseEach(floats, lines, mult, default).Ok?
    ensures |ParseEach(floats, lines, mult, default).value| <= |lines|
  {
    if lines != [] { AtMostOneEach(floats, Init(lines), mult, default); }
  }

  lemma TextsInit(rows: seq<Line>)
    requires rows != []
    ensures Init(Texts(rows)) == Texts(Init(rows)) && Last(Texts(rows)) == LineText(Last(rows))
  {
  }

  lemma {:induction false} EachReads(floats: FloatReader, rows: seq<Line>, default: int)
    requires forall i :: 0 <= i < |rows| ==> Typed(floats, rows[i]) && RowOk(rows[i])
    ensures ParseEach(floats, Texts(rows), 1, default) == Ok(rows)
  {
    if rows != [] {
      var l := Last(rows);
      EachReads(floats, Init(rows), default);
      TextsInit(rows);
      PrintedLine(l);
      LineReadsIff(floats, l, default);
      InitLast(rows);
    }
  }

  /** If as many rows come out as lines went in, the last line gave the last row. */
  lemma LastParsed(floats: FloatReader, lines: seq<string>, rows: seq<Line>, default: int)
    requires ParseEach(floats, lines, 1, default) == Ok(rows) && |rows| == |lines| && lines != []
    ensures ParseEach(floats, Init(lines), 1, default) == Ok(Init(rows))
    ensures var t := StripReturns(Last(lines)); !Silent(t) && ParseLine(floats, t, 1, default) == Ok(Last(rows))
  {
    var before, t := ParseEach(floats, Init(lines), 1, default), StripReturns(Last(lines));
    AtMostOneEach(floats, Init(lines), 1, default);
    assert !Silent(t);
    var r := ParseLine(floats, t, 1, default);
    assert Init(before.value + [r.value]) == before.value && Last(before.value + [r.value]) == r.value;
  }

  lemma LastRowOk(floats: FloatReader, rows: seq<Line>, l: Line, default: int)
    requires rows != [] && l == Last(rows) && Typed(floats, l) && BreakFree(l)
    requires ParseEach(floats, Texts(rows), 1, default) == Ok(rows)
    ensures RowOk(l) && ParseEach(floats, Texts(Init(rows)), 1, default) == Ok(Init(rows))
  {
    LastParsed(floats, Texts(rows), rows, default);
    TextsInit(rows);
    PrintedLine(l);
    OnlyLineOk(floats, l, default);
  }

  lemma {:induction false} OnlyRowOk(floats: FloatReader, rows: seq<Line>, default: int, i: nat)
    requires forall i :: 0 <= i < |rows| ==> Typed(floats, rows[i]) && BreakFree(rows[i])
    requires ParseEach(floats, Texts(rows), 1, default) == Ok(rows) && i < |rows|
    ensures RowOk(rows[i])
  {
    LastRowOk(floats, rows, rows[|rows| - 1], default);
    if i < |rows| - 1 { OnlyRowOk(floats, Init(rows), default, i); }
  }

  /** Parsing what was printed gives the rows back exactly when every one of them can be
   *  carried. */
  lemma RoundTripIff(floats: FloatReader, rows: seq<Line>, default: int)
    requires forall i :: 0 <= i < |rows| ==> Typed(floats, rows[i])
    ensures ParseLines(floats, Text(rows), 1, default) == Ok(rows) <==> forall i :: 0 <= i < |rows| ==> RowOk(rows[i])
  {
    var lines := Lines(Text(rows));
    if ParseLines(floats, Text(rows), 1, default) == Ok(rows) {
      forall i | 0 <= i < |lines| ensures NoBreak(lines[i]) { LinesFree(Text(rows), i); }
      EachFree(floats, lines, 1, default);
      LinesOfText(floats, rows);
      forall i | 0 <= i < |rows| ensures RowOk(rows[i]) { OnlyRowOk(floats, rows, default, i); }
    }
    if forall i :: 0 <= i < |rows| ==> RowOk(rows[i]) {
      LinesOfText(floats, rows);
      EachReads(floats, rows, default);
    }
  }
}
