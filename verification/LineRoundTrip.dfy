/** Printing rows and parsing them back: exactly which rows survive. */
module LineRoundTrip {
  import opened Basics
  import opened Escapes
  import opened LineProtocol
  import Names

  // ----- what the row type guarantees

  /** A float's canonical text reads back as itself and looks like no other kind of value. */
  predicate FloatOk(floats: FloatReader, tok: string) {
    && tok != [] && floats(tok) == Some(tok) && tok[0] != '"' && Last(tok) != 'i' && Last(tok) != 'u'
    && tok !in TRUES && tok !in FALSES
    && forall i :: 0 <= i < |tok| ==> !EndsToken(tok[i]) && tok[i] != '\n'
  }

  predicate ValueOk(floats: FloatReader, v: FieldValue) {
    match v
    case Float(token) => FloatOk(floats, token)
    case Int(n) => I64_MIN <= n <= I64_MAX
    case UInt(n) => 0 <= n <= U64_MAX
    case Bool(_) => true
    case Str(_) => true
  }

  /** Numbers in their machine ranges, floats canonical. */
  predicate Typed(floats: FloatReader, l: Line) {
    && I64_MIN <= l.timestamp <= I64_MAX
    && forall i :: 0 <= i < |l.fields| ==> ValueOk(floats, l.fields[i].1)
  }

  // ----- numbers

  lemma IntTextReads(n: int)
    requires I64_MIN <= n <= I64_MAX
    ensures ParseI64(IntText(n)) == Some(n)
  {
    var d := Names.Digits(if n < 0 then -n else n);
    Names.DigitsValue(if n < 0 then -n else n);
    assert AllDigits(d) && Names.IsDigit(d[0]);
    if n < 0 { assert IntText(n)[1..] == d; }
  }

  lemma UIntTextReads(n: int)
    requires 0 <= n <= U64_MAX
    ensures ParseU64(IntText(n)) == Some(n)
  {
    var d := Names.Digits(n);
    Names.DigitsValue(n);
    assert AllDigits(d) && Names.IsDigit(d[0]);
  }

  predicate Numeral(c: char) { c == '-' || Names.IsDigit(c) }

  lemma IntTextChars(n: int)
    ensures IntText(n) != [] && forall i :: 0 <= i < |IntText(n)| ==> Numeral(IntText(n)[i])
  {
    var d := Names.Digits(if n < 0 then -n else n);
    if n < 0 { assert forall i :: 0 <= i < |d| ==> IntText(n)[i + 1] == d[i]; }
  }

  // ----- values

  /** A value ends at a comma, a blank, or the end of the line. */
  predicate AfterValue(rest: string) { rest == [] || EndsToken(rest[0]) }

  /** Fields end at a blank or the end of the line. */
  predicate AfterFields(rest: string) { rest == [] || rest[0] == ' ' }

  lemma {:induction false} TokenReads(tok: string, rest: string)
    requires (forall i :: 0 <= i < |tok| ==> !EndsToken(tok[i])) && AfterValue(rest)
    ensures Token(tok + rest) == (tok, rest)
  {
    if tok == [] {
      assert tok + rest == rest;
    } else {
      TokenReads(tok[1..], rest);
      assert (tok + rest)[1..] == tok[1..] + rest && tok == [tok[0]] + tok[1..];
    }
  }

  lemma QuotePair(c: char, more: string)
    ensures Quoted(['\\', c] + more) == Prefixed([c], Quoted(more))
  {
    var t := ['\\', c] + more;
    assert t[0] == '\\' && t[1] == c && t[2..] == more;
  }

  lemma QuotePlain(c: char, more: string)
    requires c != '"' && c != '\\'
    ensures Quoted([c] + more) == Prefixed([c], Quoted(more))
  {
    var t := [c] + more;
    assert t[0] == c && t[1..] == more;
  }

  lemma {:induction false} QuotedReads(s: string, rest: string)
    ensures Quoted(EscapeQuotes(s) + (['"'] + rest)) == Some((s, rest))
  {
    var end := ['"'] + rest;
    if s == [] {
      assert EscapeQuotes(s) + end == end && end[1..] == rest;
    } else {
      QuotedReads(s[1..], rest);
      var c := if s[0] == '"' || s[0] == '\\' then ['\\', s[0]] else [s[0]];
      ConcatAssoc(c, EscapeQuotes(s[1..]), end);
      if |c| == 2 { QuotePair(s[0], EscapeQuotes(s[1..]) + end); } else { QuotePlain(s[0], EscapeQuotes(s[1..]) + end); }
      assert s == [s[0]] + s[1..];
    }
  }

  lemma StringReads(floats: FloatReader, s: string, rest: string)
    ensures FieldVal(floats, ValueText(Str(s)) + rest) == Ok((Str(s), rest))
  {
    var t, inner := ValueText(Str(s)) + rest, EscapeQuotes(s) + (['"'] + rest);
    ConcatAssoc(['"'] + EscapeQuotes(s), ['"'], rest);
    ConcatAssoc(['"'], EscapeQuotes(s), ['"'] + rest);
    assert t[0] == '"' && t[1..] == inner;
    QuotedReads(s, rest);
  }

  lemma PlainReads(floats: FloatReader, tok: string, rest: string)
    requires tok != [] && tok[0] != '"' && (forall i :: 0 <= i < |tok| ==> !EndsToken(tok[i])) && AfterValue(rest)
    requires TokenValue(floats, tok).Ok?
    ensures FieldVal(floats, tok + rest) == Ok((TokenValue(floats, tok).value, rest))
  {
    assert (tok + rest)[0] == tok[0];
    TokenReads(tok, rest);
  }

  /** Every value, whatever its characters, reads back as itself. */
  lemma ValueReads(floats: FloatReader, v: FieldValue, rest: string)
    requires ValueOk(floats, v) && AfterValue(rest)
    ensures FieldVal(floats, ValueText(v) + rest) == Ok((v, rest))
  {
    match v
    case Str(s) => StringReads(floats, s, rest);
    case Float(token) => PlainReads(floats, token, rest);
    case Int(n) => NumberReads(floats, n, 'i', rest);
    case UInt(n) => NumberReads(floats, n, 'u', rest);
    case Bool(b) => PlainReads(floats, ValueText(v), rest);
  }

  lemma NumberReads(floats: FloatReader, n: int, suffix: char, rest: string)
    requires AfterValue(rest)
    requires (suffix == 'i' && I64_MIN <= n <= I64_MAX) || (suffix == 'u' && 0 <= n <= U64_MAX)
    ensures FieldVal(floats, (IntText(n) + [suffix]) + rest) == Ok((if suffix == 'i' then Int(n) else UInt(n), rest))
  {
    var tok := IntText(n) + [suffix];
    IntTextChars(n);
    assert tok[0] == IntText(n)[0] && Numeral(tok[0]);
    assert forall i :: 0 <= i < |IntText(n)| ==> tok[i] == IntText(n)[i];
    assert Init(tok) == IntText(n) && Last(tok) == suffix;
    if suffix == 'i' { IntTextReads(n); } else { UIntTextReads(n); }
    NotBoolean(tok);
    PlainReads(floats, tok, rest);
  }

  lemma NotBoolean(tok: string)
    requires tok != [] && (Last(tok) == 'i' || Last(tok) == 'u')
    ensures tok !in TRUES && tok !in FALSES
  {
  }

  // ----- tags

  predicate KeyOk(k: string) { NameOk(Key, k) && k != "time" }

  predicate TagOk(t: (string, string)) { KeyOk(t.0) && NameOk(TagValue, t.1) }

  predicate TagsOk(tags: Tags) { forall i :: 0 <= i < |tags| ==> TagOk(tags[i]) }

  function TagText(k: string, v: string, rest: string): string {
    [','] + (Escape(Key, k) + (['='] + (Escape(TagValue, v) + rest)))
  }

  /** One tag at the front: it reads back exactly when its key and value survive. */
  lemma TagReads(k: string, v: string, rest: string)
    requires Delimited(TagValue, rest) && TagOk((k, v))
    ensures ParseTags(TagText(k, v, rest)) == Before([(k, v)], ParseTags(rest))
  {
    var after := Escape(TagValue, v) + rest;
    assert TagText(k, v, rest)[1..] == Escape(Key, k) + (['='] + after) && (['='] + after)[1..] == after;
    NameRoundTrip(Key, k, ['='] + after);
    NameRoundTrip(TagValue, v, rest);
  }

  lemma OnlyTagOk(k: string, v: string, rest: string)
    requires Delimited(TagValue, rest)
    requires var r := ParseTags(TagText(k, v, rest)); r.Ok? && r.value.0 != [] && r.value.0[0] == (k, v)
    ensures TagOk((k, v))
  {
    var after := Escape(TagValue, v) + rest;
    assert TagText(k, v, rest)[1..] == Escape(Key, k) + (['='] + after) && (['='] + after)[1..] == after;
    NameSurvivesIff(Key, k, ['='] + after);
    NameSurvivesIff(TagValue, v, rest);
  }

  lemma TagsTextHead(tags: Tags, rest: string)
    requires Begins(rest, ' ')
    ensures Delimited(TagValue, TagsText(tags) + rest) && Delimited(Measurement, TagsText(tags) + rest)
  {
    if tags == [] { assert TagsText(tags) + rest == rest; }
  }

  lemma TagsTextCons(tags: Tags, rest: string)
    requires tags != []
    ensures TagsText(tags) + rest ==
            [','] + (Escape(Key, tags[0].0) + (['='] + (Escape(TagValue, tags[0].1) + (TagsText(tags[1..]) + rest))))
  {
    Regroup([','], Escape(Key, tags[0].0), ['='], Escape(TagValue, tags[0].1), TagsText(tags[1..]), rest);
  }

  lemma Regroup(a: string, b: string, c: string, d: string, e: string, rest: string)
    ensures (a + (b + (c + (d + e)))) + rest == a + (b + (c + (d + (e + rest))))
  {
  }

  lemma ConsOk<T>(x: T, xs: seq<T>, ys: seq<T>)
    ensures [x] + xs == ys ==> ys != [] && ys[0] == x && ys[1..] == xs
  {
  }

  lemma {:induction false} TagsRead(tags: Tags, rest: string)
    requires Begins(rest, ' ') && TagsOk(tags)
    ensures ParseTags(TagsText(tags) + rest) == Ok((tags, rest))
  {
    if tags == [] {
      assert TagsText(tags) + rest == rest;
    } else {
      TagsRead(tags[1..], rest);
      TagsTextHead(tags[1..], rest);
      TagsTextCons(tags, rest);
      assert TagOk(tags[0]);
      TagReads(tags[0].0, tags[0].1, TagsText(tags[1..]) + rest);
      assert tags == [tags[0]] + tags[1..];
    }
  }

  lemma {:induction false} OnlyTagsOk(tags: Tags, rest: string)
    requires Begins(rest, ' ')
    requires ParseTags(TagsText(tags) + rest).Ok? && ParseTags(TagsText(tags) + rest).value.0 == tags
    ensures TagsOk(tags)
  {
    if tags != [] {
      var t, more := tags[0], TagsText(tags[1..]) + rest;
      TagsTextHead(tags[1..], rest);
      TagsTextCons(tags, rest);
      OnlyTagOk(t.0, t.1, more);
      TagReads(t.0, t.1, more);
      ConsOk(t, ParseTags(more).value.0, tags);
      OnlyTagsOk(tags[1..], rest);
      assert tags == [t] + tags[1..];
    }
  }

  // ----- fields

  predicate FieldsOk(fields: Fields) { forall i :: 0 <= i < |fields| ==> KeyOk(fields[i].0) }

  predicate ValuesOk(floats: FloatReader, fields: Fields) { forall i :: 0 <= i < |fields| ==> ValueOk(floats, fields[i].1) }

  lemma FieldReads(floats: FloatReader, k: string, v: FieldValue, rest: string)
    requires ValueOk(floats, v) && AfterValue(rest) && KeyOk(k)
    ensures var r := ParseFields(floats, Escape(Key, k) + (['='] + (ValueText(v) + rest)));
            if Begins(rest, ',') then r == Before([(k, v)], ParseFields(floats, rest[1..])) else r == Ok(([(k, v)], rest))
  {
    var after := ValueText(v) + rest;
    assert (['='] + after)[1..] == after;
    NameSurvivesIff(Key, k, ['='] + after);
    ValueReads(floats, v, rest);
  }

  lemma OnlyKeyOk(floats: FloatReader, k: string, v: FieldValue, rest: string)
    requires var r := ParseFields(floats, Escape(Key, k) + (['='] + (ValueText(v) + rest)));
             r.Ok? && r.value.0 != [] && r.value.0[0].0 == k
    ensures KeyOk(k)
  {
    NameSurvivesIff(Key, k, ['='] + (ValueText(v) + rest));
  }

  lemma MoreFieldsHead(fields: Fields, rest: string)
    requires AfterFields(rest)
    ensures AfterValue(MoreFields(fields) + rest)
    ensures fields == [] ==> MoreFields(fields) + rest == rest
    ensures fields != [] ==> Begins(MoreFields(fields) + rest, ',') && (MoreFields(fields) + rest)[1..] == FieldsText(fields) + rest
  {
    if fields != [] {
      ConcatAssoc([','], FieldsText(fields), rest);
      assert ([','] + (FieldsText(fields) + rest))[1..] == FieldsText(fields) + rest;
    }
  }

  lemma FieldsTextCons(fields: Fields, rest: string)
    requires fields != []
    ensures FieldsText(fields) + rest ==
            Escape(Key, fields[0].0) + (['='] + (ValueText(fields[0].1) + (MoreFields(fields[1..]) + rest)))
  {
    Regroup4(Escape(Key, fields[0].0), ['='], ValueText(fields[0].1), MoreFields(fields[1..]), rest);
  }

  lemma Regroup4(a: string, b: string, c: string, d: string, rest: string)
    ensures ((a + (b + c)) + d) + rest == a + (b + (c + (d + rest)))
  {
  }

  lemma {:induction false} FieldsRead(floats: FloatReader, fields: Fields, rest: string)
    requires fields != [] && FieldsOk(fields) && ValuesOk(floats, fields) && AfterFields(rest)
    ensures ParseFields(floats, FieldsText(fields) + rest) == Ok((fields, rest))
  {
    var f, tail := fields[0], fields[1..];
    var more := MoreFields(tail) + rest;
    MoreFieldsHead(tail, rest);
    FieldsTextCons(fields, rest);
    FieldReads(floats, f.0, f.1, more);
    assert fields == [f] + tail;
    if tail != [] {
      FieldsRead(floats, tail, rest);
    } else {
      assert [f] + [] == [f];
    }
  }

  lemma {:induction false} OnlyFieldsOk(floats: FloatReader, fields: Fields, rest: string)
    requires fields != [] && ValuesOk(floats, fields) && Begins(rest, ' ')
    requires ParseFields(floats, FieldsText(fields) + rest).Ok? && ParseFields(floats, FieldsText(fields) + rest).value.0 == fields
    ensures FieldsOk(fields)
  {
    var f, tail := fields[0], fields[1..];
    var more := MoreFields(tail) + rest;
    MoreFieldsHead(tail, rest);
    FieldsTextCons(fields, rest);
    OnlyKeyOk(floats, f.0, f.1, more);
    FieldReads(floats, f.0, f.1, more);
    assert fields == [f] + tail;
    if tail != [] {
      ConsOk(f, ParseFields(floats, FieldsText(tail) + rest).value.0, fields);
      OnlyFieldsOk(floats, tail, rest);
    }
  }

  // ----- timestamps and bodies

  lemma StampReads(ts: int, default: int)
    requires I64_MIN <= ts <= I64_MAX
    ensures ParseStamp([' '] + IntText(ts), 1, default) == Ok(ts)
  {
    var t := IntText(ts);
    IntTextChars(ts);
    assert Numeral(t[0]) && Numeral(Last(t));
    IntTextReads(ts);
    NoTrim(t);
    assert ([' '] + t)[1..] == t;
  }

  lemma NoTrim(t: string)
    requires t != [] && !IsSpace(t[0]) && !IsSpace(Last(t))
    ensures TrimEnd(TrimStart(t)) == t
  {
  }

  function BodyText(l: Line): string { [' '] + (FieldsText(l.fields) + ([' '] + IntText(l.timestamp))) }

  lemma BodyReadsIff(floats: FloatReader, l: Line, default: int)
    requires Typed(floats, l)
    ensures var r := ParseBody(floats, BodyText(l), 1, default);
            && (l.fields != [] && FieldsOk(l.fields) ==> r == Ok((l.fields, l.timestamp)))
            && (r.Ok? && r.value.0 == l.fields ==> l.fields != [] && FieldsOk(l.fields))
  {
    var rest := [' '] + IntText(l.timestamp);
    assert BodyText(l)[1..] == FieldsText(l.fields) + rest;
    StampReads(l.timestamp, default);
    assert ValuesOk(floats, l.fields);
    if l.fields == [] {
      assert FieldsText(l.fields) + rest == rest;
      TakeEnd(Key, rest);
    } else {
      if FieldsOk(l.fields) { FieldsRead(floats, l.fields, rest); }
      var r := ParseFields(floats, FieldsText(l.fields) + rest);
      if r.Ok? && r.value.0 == l.fields { OnlyFieldsOk(floats, l.fields, rest); }
    }
  }

  // ----- lines

  /** A line's names survive. */
  predicate LineOk(l: Line) {
    l.table != [] && NameOk(Measurement, l.table) && TagsOk(l.tags) && l.fields != [] && FieldsOk(l.fields)
  }

  lemma LineReads(floats: FloatReader, l: Line, default: int)
    requires Typed(floats, l) && LineOk(l)
    ensures ParseLine(floats, LineText(l), 1, default) == Ok(l)
  {
    var body := BodyText(l);
    TagsTextHead(l.tags, body);
    NameRoundTrip(Measurement, l.table, TagsText(l.tags) + body);
    BodyReadsIff(floats, l, default);
    TagsRead(l.tags, body);
  }

  lemma OnlyLineOk(floats: FloatReader, l: Line, default: int)
    requires Typed(floats, l) && ParseLine(floats, LineText(l), 1, default) == Ok(l)
    ensures LineOk(l)
  {
    var body := BodyText(l);
    TagsTextHead(l.tags, body);
    NameSurvivesIff(Measurement, l.table, TagsText(l.tags) + body);
    OnlyTagsOk(l.tags, body);
    TagsRead(l.tags, body);
    BodyReadsIff(floats, l, default);
  }

  lemma LineReadsIff(floats: FloatReader, l: Line, default: int)
    requires Typed(floats, l)
    ensures ParseLine(floats, LineText(l), 1, default) == Ok(l) <==> LineOk(l)
  {
    if LineOk(l) { LineReads(floats, l, default); } else if ParseLine(floats, LineText(l), 1, default) == Ok(l) { OnlyLineOk(floats, l, default); }
  }

  // ----- request bodies: forward

  predicate NoBreak(s: string) { '\n' !in s }

  predicate TagBreakFree(t: (string, string)) { NoBreak(t.0) && NoBreak(t.1) }

  predicate FieldBreakFree(f: (string, FieldValue)) { NoBreak(f.0) && (f.1.Str? ==> NoBreak(f.1.s)) }

  /** No name and no string holds a line break. */
  predicate BreakFree(l: Line) {
    && NoBreak(l.table)
    && (forall i :: 0 <= i < |l.tags| ==> TagBreakFree(l.tags[i]))
    && (forall i :: 0 <= i < |l.fields| ==> FieldBreakFree(l.fields[i]))
  }

  lemma {:induction false} EscapeBreakFree(p: Place, s: string)
    requires NoBreak(s)
    ensures NoBreak(Escape(p, s))
  {
    if s != [] { EscapeBreakFree(p, s[1..]); }
  }

  lemma {:induction false} QuotesBreakFree(s: string)
    requires NoBreak(s)
    ensures NoBreak(EscapeQuotes(s))
  {
    if s != [] { QuotesBreakFree(s[1..]); }
  }

  lemma NumberBreakFree(n: int)
    ensures NoBreak(IntText(n))
  {
    IntTextChars(n);
  }

  lemma FieldTextBreakFree(floats: FloatReader, f: (string, FieldValue))
    requires FieldBreakFree(f) && ValueOk(floats, f.1)
    ensures NoBreak(FieldText(f))
  {
    EscapeBreakFree(Key, f.0);
    match f.1
    case Str(s) => QuotesBreakFree(s);
    case Float(_) =>
    case Int(n) => NumberBreakFree(n);
    case UInt(n) => NumberBreakFree(n);
    case Bool(_) =>
  }

  lemma {:induction false} MoreFieldsBreakFree(floats: FloatReader, fields: Fields)
    requires ValuesOk(floats, fields) && forall i :: 0 <= i < |fields| ==> FieldBreakFree(fields[i])
    ensures NoBreak(MoreFields(fields)) && NoBreak(FieldsText(fields))
  {
    if fields != [] {
      FieldTextBreakFree(floats, fields[0]);
      MoreFieldsBreakFree(floats, fields[1..]);
    }
  }

  lemma {:induction false} TagsBreakFree(tags: Tags)
    requires forall i :: 0 <= i < |tags| ==> TagBreakFree(tags[i])
    ensures NoBreak(TagsText(tags))
  {
    if tags != [] {
      EscapeBreakFree(Key, tags[0].0);
      EscapeBreakFree(TagValue, tags[0].1);
      TagsBreakFree(tags[1..]);
    }
  }

  lemma LineBreakFree(floats: FloatReader, l: Line)
    requires BreakFree(l) && Typed(floats, l)
    ensures NoBreak(LineText(l))
  {
    EscapeBreakFree(Measurement, l.table);
    TagsBreakFree(l.tags);
    assert ValuesOk(floats, l.fields);
    MoreFieldsBreakFree(floats, l.fields);
    NumberBreakFree(l.timestamp);
  }

  lemma {:induction false} BreakAt(a: string, rest: string)
    requires NoBreak(a)
    ensures FirstBreak(a + (['\n'] + rest)) == |a|
  {
    if a == [] {
      assert a + (['\n'] + rest) == ['\n'] + rest;
    } else {
      BreakAt(a[1..], rest);
      assert (a + (['\n'] + rest))[1..] == a[1..] + (['\n'] + rest);
    }
  }

  lemma OneLine(a: string, rest: string)
    requires NoBreak(a)
    ensures Lines(a + (['\n'] + rest)) == [a] + Lines(rest)
  {
    var t := a + (['\n'] + rest);
    BreakAt(a, rest);
    assert t[..|a|] == a && t[|a| + 1..] == rest;
  }

  function Texts(rows: seq<Line>): seq<string> { Map(rows, LineText) }

  lemma {:induction false} LinesOfJoined(ts: seq<string>)
    requires forall i :: 0 <= i < |ts| ==> NoBreak(ts[i])
    ensures Lines(Joined(ts)) == ts
  {
    if ts != [] {
      LinesOfJoined(ts[1..]);
      OneLine(ts[0], Joined(ts[1..]));
      assert ts == [ts[0]] + ts[1..];
    }
  }

  lemma LinesOfText(floats: FloatReader, rows: seq<Line>)
    requires forall i :: 0 <= i < |rows| ==> BreakFree(rows[i]) && Typed(floats, rows[i])
    ensures Lines(Text(rows)) == Texts(rows)
  {
    var ts := Texts(rows);
    forall i | 0 <= i < |ts| ensures NoBreak(ts[i]) { LineBreakFree(floats, rows[i]); }
    LinesOfJoined(ts);
  }

  /** A printed line has nothing to strip, and is silent only if it starts a comment. */
  lemma PrintedLine(l: Line)
    ensures StripReturns(LineText(l)) == LineText(l)
    ensures Silent(LineText(l)) <==> l.table != [] && l.table[0] == '#'
  {
    IntTextChars(l.timestamp);
    var body, n := BodyText(l), IntText(l.timestamp);
    assert Last(LineText(l)) == Last(n) && Numeral(Last(n));
    TagsTextHead(l.tags, body);
    EscapeHead(Measurement, l.table, TagsText(l.tags) + body);
  }
}
