/** Line protocol: the parser and the printer of measurement rows. */
module LineProtocol {
  import opened Basics
  import opened Escapes
  import Names

  /** Floats are kept as their canonical decimal text. */
  datatype FieldValue = Float(token: string) | Int(i: int) | UInt(u: int) | Bool(b: bool) | Str(s: string)

  datatype Line = Line(table: string, tags: seq<(string, string)>, fields: seq<(string, FieldValue)>, timestamp: int)

  datatype LineError = EmptyMeasurement | TagHasNoValue(key: string) | ReservedKey(key: string) | NoFieldSet
                     | FieldHasNoValue(key: string) | UnterminatedString | EmptyValue | BadInteger(token: string)
                     | BadUInteger(token: string) | BadFloat(token: string) | BadTimestamp(token: string) | TimestampOverflow

  /** `str::parse::<f64>`, as the canonical text of the number read. */
  type FloatReader = string -> Option<string>

  // ----- numbers

  predicate AllDigits(s: string) { s != [] && forall i :: 0 <= i < |s| ==> Names.IsDigit(s[i]) }

  function Magnitude(s: string): Option<nat> { if AllDigits(s) then Some(Names.DecimalValue(s)) else None }

  /** `str::parse::<i64>`: an optional sign, digits, no overflow. */
  function ParseI64(s: string): Option<int> {
    var neg := s != [] && s[0] == '-';
    var m := Magnitude(if s != [] && (s[0] == '-' || s[0] == '+') then s[1..] else s);
    if m.None? then None
    else
      var v: int := if neg then 0 - m.value else m.value;
      if I64_MIN <= v <= I64_MAX then Some(v) else None
  }

  function ParseU64(s: string): Option<int> {
    var m := Magnitude(if s != [] && s[0] == '+' then s[1..] else s);
    if m.Some? && m.value <= U64_MAX then Some(m.value) else None
  }

  function IntText(n: int): string { if n < 0 then ['-'] + Names.Digits(-n) else Names.Digits(n) }

  // ----- field values

  /** The string after its opening quote: a backslash escapes whatever follows it. */
  function Quoted(t: string): (r: Option<(string, string)>)
    ensures r.Some? ==> |r.value.1| < |t|
  {
    if t == [] then None
    else if t[0] == '\\' && |t| > 1 then
      var r := Quoted(t[2..]); if r.None? then None else Some(([t[1]] + r.value.0, r.value.1))
    else if t[0] == '"' then Some(([], t[1..]))
    else var r := Quoted(t[1..]); if r.None? then None else Some(([t[0]] + r.value.0, r.value.1))
  }

  predicate EndsToken(c: char) { c == ',' || c == ' ' }

  function Token(t: string): (r: (string, string))
    ensures |r.1| <= |t|
  {
    if t == [] || EndsToken(t[0]) then ([], t) else var r := Token(t[1..]); ([t[0]] + r.0, r.1)
  }

  const TRUES: set<string> := {"t", "T", "true", "True", "TRUE"}
  const FALSES: set<string> := {"f", "F", "false", "False", "FALSE"}

  function TokenValue(floats: FloatReader, tok: string): Result<FieldValue, LineError> {
    if tok == [] then Err(EmptyValue)
    else if tok in TRUES then Ok(Bool(true))
    else if tok in FALSES then Ok(Bool(false))
    else if Last(tok) == 'i' then
      var n := ParseI64(Init(tok)); if n.None? then Err(BadInteger(tok)) else Ok(Int(n.value))
    else if Last(tok) == 'u' then
      var n := ParseU64(Init(tok)); if n.None? then Err(BadUInteger(tok)) else Ok(UInt(n.value))
    else
      var x := floats(tok); if x.None? then Err(BadFloat(tok)) else Ok(Float(x.value))
  }

  function FieldVal(floats: FloatReader, t: string): (r: Result<(FieldValue, string), LineError>)
    ensures r.Ok? ==> |r.value.1| <= |t|
  {
    if t != [] && t[0] == '"' then
      var q := Quoted(t[1..]);
      if q.None? then Err(UnterminatedString) else Ok((Str(q.value.0), q.value.1))
    else
      var tok := Token(t);
      var v := TokenValue(floats, tok.0);
      if v.Err? then Err(v.error) else Ok((v.value, tok.1))
  }

  // ----- tags and fields

  type Tags = seq<(string, string)>
  type Fields = seq<(string, FieldValue)>

  predicate Begins(t: string, c: char) { t != [] && t[0] == c }

  function Before<T, E>(xs: seq<T>, r: Result<(seq<T>, string), E>): Result<(seq<T>, string), E> {
    if r.Err? then r else Ok((xs + r.value.0, r.value.1))
  }

  function ParseTags(t: string): Result<(Tags, string), LineError>
    decreases |t|
  {
    if !Begins(t, ',') then Ok(([], t))
    else
      var k := Unescape(Key, t[1..]);
      if !Begins(k.1, '=') then Err(TagHasNoValue(k.0))
      else if k.0 == "time" then Err(ReservedKey(k.0))
      else
        var v := Unescape(TagValue, k.1[1..]);
        Before([(k.0, v.0)], ParseTags(v.1))
  }

  function ParseFields(floats: FloatReader, t: string): Result<(Fields, string), LineError>
    decreases |t|
  {
    var k := Unescape(Key, t);
    if !Begins(k.1, '=') then Err(FieldHasNoValue(k.0))
    else if k.0 == "time" then Err(ReservedKey(k.0))
    else
      var v := FieldVal(floats, k.1[1..]);
      if v.Err? then Err(v.error)
      else if Begins(v.value.1, ',') then Before([(k.0, v.value.0)], ParseFields(floats, v.value.1[1..]))
      else Ok(([(k.0, v.value.0)], v.value.1))
  }

  // ----- timestamps and lines

  function TrimStart(t: string): string { if t != [] && IsSpace(t[0]) then TrimStart(t[1..]) else t }

  function TrimEnd(t: string): string { if t != [] && IsSpace(Last(t)) then TrimEnd(Init(t)) else t }

  function ParseStamp(t: string, mult: int, default: int): Result<int, LineError> {
    if !Begins(t, ' ') then Ok(default)
    else
      var ts := TrimEnd(TrimStart(t[1..]));
      if ts == [] then Ok(default)
      else
        var n := ParseI64(ts);
        if n.None? then Err(BadTimestamp(ts))
        else if I64_MIN <= n.value * mult <= I64_MAX then Ok(n.value * mult)
        else Err(TimestampOverflow)
  }

  /** The field set and the timestamp. */
  function ParseBody(floats: FloatReader, t: string, mult: int, default: int): Result<(Fields, int), LineError> {
    if !Begins(t, ' ') then Err(NoFieldSet)
    else
      var fields := ParseFields(floats, t[1..]);
      if fields.Err? then Err(fields.error)
      else
        var ts := ParseStamp(fields.value.1, mult, default);
        if ts.Err? then Err(ts.error) else Ok((fields.value.0, ts.value))
  }

  function ParseLine(floats: FloatReader, t: string, mult: int, default: int): Result<Line, LineError> {
    var name := Unescape(Measurement, t);
    if name.0 == [] then Err(EmptyMeasurement)
    else
      var tags := ParseTags(name.1);
      if tags.Err? then Err(tags.error)
      else
        var body := ParseBody(floats, tags.value.1, mult, default);
        if body.Err? then Err(body.error) else Ok(Line(name.0, tags.value.0, body.value.0, body.value.1))
  }

  // ----- the parser as it runs

  method TakeQuoted(line: string, pos: nat) returns (r: Result<string, LineError>, pos': nat)
    requires pos <= |line|
    ensures pos <= pos' <= |line|
    ensures r.Err? ==> r == Err(UnterminatedString) && Quoted(line[pos..]).None?
    ensures r.Ok? ==> Quoted(line[pos..]) == Some((r.value, line[pos'..]))
  {
    var buf := "";
    pos' := pos;
    assert Prefixed([], Quoted(line[pos..])) == Quoted(line[pos..]) by { PrefixedNone(Quoted(line[pos..])); }
    while pos' < |line|
      invariant pos <= pos' <= |line|
      invariant Quoted(line[pos..]) == Prefixed(buf, Quoted(line[pos'..]))
    {
      ghost var t := line[pos'..];
      assert t[1..] == line[pos' + 1..];
      if line[pos'] == '\\' && pos' + 1 < |line| {
        assert t[2..] == line[pos' + 2..];
        PrefixedMore(buf, line[pos' + 1], Quoted(t[2..]));
        buf, pos' := buf + [line[pos' + 1]], pos' + 2;
      } else if line[pos'] == '"' {
        assert buf + [] == buf;
        return Ok(buf), pos' + 1;
      } else {
        PrefixedMore(buf, line[pos'], Quoted(t[1..]));
        buf, pos' := buf + [line[pos']], pos' + 1;
      }
    }
    r := Err(UnterminatedString);
  }

  function Prefixed(buf: string, r: Option<(string, string)>): Option<(string, string)> {
    if r.None? then None else Some((buf + r.value.0, r.value.1))
  }

  lemma PrefixedNone(r: Option<(string, string)>)
    ensures Prefixed([], r) == r
  {
    if r.Some? { assert [] + r.value.0 == r.value.0; }
  }

  lemma PrefixedMore(buf: string, c: char, r: Option<(string, string)>)
    ensures Prefixed(buf, Prefixed([c], r)) == Prefixed(buf + [c], r)
  {
    if r.Some? { ConcatAssoc(buf, [c], r.value.0); }
  }

  method TakeFieldValue(floats: FloatReader, line: string, pos: nat) returns (r: Result<FieldValue, LineError>, pos': nat)
    requires pos <= |line|
    ensures pos <= pos' <= |line|
    ensures r.Err? ==> FieldVal(floats, line[pos..]) == Err(r.error)
    ensures r.Ok? ==> FieldVal(floats, line[pos..]) == Ok((r.value, line[pos'..]))
  {
    if pos < |line| && line[pos] == '"' {
      assert line[pos..][1..] == line[pos + 1..];
      var s;
      s, pos' := TakeQuoted(line, pos + 1);
      return if s.Err? then Err(s.error) else Ok(Str(s.value)), pos';
    }
    var tok;
    tok, pos' := TakeToken(line, pos);
    r := TokenValue(floats, tok);
  }

  method TakeToken(line: string, pos: nat) returns (tok: string, pos': nat)
    requires pos <= |line|
    ensures pos <= pos' <= |line|
    ensures (tok, line[pos'..]) == Token(line[pos..])
  {
    tok, pos' := [], pos;
    assert [] + Token(line[pos..]).0 == Token(line[pos..]).0;
    while pos' < |line| && !EndsToken(line[pos'])
      invariant pos <= pos' <= |line|
      invariant Token(line[pos..]) == (tok + Token(line[pos'..]).0, Token(line[pos'..]).1)
    {
      assert line[pos'..][1..] == line[pos' + 1..];
      Shift(tok, line[pos'], Token(line[pos' + 1..]).0);
      tok, pos' := tok + [line[pos']], pos' + 1;
    }
    assert tok + [] == tok;
  }

  lemma BeforeNone<T, E>(r: Result<(seq<T>, string), E>)
    ensures Before([], r) == r
  {
    if r.Ok? { assert [] + r.value.0 == r.value.0; }
  }

  lemma BeforeMore<T, E>(xs: seq<T>, x: T, r: Result<(seq<T>, string), E>)
    ensures Before(xs, Before([x], r)) == Before(xs + [x], r)
  {
    if r.Ok? { ConcatAssoc(xs, [x], r.value.0); }
  }

  method TakeTag(line: string, pos: nat) returns (r: Result<(string, string), LineError>, pos': nat)
    requires pos < |line| && line[pos] == ','
    ensures pos < pos' <= |line|
    ensures r.Err? ==> ParseTags(line[pos..]) == Err(r.error)
    ensures r.Ok? ==> ParseTags(line[pos..]) == Before([r.value], ParseTags(line[pos'..]))
  {
    assert line[pos..][1..] == line[pos + 1..];
    var key, p := TakeEscaped(line, pos + 1, Key);
    pos' := p;
    if p >= |line| || line[p] != '=' { return Err(TagHasNoValue(key)), p; }
    if key == "time" { return Err(ReservedKey(key)), p; }
    assert line[p..][1..] == line[p + 1..];
    var val;
    val, pos' := TakeEscaped(line, p + 1, TagValue);
    r := Ok((key, val));
  }

  method TakeTags(line: string, pos: nat) returns (r: Result<Tags, LineError>, pos': nat)
    requires pos <= |line|
    ensures pos <= pos' <= |line|
    ensures r.Err? ==> ParseTags(line[pos..]) == Err(r.error)
    ensures r.Ok? ==> ParseTags(line[pos..]) == Ok((r.value, line[pos'..]))
  {
    var tags: Tags := [];
    pos' := pos;
    BeforeNone(ParseTags(line[pos..]));
    while pos' < |line| && line[pos'] == ','
      invariant pos <= pos' <= |line|
      invariant ParseTags(line[pos..]) == Before(tags, ParseTags(line[pos'..]))
    {
      var tag, q := TakeTag(line, pos');
      if tag.Err? { return Err(tag.error), pos'; }
      BeforeMore(tags, tag.value, ParseTags(line[q..]));
      tags, pos' := tags + [tag.value], q;
    }
    assert tags + [] == tags;
    r := Ok(tags);
  }

  method TakeField(floats: FloatReader, line: string, pos: nat) returns (r: Result<(string, FieldValue), LineError>, pos': nat)
    requires pos <= |line|
    ensures pos <= pos' <= |line|
    ensures r.Err? ==> ParseFields(floats, line[pos..]) == Err(r.error)
    ensures r.Ok? && Begins(line[pos'..], ',') ==>
              ParseFields(floats, line[pos..]) == Before([r.value], ParseFields(floats, line[pos'..][1..]))
    ensures r.Ok? && !Begins(line[pos'..], ',') ==> ParseFields(floats, line[pos..]) == Ok(([r.value], line[pos'..]))
  {
    var key, p := TakeEscaped(line, pos, Key);
    pos' := p;
    if p >= |line| || line[p] != '=' { return Err(FieldHasNoValue(key)), p; }
    if key == "time" { return Err(ReservedKey(key)), p; }
    assert line[p..][1..] == line[p + 1..];
    var val;
    val, pos' := TakeFieldValue(floats, line, p + 1);
    if val.Err? { return Err(val.error), p; }
    r := Ok((key, val.value));
  }

  method TakeFields(floats: FloatReader, line: string, pos: nat) returns (r: Result<Fields, LineError>, pos': nat)
    requires pos <= |line|
    ensures pos <= pos' <= |line|
    ensures r.Err? ==> ParseFields(floats, line[pos..]) == Err(r.error)
    ensures r.Ok? ==> ParseFields(floats, line[pos..]) == Ok((r.value, line[pos'..]))
  {
    var fields: Fields := [];
    pos' := pos;
    BeforeNone(ParseFields(floats, line[pos..]));
    while true
      invariant pos <= pos' <= |line|
      invariant ParseFields(floats, line[pos..]) == Before(fields, ParseFields(floats, line[pos'..]))
      decreases |line| - pos'
    {
      var field, q := TakeField(floats, line, pos');
      if field.Err? { return Err(field.error), pos'; }
      if q == |line| || line[q] != ',' { return Ok(fields + [field.value]), q; }
      assert line[q..][1..] == line[q + 1..];
      BeforeMore(fields, field.value, ParseFields(floats, line[q + 1..]));
      fields, pos' := fields + [field.value], q + 1;
    }
  }

  method TakeBody(floats: FloatReader, line: string, pos: nat, mult: int, default: int)
    returns (r: Result<(Fields, int), LineError>)
    requires pos <= |line|
    ensures r == ParseBody(floats, line[pos..], mult, default)
  {
    if pos == |line| || line[pos] != ' ' { return Err(NoFieldSet); }
    assert line[pos..][1..] == line[pos + 1..];
    var fields, p := TakeFields(floats, line, pos + 1);
    if fields.Err? { return Err(fields.error); }
    var ts := ParseStamp(line[p..], mult, default);
    r := if ts.Err? then Err(ts.error) else Ok((fields.value, ts.value));
  }

  method ParseOne(floats: FloatReader, line: string, mult: int, default: int) returns (r: Result<Line, LineError>)
    ensures r == ParseLine(floats, line, mult, default)
  {
    assert line[0..] == line;
    var table, p := TakeEscaped(line, 0, Measurement);
    if table == [] { return Err(EmptyMeasurement); }
    var tags, q := TakeTags(line, p);
    if tags.Err? { return Err(tags.error); }
    var body := TakeBody(floats, line, q, mult, default);
    r := if body.Err? then Err(body.error) else Ok(Line(table, tags.value, body.value.0, body.value.1));
  }

  // ----- request bodies

  function FirstBreak(t: string): (n: nat)
    ensures n <= |t| && (n < |t| ==> t[n] == '\n') && forall i :: 0 <= i < n ==> t[i] != '\n'
  {
    if t == [] || t[0] == '\n' then 0 else 1 + FirstBreak(t[1..])
  }

  /** `str::lines`, before carriage returns are stripped. */
  function Lines(t: string): seq<string>
    decreases |t|
  {
    if t == [] then []
    else
      var n := FirstBreak(t);
      [t[..n]] + (if n < |t| then Lines(t[n + 1..]) else [])
  }

  function StripReturns(t: string): string { if t != [] && Last(t) == '\r' then StripReturns(Init(t)) else t }

  /** Blank lines and comments say nothing. */
  predicate Silent(t: string) { t == [] || t[0] == '#' }

  function ParseEach(floats: FloatReader, lines: seq<string>, mult: int, default: int): Result<seq<Line>, (nat, LineError)> {
    if lines == [] then Ok([])
    else
      var before, t := ParseEach(floats, Init(lines), mult, default), StripReturns(Last(lines));
      if before.Err? || Silent(t) then before
      else
        var r := ParseLine(floats, t, mult, default);
        if r.Err? then Err((|lines|, r.error)) else Ok(before.value + [r.value])
  }

  function ParseLines(floats: FloatReader, input: string, mult: int, default: int): Result<seq<Line>, (nat, LineError)> {
    ParseEach(floats, Lines(input), mult, default)
  }

  lemma {:induction false} FailureStays(floats: FloatReader, lines: seq<string>, k: nat, mult: int, default: int)
    requires k <= |lines| && ParseEach(floats, lines[..k], mult, default).Err?
    ensures ParseEach(floats, lines, mult, default) == ParseEach(floats, lines[..k], mult, default)
  {
    if k < |lines| {
      InitPrefix(lines, k);
      FailureStays(floats, Init(lines), k, mult, default);
    } else {
      assert lines[..k] == lines;
    }
  }

  method ParseAll(floats: FloatReader, input: string, mult: int, default: int) returns (r: Result<seq<Line>, (nat, LineError)>)
    ensures r == ParseLines(floats, input, mult, default)
  {
    var lines := Lines(input);
    var out: seq<Line> := [];
    for i := 0 to |lines|
      invariant ParseEach(floats, lines[..i], mult, default) == Ok(out)
    {
      assert Init(lines[..i + 1]) == lines[..i];
      var t := StripReturns(lines[i]);
      if Silent(t) { continue; }
      var one := ParseOne(floats, t, mult, default);
      if one.Err? {
        FailureStays(floats, lines, i + 1, mult, default);
        return Err((i + 1, one.error));
      }
      out := out + [one.value];
    }
    assert lines[..|lines|] == lines;
    r := Ok(out);
  }

  // ----- the printer

  function ValueText(v: FieldValue): string {
    match v
    case Float(token) => token
    case Int(n) => IntText(n) + ['i']
    case UInt(n) => IntText(n) + ['u']
    case Bool(b) => if b then ['t'] else ['f']
    case Str(s) => ['"'] + EscapeQuotes(s) + ['"']
  }

  function TagsText(tags: Tags): string {
    if tags == [] then []
    else [','] + (Escape(Key, tags[0].0) + (['='] + (Escape(TagValue, tags[0].1) + TagsText(tags[1..]))))
  }

  function FieldText(f: (string, FieldValue)): string { Escape(Key, f.0) + (['='] + ValueText(f.1)) }

  function FieldsText(fields: Fields): string {
    if fields == [] then [] else FieldText(fields[0]) + MoreFields(fields[1..])
  }

  /** Fields after the first, each behind its comma. */
  function MoreFields(fields: Fields): string {
    if fields == [] then [] else [','] + (FieldText(fields[0]) + MoreFields(fields[1..]))
  }

  function LineText(l: Line): string {
    Escape(Measurement, l.table) + (TagsText(l.tags) + ([' '] + (FieldsText(l.fields) + ([' '] + IntText(l.timestamp)))))
  }

  /** `to_line_protocol` */
  function Text(rows: seq<Line>): string { Joined(Map(rows, LineText)) }

  /** Each line with its line break. */
  function Joined(ts: seq<string>): string { if ts == [] then [] else ts[0] + (['\n'] + Joined(ts[1..])) }

  // ----- the printer as it runs

  method PushValue(out: string, v: FieldValue) returns (out': string)
    ensures out' == out + ValueText(v)
  {
    match v
    case Float(token) => out' := out + token;
    case Int(n) => out' := out + (IntText(n) + ['i']);
    case UInt(n) => out' := out + (IntText(n) + ['u']);
    case Bool(b) => out' := out + (if b then ['t'] else ['f']);
    case Str(s) =>
      out' := out + ['"'];
      assert s[0..] == s;
      for i := 0 to |s|
        invariant out' + EscapeQuotes(s[i..]) == out + (['"'] + EscapeQuotes(s))
      {
        ghost var rest := EscapeQuotes(s[i + 1..]);
        assert s[i..][1..] == s[i + 1..];
        var c := if s[i] == '"' || s[i] == '\\' then ['\\', s[i]] else [s[i]];
        ConcatAssoc(out', c, rest);
        out' := out' + c;
      }
      assert s[|s|..] == [] && out' + [] == out';
      ConcatAssoc(out, ['"'] + EscapeQuotes(s), ['"']);
      out' := out' + ['"'];
  }

  method PushTags(out: string, tags: Tags) returns (out': string)
    ensures out' == out + TagsText(tags)
  {
    out' := out;
    assert tags[0..] == tags;
    for i := 0 to |tags|
      invariant out' + TagsText(tags[i..]) == out + TagsText(tags)
    {
      assert tags[i..][1..] == tags[i + 1..];
      ghost var a, b, rest := Escape(Key, tags[i].0), Escape(TagValue, tags[i].1), TagsText(tags[i + 1..]);
      Five(out', [','], a, ['='], b, rest);
      out' := out' + [','];
      out' := EscapeInto(out', tags[i].0, Key);
      out' := out' + ['='];
      out' := EscapeInto(out', tags[i].1, TagValue);
    }
    assert tags[|tags|..] == [] && out' + [] == out';
  }

  lemma Five(out: string, a: string, b: string, c: string, d: string, rest: string)
    ensures out + (a + (b + (c + (d + rest)))) == (out + a + b + c + d) + rest
  {
  }

  method PushField(out: string, f: (string, FieldValue)) returns (out': string)
    ensures out' == out + FieldText(f)
  {
    Three(out, Escape(Key, f.0), ['='], ValueText(f.1));
    out' := EscapeInto(out, f.0, Key);
    out' := out' + ['='];
    out' := PushValue(out', f.1);
  }

  lemma Three(out: string, a: string, b: string, c: string)
    ensures out + (a + (b + c)) == out + a + b + c
  {
  }

  /** What is still to be printed after i fields. */
  function FieldsLeft(fields: Fields, i: nat): string
    requires i <= |fields|
  {
    if i == 0 then FieldsText(fields) else MoreFields(fields[i..])
  }

  lemma FieldsLeftStep(fields: Fields, i: nat)
    requires i < |fields|
    ensures FieldsLeft(fields, i) == (if i > 0 then [','] else []) + (FieldText(fields[i]) + FieldsLeft(fields, i + 1))
  {
    assert fields[i..][1..] == fields[i + 1..];
    var s := FieldText(fields[i]) + FieldsLeft(fields, i + 1);
    assert [] + s == s;
  }

  method PushFields(out: string, fields: Fields) returns (out': string)
    ensures out' == out + FieldsText(fields)
  {
    out' := out;
    for i := 0 to |fields|
      invariant out' + FieldsLeft(fields, i) == out + FieldsText(fields)
    {
      FieldsLeftStep(fields, i);
      Peel(out', if i > 0 then [','] else [], FieldText(fields[i]), FieldsLeft(fields, i + 1));
      if i > 0 { out' := out' + [',']; } else { assert out' + [] == out'; }
      out' := PushField(out', fields[i]);
    }
    assert fields[|fields|..] == [] && out' + [] == out';
  }

  lemma Peel(out: string, a: string, b: string, rest: string)
    ensures out + (a + (b + rest)) == ((out + a) + b) + rest
  {
  }

  /** `to_line_protocol` */
  method ToLineProtocol(rows: seq<Line>) returns (out: string)
    ensures out == Text(rows)
  {
    out := [];
    ghost var ts := Map(rows, LineText);
    assert ts[0..] == ts && [] + Joined(ts) == Joined(ts);
    for i := 0 to |rows|
      invariant out + Joined(ts[i..]) == Joined(ts)
    {
      JoinedStep(out, ts, i);
      out := PushLine(out, rows[i]);
      out := out + ['\n'];
    }
    assert ts[|rows|..] == [] && out + [] == out;
  }

  lemma JoinedStep(out: string, ts: seq<string>, i: nat)
    requires i < |ts|
    ensures out + Joined(ts[i..]) == ((out + ts[i]) + ['\n']) + Joined(ts[i + 1..])
  {
    assert ts[i..][1..] == ts[i + 1..];
    Peel(out, ts[i], ['\n'], Joined(ts[i + 1..]));
  }

  method PushLine(out: string, l: Line) returns (out': string)
    ensures out' == out + LineText(l)
  {
    Five(out, Escape(Measurement, l.table), TagsText(l.tags), [' '], FieldsText(l.fields), [' '] + IntText(l.timestamp));
    out' := EscapeInto(out, l.table, Measurement);
    out' := PushTags(out', l.tags);
    out' := out' + [' '];
    out' := PushFields(out', l.fields);
    ConcatAssoc(out', [' '], IntText(l.timestamp));
    out' := out' + [' '] + IntText(l.timestamp);
  }
}
