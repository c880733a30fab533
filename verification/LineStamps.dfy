/** What a line's timestamp means: precision, defaults, overflow, and lines that say nothing. */
module LineStamps {
  import opened Basics
  import opened Escapes
  import opened LineProtocol
  import opened LineRoundTrip
  import opened LineBodies
  import Names

  // ----- numerals

  /** s is the digits d behind an optional sign, and n their value. */
  predicate SpelledBy(s: string, n: int, d: string) {
    AllDigits(d) && if s == ['-'] + d then n == 0 - Names.DecimalValue(d) else n == Names.DecimalValue(d) && (s == d || s == ['+'] + d)
  }

  /** s is an i64 numeral for n. */
  ghost predicate Spells(s: string, n: int) { I64_MIN <= n <= I64_MAX && exists d :: SpelledBy(s, n, d) }

  lemma ParseI64Iff(s: string, n: int)
    ensures ParseI64(s) == Some(n) <==> Spells(s, n)
  {
    if ParseI64(s) == Some(n) {
      var d := if s[0] == '-' || s[0] == '+' then s[1..] else s;
      assert AllDigits(d) && s == (if s[0] == '-' || s[0] == '+' then [s[0]] + d else d);
      assert Names.IsDigit(d[0]) && SpelledBy(s, n, d);
    }
    if Spells(s, n) {
      var d :| SpelledBy(s, n, d);
      assert Names.IsDigit(d[0]);
      assert s == ['+'] + d ==> s[1..] == d;
      assert s == ['-'] + d ==> s[1..] == d;
    }
  }

  /** s is a u64 numeral for n. */
  ghost predicate SpellsUnsigned(s: string, n: int) {
    0 <= n <= U64_MAX && exists d: string :: UnsignedBy(s, n, d)
  }

  predicate UnsignedBy(s: string, n: int, d: string) { AllDigits(d) && n == Names.DecimalValue(d) && (s == d || s == ['+'] + d) }

  lemma ParseU64Iff(s: string, n: int)
    ensures ParseU64(s) == Some(n) <==> SpellsUnsigned(s, n)
  {
    if ParseU64(s) == Some(n) {
      var d := if s[0] == '+' then s[1..] else s;
      assert AllDigits(d) && s == (if s[0] == '+' then ['+'] + d else d);
      assert UnsignedBy(s, n, d);
    }
    if SpellsUnsigned(s, n) {
      var d :| UnsignedBy(s, n, d);
      assert Names.IsDigit(d[0]);
      assert s == ['+'] + d ==> s[1..] == d;
    }
  }

  /** Numbers with a suffix: a numeral of the suffix's range is its value, and nothing else is one. */
  lemma SuffixedMeans(floats: FloatReader, s: string)
    ensures forall n :: Spells(s, n) ==> TokenValue(floats, s + ['i']) == Ok(Int(n))
    ensures (forall n :: !Spells(s, n)) ==> TokenValue(floats, s + ['i']) == Err(BadInteger(s + ['i']))
    ensures forall n :: SpellsUnsigned(s, n) ==> TokenValue(floats, s + ['u']) == Ok(UInt(n))
    ensures (forall n :: !SpellsUnsigned(s, n)) ==> TokenValue(floats, s + ['u']) == Err(BadUInteger(s + ['u']))
  {
    NotBoolean(s + ['i']);
    NotBoolean(s + ['u']);
    assert Init(s + ['i']) == s && Init(s + ['u']) == s;
    forall n ensures ParseI64(s) == Some(n) <==> Spells(s, n) { ParseI64Iff(s, n); }
    forall n ensures ParseU64(s) == Some(n) <==> SpellsUnsigned(s, n) { ParseU64Iff(s, n); }
  }

  /** The ten spellings of a boolean, and no others. */
  lemma BooleansAre(floats: FloatReader, tok: string)
    ensures TokenValue(floats, tok) == Ok(Bool(true)) <==> tok in ["t", "T", "true", "True", "TRUE"]
    ensures TokenValue(floats, tok) == Ok(Bool(false)) <==> tok in ["f", "F", "false", "False", "FALSE"]
  {
  }

  // ----- the end of a line

  predicate AllBlank(t: string) { forall i :: 0 <= i < |t| ==> IsSpace(t[i]) }

  lemma {:induction false} TrimStartPadded(pre: string, t: string)
    requires AllBlank(pre)
    ensures TrimStart(pre + t) == TrimStart(t)
  {
    if pre == [] {
      assert pre + t == t;
    } else {
      TrimStartPadded(pre[1..], t);
      assert (pre + t)[1..] == pre[1..] + t;
    }
  }

  lemma {:induction false} TrimEndPadded(t: string, post: string)
    requires AllBlank(post)
    ensures TrimEnd(t + post) == TrimEnd(t)
  {
    if post == [] {
      assert t + post == t;
    } else {
      TrimEndPadded(t, Init(post));
      assert Init(t + post) == t + Init(post);
      assert IsSpace(post[|post| - 1]);
    }
  }

  lemma Trimmed(pre: string, s: string, post: string)
    requires AllBlank(pre) && AllBlank(post) && s != [] && !IsSpace(s[0]) && !IsSpace(Last(s))
    ensures TrimEnd(TrimStart(pre + (s + post))) == s
  {
    TrimStartPadded(pre, s + post);
    assert (s + post)[0] == s[0];
    TrimEndPadded(s, post);
  }

  lemma BlankTrims(t: string)
    requires AllBlank(t)
    ensures TrimEnd(TrimStart(t)) == []
  {
    TrimStartPadded(t, []);
    assert t + [] == t;
  }

  lemma SpellsTight(s: string, n: int)
    requires Spells(s, n)
    ensures s != [] && !IsSpace(s[0]) && !IsSpace(Last(s))
  {
    var d :| SpelledBy(s, n, d);
    assert Names.IsDigit(d[0]) && Names.IsDigit(d[|d| - 1]) && Last(s) == d[|d| - 1];
  }

  /** The stamp in nanoseconds, or an overflow. */
  function Scaled(n: int, mult: int): Result<int, LineError> {
    if I64_MIN <= n * mult <= I64_MAX then Ok(n * mult) else Err(TimestampOverflow)
  }

  /** A numeral, however it is written and padded, counts units of the precision. */
  lemma StampScales(pre: string, s: string, post: string, n: int, mult: int, default: int)
    requires AllBlank(pre) && AllBlank(post) && Spells(s, n)
    ensures ParseStamp([' '] + (pre + (s + post)), mult, default) == Scaled(n, mult)
  {
    SpellsTight(s, n);
    Trimmed(pre, s, post);
    ParseI64Iff(s, n);
    assert ([' '] + (pre + (s + post)))[1..] == pre + (s + post);
  }

  /** No stamp, or blanks only, is the default. */
  lemma NoStamp(pad: string, mult: int, default: int)
    requires AllBlank(pad) && AfterFields(pad)
    ensures ParseStamp(pad, mult, default) == Ok(default)
  {
    if pad != [] { BlankTrims(pad[1..]); }
  }

  /** Anything else is a bad timestamp. */
  lemma BadStamp(pre: string, s: string, post: string, mult: int, default: int)
    requires AllBlank(pre) && AllBlank(post) && s != [] && !IsSpace(s[0]) && !IsSpace(Last(s)) && forall n :: !Spells(s, n)
    ensures ParseStamp([' '] + (pre + (s + post)), mult, default) == Err(BadTimestamp(s))
  {
    Trimmed(pre, s, post);
    if ParseI64(s).Some? { ParseI64Iff(s, ParseI64(s).value); }
    assert ([' '] + (pre + (s + post)))[1..] == pre + (s + post);
  }

  // ----- lines

  /** The printed row up to its fields, with another end. */
  function LineWith(l: Line, tail: string): string {
    Escape(Measurement, l.table) + (TagsText(l.tags) + ([' '] + (FieldsText(l.fields) + tail)))
  }

  function Stamped(l: Line, ts: Result<int, LineError>): Result<Line, LineError> {
    if ts.Err? then Err(ts.error) else Ok(l.(timestamp := ts.value))
  }

  lemma BodyWith(floats: FloatReader, l: Line, tail: string, mult: int, default: int)
    requires Typed(floats, l) && l.fields != [] && FieldsOk(l.fields) && AfterFields(tail)
    ensures var ts, r := ParseStamp(tail, mult, default), ParseBody(floats, [' '] + (FieldsText(l.fields) + tail), mult, default);
            r == if ts.Err? then Err(ts.error) else Ok((l.fields, ts.value))
  {
    assert ([' '] + (FieldsText(l.fields) + tail))[1..] == FieldsText(l.fields) + tail;
    assert ValuesOk(floats, l.fields);
    FieldsRead(floats, l.fields, tail);
  }

  /** Whatever follows the fields is read as the timestamp and as nothing else. */
  lemma LineWithReads(floats: FloatReader, l: Line, tail: string, mult: int, default: int)
    requires Typed(floats, l) && LineOk(l) && AfterFields(tail)
    ensures ParseLine(floats, LineWith(l, tail), mult, default) == Stamped(l, ParseStamp(tail, mult, default))
  {
    var body := [' '] + (FieldsText(l.fields) + tail);
    TagsTextHead(l.tags, body);
    NameRoundTrip(Measurement, l.table, TagsText(l.tags) + body);
    TagsRead(l.tags, body);
    BodyWith(floats, l, tail, mult, default);
  }

  /** A printed row read at any precision: its timestamp counts units of that precision, and one
   *  that does not fit in nanoseconds is an overflow. */
  lemma LineScales(floats: FloatReader, l: Line, mult: int, default: int)
    requires Typed(floats, l) && LineOk(l)
    ensures ParseLine(floats, LineText(l), mult, default) == Stamped(l, Scaled(l.timestamp, mult))
  {
    var n := IntText(l.timestamp);
    IntTextReads(l.timestamp);
    ParseI64Iff(n, l.timestamp);
    StampScales([], n, [], l.timestamp, mult, default);
    assert [] + (n + []) == n;
    LineWithReads(floats, l, [' '] + n, mult, default);
  }

  /** The same row without its stamp, or with blanks for it, is stamped with the default. */
  lemma LineDefaults(floats: FloatReader, l: Line, pad: string, mult: int, default: int)
    requires Typed(floats, l) && LineOk(l) && AllBlank(pad) && AfterFields(pad)
    ensures ParseLine(floats, LineWith(l, pad), mult, default) == Ok(l.(timestamp := default))
  {
    NoStamp(pad, mult, default);
    LineWithReads(floats, l, pad, mult, default);
  }

  /** With anything but a numeral for it, the row is refused. */
  lemma LineRefused(floats: FloatReader, l: Line, pre: string, s: string, post: string, mult: int, default: int)
    requires Typed(floats, l) && LineOk(l) && AllBlank(pre) && AllBlank(post)
    requires s != [] && !IsSpace(s[0]) && !IsSpace(Last(s)) && forall n :: !Spells(s, n)
    ensures ParseLine(floats, LineWith(l, [' '] + (pre + (s + post))), mult, default) == Err(BadTimestamp(s))
  {
    BadStamp(pre, s, post, mult, default);
    LineWithReads(floats, l, [' '] + (pre + (s + post)), mult, default);
  }

  // ----- bodies

  predicate Fits(l: Line, mult: int) { I64_MIN <= l.timestamp * mult <= I64_MAX }

  function Rescale(l: Line, mult: int): Line { l.(timestamp := l.timestamp * mult) }

  function Rescaled(rows: seq<Line>, mult: int): seq<Line> {
    seq(|rows|, i requires 0 <= i < |rows| => Rescale(rows[i], mult))
  }

  lemma RescaledInit(rows: seq<Line>, mult: int)
    requires rows != []
    ensures Rescaled(rows, mult) == Rescaled(Init(rows), mult) + [Rescale(Last(rows), mult)]
  {
  }

  lemma PrintedScales(floats: FloatReader, l: Line, mult: int, default: int, t: string)
    requires Typed(floats, l) && RowOk(l) && Fits(l, mult) && t == StripReturns(LineText(l))
    ensures !Silent(t) && ParseLine(floats, t, mult, default) == Ok(Rescale(l, mult))
  {
    PrintedLine(l);
    LineScales(floats, l, mult, default);
  }

  predicate AllFit(rows: seq<Line>, mult: int) { forall i :: 0 <= i < |rows| ==> Fits(rows[i], mult) }

  predicate AllRowsOk(floats: FloatReader, rows: seq<Line>) { forall i :: 0 <= i < |rows| ==> Typed(floats, rows[i]) && RowOk(rows[i]) }

  lemma OneMoreLine(floats: FloatReader, lines: seq<string>, init: seq<string>, t: string, mult: int, default: int, before: seq<Line>, l: Line)
    requires lines != [] && init == Init(lines) && t == StripReturns(Last(lines)) && !Silent(t)
    requires ParseEach(floats, init, mult, default) == Ok(before) && ParseLine(floats, t, mult, default) == Ok(l)
    ensures ParseEach(floats, lines, mult, default) == Ok(before + [l])
  {
  }

  lemma {:induction false} EachScales(floats: FloatReader, rows: seq<Line>, mult: int, default: int)
    requires AllRowsOk(floats, rows) && AllFit(rows, mult)
    ensures ParseEach(floats, Texts(rows), mult, default) == Ok(Rescaled(rows, mult))
  {
    if rows == [] {
      assert Texts(rows) == [] && Rescaled(rows, mult) == [];
    } else {
      var l, before := rows[|rows| - 1], Init(rows);
      assert forall i :: 0 <= i < |before| ==> before[i] == rows[i];
      EachScales(floats, before, mult, default);
      TextsInit(rows);
      var t := StripReturns(LineText(l));
      PrintedScales(floats, l, mult, default, t);
      RescaledInit(rows, mult);
      OneMoreLine(floats, Texts(rows), Texts(before), t, mult, default, Rescaled(before, mult), Rescale(l, mult));
    }
  }

  lemma OverflowStops(floats: FloatReader, rows: seq<Line>, upTo: seq<Line>, k: nat, mult: int, default: int)
    requires AllRowsOk(floats, rows) && k < |rows| && upTo == rows[..k + 1] && AllFit(rows[..k], mult) && !Fits(rows[k], mult)
    ensures ParseEach(floats, Texts(upTo), mult, default) == Err((k + 1, TimestampOverflow))
  {
    var l := rows[k];
    assert Init(upTo) == rows[..k] && Last(upTo) == l;
    EachScales(floats, rows[..k], mult, default);
    TextsInit(upTo);
    PrintedLine(l);
    LineScales(floats, l, mult, default);
  }

  lemma EachOverflows(floats: FloatReader, rows: seq<Line>, k: nat, mult: int, default: int)
    requires AllRowsOk(floats, rows) && k < |rows| && AllFit(rows[..k], mult) && !Fits(rows[k], mult)
    ensures ParseEach(floats, Texts(rows), mult, default) == Err((k + 1, TimestampOverflow))
  {
    OverflowStops(floats, rows, rows[..k + 1], k, mult, default);
    assert Texts(rows)[..k + 1] == Texts(rows[..k + 1]);
    FailureStays(floats, Texts(rows), k + 1, mult, default);
  }

  /** A printed body read at any precision gives its rows with their timestamps scaled, or stops at
   *  the first that overflows. */
  lemma BodyScales(floats: FloatReader, rows: seq<Line>, mult: int, default: int)
    requires AllRowsOk(floats, rows)
    ensures AllFit(rows, mult) ==> ParseLines(floats, Text(rows), mult, default) == Ok(Rescaled(rows, mult))
    ensures forall k :: 0 <= k < |rows| && AllFit(rows[..k], mult) && !Fits(rows[k], mult) ==>
              ParseLines(floats, Text(rows), mult, default) == Err((k + 1, TimestampOverflow))
  {
    LinesOfText(floats, rows);
    if AllFit(rows, mult) { EachScales(floats, rows, mult, default); }
    forall k | 0 <= k < |rows| && AllFit(rows[..k], mult) && !Fits(rows[k], mult)
      ensures ParseLines(floats, Text(rows), mult, default) == Err((k + 1, TimestampOverflow))
    {
      EachOverflows(floats, rows, k, mult, default);
    }
  }

  /** `precision_multiplier`: nanoseconds per unit. */
  function PrecisionMultiplier(p: string): Option<int> {
    if p == "ns" || p == "n" then Some(1)
    else if p == "us" || p == "u" then Some(1000)
    else if p == "ms" then Some(1_000_000)
    else if p == "s" then Some(1_000_000_000)
    else None
  }

  /** Six names, and each unit a thousand of the next. */
  lemma PrecisionsAre(p: string)
    ensures PrecisionMultiplier(p).Some? <==> p in {"s", "ms", "us", "u", "ns", "n"}
    ensures PrecisionMultiplier("s") == Some(1000 * 1000 * 1000) && PrecisionMultiplier("ms") == Some(1000 * 1000)
    ensures PrecisionMultiplier("us") == PrecisionMultiplier("u") == Some(1000) && PrecisionMultiplier("ns") == PrecisionMultiplier("n") == Some(1)
  {
  }

  // ----- lines that say nothing

  predicate IsReturns(t: string) { forall i :: 0 <= i < |t| ==> t[i] == '\r' }

  /** Nothing but carriage returns, or a comment. */
  predicate IsNoise(t: string) { IsReturns(t) || t[0] == '#' }

  lemma {:induction false} ReturnsStripped(t: string, cr: string)
    requires IsReturns(cr)
    ensures StripReturns(t + cr) == StripReturns(t)
  {
    if cr == [] {
      assert t + cr == t;
    } else {
      ReturnsStripped(t, Init(cr));
      assert Init(t + cr) == t + Init(cr);
      assert cr[|cr| - 1] == '\r';
    }
  }

  lemma {:induction false} CommentStays(t: string)
    requires t != [] && t[0] == '#'
    ensures StripReturns(t) != [] && StripReturns(t)[0] == '#'
  {
    if Last(t) == '\r' { CommentStays(Init(t)); }
  }

  lemma NoiseIsSilent(t: string)
    requires IsNoise(t)
    ensures Silent(StripReturns(t))
  {
    if IsReturns(t) {
      ReturnsStripped([], t);
      assert [] + t == t;
    } else {
      CommentStays(t);
    }
  }

  /** The lines of `clean` in order, each with any number of carriage returns, and noise between. */
  ghost predicate Noisy(lines: seq<string>, clean: seq<string>) {
    if lines == [] then clean == []
    else
      || (IsNoise(Last(lines)) && Noisy(Init(lines), clean))
      || (clean != [] && Ends(Last(lines), Last(clean)) && Noisy(Init(lines), Init(clean)))
  }

  /** The text and some carriage returns. */
  ghost predicate Ends(t: string, text: string) { exists cr :: IsReturns(cr) && t == text + cr }

  lemma EndsSame(t: string, text: string)
    requires Ends(t, text)
    ensures StripReturns(t) == StripReturns(text)
  {
    var cr :| IsReturns(cr) && t == text + cr;
    ReturnsStripped(text, cr);
  }

  /** Blank lines, comments and carriage returns change no row. */
  lemma {:induction false} NoiseIgnored(floats: FloatReader, lines: seq<string>, clean: seq<string>, mult: int, default: int)
    requires Noisy(lines, clean)
    ensures var r, s := ParseEach(floats, lines, mult, default), ParseEach(floats, clean, mult, default);
            (r.Ok? <==> s.Ok?) && (r.Ok? ==> r == s)
  {
    if lines != [] {
      if IsNoise(Last(lines)) && Noisy(Init(lines), clean) {
        NoiseIgnored(floats, Init(lines), clean, mult, default);
        NoiseIsSilent(Last(lines));
      } else {
        NoiseIgnored(floats, Init(lines), Init(clean), mult, default);
        EndsSame(Last(lines), Last(clean));
      }
    }
  }

  // ----- where lines end

  lemma OnlyLine(a: string)
    requires NoBreak(a) && a != []
    ensures Lines(a) == [a]
  {
    assert forall i :: 0 <= i < |a| ==> a[i] in a && a[i] != '\n';
    assert FirstBreak(a) == |a| && a[..|a|] == a;
  }

  /** Every line break ends a line, and what follows the last one is a line too unless it is empty. */
  lemma {:induction false} LinesAre(ts: seq<string>, last: string)
    requires (forall i :: 0 <= i < |ts| ==> NoBreak(ts[i])) && NoBreak(last)
    ensures Lines(Joined(ts) + last) == ts + (if last == [] then [] else [last])
  {
    if ts == [] {
      assert Joined(ts) + last == last;
      if last != [] { OnlyLine(last); }
    } else {
      var more := Joined(ts[1..]) + last;
      assert forall i :: 0 <= i < |ts[1..]| ==> ts[1..][i] == ts[i + 1];
      LinesAre(ts[1..], last);
      ConcatAssoc(ts[0], ['\n'] + Joined(ts[1..]), last);
      ConcatAssoc(['\n'], Joined(ts[1..]), last);
      OneLine(ts[0], more);
      assert ts == [ts[0]] + ts[1..];
    }
  }
}
