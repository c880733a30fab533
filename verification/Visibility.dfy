/** Visibility labels: a cursor-driven evaluator, and the expressions it evaluates. */
module Visibility {
  import opened Basics

  // ----- expressions and their meaning

  datatype Label = Token(name: string) | AllOf(parts: seq<Label>) | AnyOf(parts: seq<Label>)

  /** What an authorization set satisfies. */
  predicate Sat(e: Label, auths: set<string>) {
    match e
    case Token(name) => name in auths
    case AllOf(parts) => SatAll(parts, auths)
    case AnyOf(parts) => SatAny(parts, auths)
  }

  predicate SatAll(es: seq<Label>, auths: set<string>) {
    es == [] || (SatAll(es[..|es| - 1], auths) && Sat(es[|es| - 1], auths))
  }

  predicate SatAny(es: seq<Label>, auths: set<string>) {
    es != [] && (SatAny(es[..|es| - 1], auths) || Sat(es[|es| - 1], auths))
  }

  // ----- the grammar

  datatype Malformed = Mixed | UnclosedParen | UnclosedQuote | BadEscape | EmptyToken | ExpectedToken | Trailing

  predicate IsWs(c: char) { c == ' ' || c == '\t' || c == '\n' || c == '\U{C}' || c == '\r' }

  predicate IsTokenByte(c: char) {
    'a' <= c <= 'z' || 'A' <= c <= 'Z' || '0' <= c <= '9' || c == '_' || c == '-' || c == '.' || c == ':' || c == '/'
  }

  predicate IsOp(c: char) { c == '&' || c == '|' }

  function Skip(t: string): (r: string)
    ensures |r| <= |t|
  {
    if t != [] && IsWs(t[0]) then Skip(t[1..]) else t
  }

  /** A run of token bytes. */
  function Bare(t: string): (r: (string, string))
    ensures |r.0| + |r.1| == |t|
  {
    if t != [] && IsTokenByte(t[0]) then var r := Bare(t[1..]); ([t[0]] + r.0, r.1) else ([], t)
  }

  /** A quoted token, after its opening quote. */
  function Quoted(t: string): (r: Result<(string, string), Malformed>)
    ensures r.Ok? ==> |r.value.1| < |t|
  {
    if t == [] then Err(UnclosedQuote)
    else if t[0] == '"' then Ok(([], t[1..]))
    else if t[0] == '\\' then
      if |t| > 1 && (t[1] == '"' || t[1] == '\\') then Consed(t[1], Quoted(t[2..])) else Err(BadEscape)
    else Consed(t[0], Quoted(t[1..]))
  }

  function Consed(c: char, r: Result<(string, string), Malformed>): Result<(string, string), Malformed> {
    if r.Err? then r else Ok(([c] + r.value.0, r.value.1))
  }

  type Parsed = Result<(Label, string), Malformed>

  function ParseTerm(t: string): (r: Parsed)
    ensures r.Ok? ==> |r.value.1| < |t|
    decreases |t|, 0
  {
    var u := Skip(t);
    if u != [] && u[0] == '(' then
      var e := ParseExpr(u[1..]);
      if e.Err? then e
      else
        var rest := Skip(e.value.1);
        if rest != [] && rest[0] == ')' then Ok((e.value.0, rest[1..])) else Err(UnclosedParen)
    else if u != [] && u[0] == '"' then
      var q := Quoted(u[1..]);
      if q.Err? then Err(q.error) else if q.value.0 == [] then Err(EmptyToken) else Ok((Token(q.value.0), q.value.1))
    else
      var b := Bare(u);
      if b.0 == [] then Err(ExpectedToken) else Ok((Token(b.0), b.1))
  }

  function ParseExpr(t: string): (r: Parsed)
    ensures r.Ok? ==> |r.value.1| < |t|
    decreases |t|, 2
  {
    var a := ParseTerm(t);
    if a.Err? then a else ParseMore(None, [a.value.0], a.value.1)
  }

  /** The rest of a level: one operator throughout. */
  function ParseMore(op: Option<char>, parts: seq<Label>, t: string): (r: Parsed)
    requires parts != []
    ensures r.Ok? ==> |r.value.1| <= |t|
    decreases |t|, 1
  {
    var u := Skip(t);
    if u == [] || !IsOp(u[0]) then Ok((Level(op, parts), u))
    else if op.Some? && op.value != u[0] then Err(Mixed)
    else
      var a := ParseTerm(u[1..]);
      if a.Err? then a else ParseMore(Some(u[0]), parts + [a.value.0], a.value.1)
  }

  function Level(op: Option<char>, parts: seq<Label>): Label
    requires parts != []
  {
    if op.None? then parts[|parts| - 1] else if op.value == '&' then AllOf(parts) else AnyOf(parts)
  }

  // ----- the evaluator

  class Parser {
    const s: string
    const auths: set<string>
    var i: nat

    constructor (s: string, auths: set<string>)
      ensures this.s == s && this.auths == auths && i == 0
    {
      this.s, this.auths, i := s, auths, 0;
    }

    method SkipWs()
      requires i <= |s|
      modifies this
      ensures old(i) <= i <= |s| && s[i..] == Skip(s[old(i)..])
    {
      while i < |s| && IsWs(s[i])
        invariant old(i) <= i <= |s| && Skip(s[i..]) == Skip(s[old(i)..])
      {
        assert s[i..][1..] == s[i + 1..];
        i := i + 1;
      }
    }

    method Peek() returns (c: Option<char>)
      requires i <= |s|
      modifies this
      ensures old(i) <= i <= |s| && s[i..] == Skip(s[old(i)..])
      ensures c == if i < |s| then Some(s[i]) else None
    {
      SkipWs();
      c := if i < |s| then Some(s[i]) else None;
    }

    method QuotedToken() returns (r: Result<string, Malformed>)
      requires i <= |s|
      modifies this
      ensures old(i) <= i <= |s|
      ensures r.Err? ==> Quoted(s[old(i)..]) == Err(r.error)
      ensures r.Ok? ==> Quoted(s[old(i)..]) == Ok((r.value, s[i..]))
    {
      var tok := "";
      assert After([], Quoted(s[i..])) == Quoted(s[i..]) by { AfterNone(Quoted(s[i..])); }
      while true
        invariant old(i) <= i <= |s|
        invariant Quoted(s[old(i)..]) == After(tok, Quoted(s[i..]))
        decreases |s| - i
      {
        if i == |s| { return Err(UnclosedQuote); }
        ghost var t := s[i..];
        assert t[1..] == s[i + 1..];
        if s[i] == '"' {
          i := i + 1;
          assert tok + [] == tok;
          return Ok(tok);
        } else if s[i] == '\\' {
          if i + 1 == |s| || !(s[i + 1] == '"' || s[i + 1] == '\\') { return Err(BadEscape); }
          assert t[2..] == s[i + 2..];
          AfterMore(tok, s[i + 1], Quoted(t[2..]));
          tok := tok + [s[i + 1]];
          i := i + 2;
        } else {
          AfterMore(tok, s[i], Quoted(t[1..]));
          tok := tok + [s[i]];
          i := i + 1;
        }
      }
    }

    method BareToken() returns (tok: string)
      requires i <= |s|
      modifies this
      ensures old(i) <= i <= |s| && (tok, s[i..]) == Bare(s[old(i)..])
    {
      var start := i;
      tok := [];
      assert [] + Bare(s[i..]).0 == Bare(s[i..]).0;
      while i < |s| && IsTokenByte(s[i])
        invariant old(i) <= i <= |s|
        invariant Bare(s[old(i)..]) == (tok + Bare(s[i..]).0, Bare(s[i..]).1)
      {
        assert s[i..][1..] == s[i + 1..];
        ConcatAssoc(tok, [s[i]], Bare(s[i + 1..]).0);
        tok := tok + [s[i]];
        i := i + 1;
      }
      assert tok + [] == tok;
    }

    method Term() returns (r: Result<bool, Malformed>)
      requires i <= |s|
      modifies this
      ensures old(i) <= i <= |s| && (r.Ok? ==> old(i) < i)
      ensures Agrees(r, ParseTerm(s[old(i)..]), s[i..], auths)
      decreases |s| - i, 0
    {
      var c := Peek();
      if c == Some('(') {
        assert s[i..][1..] == s[i + 1..];
        i := i + 1;
        r := Expression();
        if r.Err? { return; }
        c := Peek();
        if c != Some(')') { return Err(UnclosedParen); }
        assert s[i..][1..] == s[i + 1..];
        i := i + 1;
      } else if c == Some('"') {
        assert s[i..][1..] == s[i + 1..];
        i := i + 1;
        var tok := QuotedToken();
        if tok.Err? { return Err(tok.error); }
        if tok.value == [] { return Err(EmptyToken); }
        r := Ok(tok.value in auths);
      } else {
        var tok := BareToken();
        if tok == [] { return Err(ExpectedToken); }
        r := Ok(tok in auths);
      }
    }

    method Expression() returns (r: Result<bool, Malformed>)
      requires i <= |s|
      modifies this
      ensures old(i) <= i <= |s| && (r.Ok? ==> old(i) < i)
      ensures Agrees(r, ParseExpr(s[old(i)..]), s[i..], auths)
      decreases |s| - i, 1
    {
      r := Term();
      if r.Err? { return; }
      var acc, op: Option<char> := r.value, None;
      ghost var parts := [ParseTerm(s[old(i)..]).value.0];
      while true
        invariant old(i) < i <= |s| && parts != [] && (op.None? ==> |parts| == 1)
        invariant ParseExpr(s[old(i)..]) == ParseMore(op, parts, s[i..])
        invariant acc == Sat(Level(op, parts), auths)
        decreases |s| - i
      {
        var c := Peek();
        if c.None? || !IsOp(c.value) { return Ok(acc); }
        if op.Some? && op.value != c.value { return Err(Mixed); }
        ghost var before := s[i..];
        assert before[1..] == s[i + 1..];
        i := i + 1;
        r := Term();
        if r.Err? { return; }
        ghost var x := ParseTerm(before[1..]).value.0;
        LevelMore(op, parts, c.value, x, auths);
        acc := if c.value == '&' then acc && r.value else acc || r.value;
        op, parts := c, parts + [x];
      }
    }
  }

  /** A verdict agrees with a parse: the same error, or its label's value and the same rest. */
  ghost predicate Agrees(r: Result<bool, Malformed>, p: Parsed, rest: string, auths: set<string>) {
    if r.Err? then p == Err(r.error) else p.Ok? && p.value.1 == rest && r.value == Sat(p.value.0, auths)
  }

  lemma LevelMore(op: Option<char>, parts: seq<Label>, c: char, x: Label, auths: set<string>)
    requires parts != [] && (op.None? ==> |parts| == 1) && (op.Some? ==> op.value == c) && IsOp(c)
    ensures var before := Sat(Level(op, parts), auths);
            Sat(Level(Some(c), parts + [x]), auths) ==
            if c == '&' then before && Sat(x, auths) else before || Sat(x, auths)
  {
    var all := parts + [x];
    assert all[..|all| - 1] == parts && all[|all| - 1] == x;
    assert SatAll(all, auths) == (SatAll(parts, auths) && Sat(x, auths));
    assert SatAny(all, auths) == (SatAny(parts, auths) || Sat(x, auths));
    if op.None? {
      assert parts[..0] == [] && SatAll(parts, auths) == (SatAll(parts[..0], auths) && Sat(parts[0], auths));
      assert SatAny(parts, auths) == (SatAny(parts[..0], auths) || Sat(parts[0], auths));
    }
  }

  function After(tok: string, r: Result<(string, string), Malformed>): Result<(string, string), Malformed> {
    if r.Err? then r else Ok((tok + r.value.0, r.value.1))
  }

  lemma AfterNone(r: Result<(string, string), Malformed>)
    ensures After([], r) == r
  {
    if r.Ok? { assert [] + r.value.0 == r.value.0; }
  }

  lemma AfterMore(tok: string, c: char, r: Result<(string, string), Malformed>)
    ensures After(tok, Consed(c, r)) == After(tok + [c], r)
  {
    if r.Ok? { ConcatAssoc(tok, [c], r.value.0); }
  }

  // ----- labels on rows

  /** The bytes of a label, each as the character of its value. */
  function Utf8(t: string): string {
    if t == [] then [] else Utf8Char(t[0]) + Utf8(t[1..])
  }

  function Byte(n: nat): char
    requires n < 256
  {
    n as char
  }

  function Utf8Char(c: char): string {
    var n := c as int;
    if n < 0x80 then [c]
    else if n < 0x800 then [Byte(0xC0 + n / 0x40), Byte(0x80 + n % 0x40)]
    else if n < 0x1_0000 then [Byte(0xE0 + n / 0x1000), Byte(0x80 + n / 0x40 % 0x40), Byte(0x80 + n % 0x40)]
    else [Byte(0xF0 + n / 0x4_0000 % 8), Byte(0x80 + n / 0x1000 % 0x40), Byte(0x80 + n / 0x40 % 0x40), Byte(0x80 + n % 0x40)]
  }

  predicate Blank(expr: string) { forall i :: 0 <= i < |expr| ==> IsSpace(expr[i]) }

  /** The expression a label's bytes spell. */
  function Parse(bytes: string): Result<Label, Malformed> {
    var e := ParseExpr(bytes);
    if e.Err? then Err(e.error) else if Skip(e.value.1) != [] then Err(Trailing) else Ok(e.value.0)
  }

  function Evaluated(expr: string, auths: set<string>): Result<bool, Malformed> {
    if Blank(expr) then Ok(true) else var e := Parse(Utf8(expr)); if e.Err? then Err(e.error) else Ok(Sat(e.value, auths))
  }

  method Evaluate(expr: string, auths: set<string>) returns (r: Result<bool, Malformed>)
    ensures r == Evaluated(expr, auths)
  {
    if Blank(expr) { return Ok(true); }
    var bytes := Utf8(expr);
    var p := new Parser(bytes, auths);
    assert bytes[0..] == bytes;
    r := p.Expression();
    if r.Err? { return; }
    p.SkipWs();
    if p.i != |bytes| { r := Err(Trailing); }
  }

  predicate IsVisible(expr: string, auths: set<string>) {
    var r := Evaluated(expr, auths);
    r.Ok? && r.value
  }

  // ----- authorizations

  /** More authorizations never hide a row. */
  lemma {:induction false} SatMonotone(e: Label, a: set<string>, b: set<string>)
    requires a <= b && Sat(e, a)
    ensures Sat(e, b)
  {
    match e
    case Token(_) =>
    case AllOf(parts) => SatAllMonotone(parts, a, b);
    case AnyOf(parts) => SatAnyMonotone(parts, a, b);
  }

  lemma {:induction false} SatAllMonotone(es: seq<Label>, a: set<string>, b: set<string>)
    requires a <= b && SatAll(es, a)
    ensures SatAll(es, b)
  {
    if es != [] {
      SatAllMonotone(es[..|es| - 1], a, b);
      SatMonotone(es[|es| - 1], a, b);
    }
  }

  lemma {:induction false} SatAnyMonotone(es: seq<Label>, a: set<string>, b: set<string>)
    requires a <= b && SatAny(es, a)
    ensures SatAny(es, b)
  {
    if Sat(es[|es| - 1], a) { SatMonotone(es[|es| - 1], a, b); } else { SatAnyMonotone(es[..|es| - 1], a, b); }
  }

  /** Labels fail closed and monotonically: whether one is malformed does not depend on who
   *  asks, a malformed one is visible to nobody, and authorizations only reveal. */
  lemma VisibilityLaws(expr: string, a: set<string>, b: set<string>)
    ensures Evaluated(expr, a).Err? <==> Evaluated(expr, b).Err?
    ensures Evaluated(expr, a).Err? ==> !IsVisible(expr, b)
    ensures a <= b && IsVisible(expr, a) ==> IsVisible(expr, b)
  {
    if a <= b && !Blank(expr) && IsVisible(expr, a) { SatMonotone(Parse(Utf8(expr)).value, a, b); }
  }

  // ----- tokens that are not ASCII

  predicate Ascii(t: string) { forall i :: 0 <= i < |t| ==> t[i] as int < 0x80 }

  lemma {:induction false} Utf8Same(t: string)
    ensures |Utf8(t)| >= |t|
    ensures |Utf8(t)| == |t| <==> Ascii(t)
    ensures Ascii(t) ==> Utf8(t) == t
  {
    if t != [] {
      Utf8Same(t[1..]);
      assert t == [t[0]] + t[1..];
    }
  }
}
