/** Printed visibility labels parse back to themselves. */
module LabelRoundTrip {
  import opened Basics
  import opened Visibility

  // ----- printing

  /** A token is not empty; a level has at least two parts. */
  predicate WellFormed(e: Label) {
    match e
    case Token(name) => name != []
    case AllOf(parts) => |parts| >= 2 && AllWellFormed(parts)
    case AnyOf(parts) => |parts| >= 2 && AllWellFormed(parts)
  }

  predicate AllWellFormed(es: seq<Label>) { es == [] || (WellFormed(es[0]) && AllWellFormed(es[1..])) }

  predicate IsBare(name: string) { name != [] && forall i :: 0 <= i < |name| ==> IsTokenByte(name[i]) }

  function TokenText(name: string): string { if IsBare(name) then name else ['"'] + (EscapeQuotes(name) + ['"']) }

  /** A part of a level: compound parts in parentheses. */
  function TermText(e: Label): string
    decreases e, 1
  {
    if e.Token? then TokenText(e.name) else ['('] + (LabelText(e) + [')'])
  }

  function LabelText(e: Label): string
    decreases e, 0
  {
    match e
    case Token(name) => TokenText(name)
    case AllOf(parts) => if parts == [] then [] else TermText(parts[0]) + MoreText('&', parts[1..])
    case AnyOf(parts) => if parts == [] then [] else TermText(parts[0]) + MoreText('|', parts[1..])
  }

  function MoreText(op: char, es: seq<Label>): string
    decreases es, 2
  {
    if es == [] then [] else [op] + (TermText(es[0]) + MoreText(op, es[1..]))
  }

  // ----- parsing it back

  predicate EndsTerm(rest: string) { rest == [] || rest[0] == ')' || IsOp(rest[0]) }

  predicate EndsLabel(rest: string) { rest == [] || rest[0] == ')' }

  lemma {:induction false} BareReads(name: string, rest: string)
    requires (forall i :: 0 <= i < |name| ==> IsTokenByte(name[i])) && EndsTerm(rest)
    ensures Bare(name + rest) == (name, rest)
  {
    if name == [] {
      assert name + rest == rest;
    } else {
      BareReads(name[1..], rest);
      assert (name + rest)[1..] == name[1..] + rest && name == [name[0]] + name[1..];
    }
  }

  lemma QuotePair(c: char, more: string)
    requires c == '"' || c == '\\'
    ensures Quoted(['\\', c] + more) == Consed(c, Quoted(more))
  {
    var t := ['\\', c] + more;
    assert t[0] == '\\' && t[1] == c && t[2..] == more;
  }

  lemma QuotePlain(c: char, more: string)
    requires c != '"' && c != '\\'
    ensures Quoted([c] + more) == Consed(c, Quoted(more))
  {
    var t := [c] + more;
    assert t[0] == c && t[1..] == more;
  }

  lemma {:induction false} QuotedReads(s: string, rest: string)
    ensures Quoted(EscapeQuotes(s) + (['"'] + rest)) == Ok((s, rest))
  {
    var end := ['"'] + rest;
    if s == [] {
      assert EscapeQuotes(s) + end == end && end[1..] == rest;
    } else {
      QuotedReads(s[1..], rest);
      var c := if s[0] == '"' || s[0] == '\\' then ['\\', s[0]] else [s[0]];
      ConcatAssoc(c, EscapeQuotes(s[1..]), end);
      if |c| == 2 { QuotePair(s[0], EscapeQuotes(s[1..]) + end); } else { QuotePlain(s[0], EscapeQuotes(s[1..]) + end); }
      assert s == [s[0]] + s[1..];
    }
  }

  lemma TokenReads(name: string, rest: string)
    requires name != [] && EndsTerm(rest)
    ensures ParseTerm(TokenText(name) + rest) == Ok((Token(name), rest))
  {
    var t := TokenText(name) + rest;
    if IsBare(name) {
      assert t[0] == name[0] && Skip(t) == t;
      BareReads(name, rest);
    } else {
      QuotedReads(name, rest);
      ConcatAssoc(['"'], EscapeQuotes(name) + ['"'], rest);
      ConcatAssoc(EscapeQuotes(name), ['"'], rest);
      assert t[0] == '"' && Skip(t) == t && t[1..] == EscapeQuotes(name) + (['"'] + rest);
    }
  }

  lemma ParenReads(e: Label, inner: string, rest: string)
    requires ParseExpr(inner + ([')'] + rest)) == Ok((e, [')'] + rest))
    ensures ParseTerm((['('] + (inner + [')'])) + rest) == Ok((e, rest))
  {
    var t := (['('] + (inner + [')'])) + rest;
    ConcatAssoc(['('], inner + [')'], rest);
    ConcatAssoc(inner, [')'], rest);
    assert t[0] == '(' && Skip(t) == t && t[1..] == inner + ([')'] + rest);
    assert Skip([')'] + rest) == [')'] + rest && ([')'] + rest)[1..] == rest;
  }

  lemma {:induction false} TermReads(e: Label, rest: string)
    requires WellFormed(e) && EndsTerm(rest)
    ensures ParseTerm(TermText(e) + rest) == Ok((e, rest))
    decreases e, 1
  {
    if e.Token? {
      TokenReads(e.name, rest);
    } else {
      LabelReads(e, [')'] + rest);
      ParenReads(e, LabelText(e), rest);
    }
  }

  /** Printing then parsing a label gives it back, and stops where it ends. */
  lemma {:induction false} LabelReads(e: Label, rest: string)
    requires WellFormed(e) && EndsLabel(rest)
    ensures ParseExpr(LabelText(e) + rest) == Ok((e, rest))
    decreases e, 0
  {
    match e
    case Token(name) =>
      TokenReads(name, rest);
      assert Skip(rest) == rest;
    case AllOf(parts) => LevelReads('&', parts, rest);
    case AnyOf(parts) => LevelReads('|', parts, rest);
  }

  lemma {:induction false} LevelReads(op: char, parts: seq<Label>, rest: string)
    requires |parts| >= 2 && AllWellFormed(parts) && IsOp(op) && EndsLabel(rest)
    ensures ParseExpr((TermText(parts[0]) + MoreText(op, parts[1..])) + rest) == Ok((Level(Some(op), parts), rest))
    decreases parts, 3
  {
    var more := MoreText(op, parts[1..]) + rest;
    ConcatAssoc(TermText(parts[0]), MoreText(op, parts[1..]), rest);
    TermReads(parts[0], more);
    MoreReads(None, op, [parts[0]], parts[1..], rest);
    assert [parts[0]] + parts[1..] == parts;
  }

  lemma MoreStep(known: Option<char>, op: char, done: seq<Label>, t: string, e: Label, more: string)
    requires done != [] && IsOp(op) && (known == Some(op) || known == None) && ParseTerm(t) == Ok((e, more))
    ensures ParseMore(known, done, [op] + t) == ParseMore(Some(op), done + [e], more)
  {
    var u := [op] + t;
    assert u[0] == op && Skip(u) == u && u[1..] == t;
  }

  lemma {:induction false} MoreReads(known: Option<char>, op: char, done: seq<Label>, es: seq<Label>, rest: string)
    requires done != [] && AllWellFormed(es) && IsOp(op) && EndsLabel(rest)
    requires known == Some(op) || (known == None && es != [])
    ensures ParseMore(known, done, MoreText(op, es) + rest) == Ok((Level(Some(op), done + es), rest))
    decreases es, 2
  {
    if es == [] {
      assert MoreText(op, es) + rest == rest && done + es == done && Skip(rest) == rest;
    } else {
      var more := MoreText(op, es[1..]) + rest;
      ConcatAssoc([op], TermText(es[0]) + MoreText(op, es[1..]), rest);
      ConcatAssoc(TermText(es[0]), MoreText(op, es[1..]), rest);
      TermReads(es[0], more);
      MoreStep(known, op, done, TermText(es[0]) + more, es[0], more);
      MoreReads(Some(op), op, done + [es[0]], es[1..], rest);
      assert (done + [es[0]]) + es[1..] == done + es;
    }
  }

  /** Whatever parses is well formed, so labels have one normal form. */
  lemma {:induction false} TermWellFormed(t: string)
    requires ParseTerm(t).Ok?
    ensures WellFormed(ParseTerm(t).value.0)
    decreases |t|, 0
  {
    var u := Skip(t);
    if u != [] && u[0] == '(' { LabelWellFormed(u[1..]); }
  }

  lemma {:induction false} LabelWellFormed(t: string)
    requires ParseExpr(t).Ok?
    ensures WellFormed(ParseExpr(t).value.0)
    decreases |t|, 2
  {
    TermWellFormed(t);
    var a := ParseTerm(t).value;
    assert AllWellFormed([a.0][1..]) && AllWellFormed([a.0]);
    MoreWellFormed(None, [a.0], a.1);
  }

  lemma {:induction false} MoreWellFormed(op: Option<char>, parts: seq<Label>, t: string)
    requires parts != [] && AllWellFormed(parts) && (if op.None? then |parts| == 1 else |parts| >= 2)
    requires ParseMore(op, parts, t).Ok?
    ensures WellFormed(ParseMore(op, parts, t).value.0)
    decreases |t|, 1
  {
    var u := Skip(t);
    if u != [] && IsOp(u[0]) {
      TermWellFormed(u[1..]);
      var a := ParseTerm(u[1..]).value;
      WellFormedMore(parts, a.0);
      MoreWellFormed(Some(u[0]), parts + [a.0], a.1);
    }
  }

  lemma {:induction false} WellFormedMore(es: seq<Label>, e: Label)
    requires AllWellFormed(es) && WellFormed(e)
    ensures AllWellFormed(es + [e])
  {
    if es == [] {
      assert (es + [e])[1..] == [];
    } else {
      WellFormedMore(es[1..], e);
      assert (es + [e])[1..] == es[1..] + [e];
    }
  }

  /** Labels and their text: the printed form of a label parses to it, and any text that
   *  parses is, to every reader, the printed form of what it parsed to. */
  lemma LabelRoundTrips(e: Label, text: string)
    ensures WellFormed(e) ==> Parse(LabelText(e)) == Ok(e)
    ensures Parse(text).Ok? ==> WellFormed(Parse(text).value) && Parse(LabelText(Parse(text).value)) == Parse(text)
  {
    if WellFormed(e) {
      LabelReads(e, []);
      assert LabelText(e) + [] == LabelText(e);
    }
    if Parse(text).Ok? {
      var f := Parse(text).value;
      LabelWellFormed(text);
      LabelReads(f, []);
      assert LabelText(f) + [] == LabelText(f);
    }
  }

  // ----- quoted tokens that are not ASCII

  lemma {:induction false} Utf8Quotes(t: string)
    ensures Utf8(EscapeQuotes(t)) == EscapeQuotes(Utf8(t))
  {
    if t != [] {
      Utf8Quotes(t[1..]);
      var c := if t[0] == '"' || t[0] == '\\' then ['\\', t[0]] else [t[0]];
      Utf8Append(c, EscapeQuotes(t[1..]));
      Utf8One(t[0]);
      QuotesAppend(Utf8Char(t[0]), Utf8(t[1..]));
    }
  }

  lemma {:induction false} Utf8Append(a: string, b: string)
    ensures Utf8(a + b) == Utf8(a) + Utf8(b)
  {
    if a == [] {
      assert a + b == b;
    } else {
      Utf8Append(a[1..], b);
      assert (a + b)[1..] == a[1..] + b;
      ConcatAssoc(Utf8Char(a[0]), Utf8(a[1..]), Utf8(b));
    }
  }

  lemma {:induction false} QuotesAppend(a: string, b: string)
    ensures EscapeQuotes(a + b) == EscapeQuotes(a) + EscapeQuotes(b)
  {
    if a == [] {
      assert a + b == b;
    } else {
      QuotesAppend(a[1..], b);
      assert (a + b)[1..] == a[1..] + b;
      var c := if a[0] == '"' || a[0] == '\\' then ['\\', a[0]] else [a[0]];
      ConcatAssoc(c, EscapeQuotes(a[1..]), EscapeQuotes(b));
    }
  }

  lemma {:induction false} NothingToEscape(s: string)
    requires forall i :: 0 <= i < |s| ==> s[i] != '"' && s[i] != '\\'
    ensures EscapeQuotes(s) == s
  {
    if s != [] {
      NothingToEscape(s[1..]);
      assert s == [s[0]] + s[1..];
    }
  }

  lemma Utf8One(c: char)
    ensures var esc := if c == '"' || c == '\\' then ['\\', c] else [c];
            Utf8(esc) == EscapeQuotes(Utf8Char(c))
  {
    var esc := if c == '"' || c == '\\' then ['\\', c] else [c];
    assert esc[1..] == if |esc| == 2 then [c] else [];
    assert Utf8([c]) == Utf8Char(c) + Utf8([]) == Utf8Char(c) by { assert [c][1..] == []; }
    if c == '"' || c == '\\' {
      assert [c][1..] == [] && EscapeQuotes([c]) == ['\\', c];
    } else {
      NothingToEscape(Utf8Char(c));
    }
  }

  function QuotedLabel(t: string): string { ['"'] + (EscapeQuotes(t) + ['"']) }

  /** A quoted token is compared byte by byte as if each byte were a character: what grants it is
   *  the authorization spelled by its bytes, which is the token itself exactly when it is ASCII. */
  lemma QuotedTokenGrantsIff(t: string, auths: set<string>)
    requires t != []
    ensures IsVisible(QuotedLabel(t), auths) <==> Utf8(t) in auths
    ensures Utf8(t) == t <==> Ascii(t)
  {
    var bytes := Utf8(QuotedLabel(t));
    Utf8Append(['"'], EscapeQuotes(t) + ['"']);
    Utf8Append(EscapeQuotes(t), ['"']);
    Utf8Quotes(t);
    assert Utf8(['"']) == ['"'] by { assert ['"'][1..] == []; }
    assert bytes == ['"'] + (EscapeQuotes(Utf8(t)) + ['"']);
    Utf8Same(t);
    QuotedParses(Utf8(t));
    assert !IsSpace(QuotedLabel(t)[0]);
  }

  lemma QuotedParses(name: string)
    requires name != []
    ensures Parse(QuotedLabel(name)) == Ok(Token(name))
  {
    var t := QuotedLabel(name);
    QuotedReads(name, []);
    assert t[0] == '"' && Skip(t) == t && t[1..] == EscapeQuotes(name) + (['"'] + []);
    assert ParseTerm(t) == Ok((Token(name), []));
    assert ParseExpr(t) == Ok((Token(name), []));
  }
}
