/** What labels grant, said of their text and of authorization sets alone. */
module Labels {
  import opened Basics
  import opened Visibility
  import opened LabelRoundTrip

  /** What a label demands of the authorizations. */
  ghost predicate Meets(e: Label, auths: set<string>)
    decreases e
  {
    match e
    case Token(name) => name in auths
    case AllOf(parts) => forall i :: 0 <= i < |parts| ==> Meets(parts[i], auths)
    case AnyOf(parts) => exists i :: 0 <= i < |parts| && Meets(parts[i], auths)
  }

  lemma {:induction false} SatIsMeets(e: Label, auths: set<string>)
    ensures Sat(e, auths) <==> Meets(e, auths)
    decreases e, 0
  {
    match e
    case Token(_) =>
    case AllOf(parts) => SatAllIs(parts, auths);
    case AnyOf(parts) => SatAnyIs(parts, auths);
  }

  lemma {:induction false} SatAllIs(es: seq<Label>, auths: set<string>)
    ensures SatAll(es, auths) <==> forall i :: 0 <= i < |es| ==> Meets(es[i], auths)
    decreases es, 1
  {
    if es != [] {
      var n, before := |es| - 1, es[..|es| - 1];
      SatAllIs(before, auths);
      SatIsMeets(es[n], auths);
      assert forall i :: 0 <= i < n ==> before[i] == es[i];
    }
  }

  lemma {:induction false} SatAnyIs(es: seq<Label>, auths: set<string>)
    ensures SatAny(es, auths) <==> exists i :: 0 <= i < |es| && Meets(es[i], auths)
    decreases es, 1
  {
    if es != [] {
      var n, before := |es| - 1, es[..|es| - 1];
      SatAnyIs(before, auths);
      SatIsMeets(es[n], auths);
      if i :| 0 <= i < |before| && Meets(before[i], auths) { assert Meets(es[i], auths); }
      if i :| 0 <= i < |es| && Meets(es[i], auths) { assert i < n ==> Meets(before[i], auths); }
    }
  }

  lemma TermHead(e: Label)
    requires WellFormed(e)
    ensures TermText(e) != [] && !IsSpace(TermText(e)[0])
  {
  }

  lemma LabelHead(e: Label)
    requires WellFormed(e)
    ensures LabelText(e) != [] && !IsSpace(LabelText(e)[0])
  {
    match e
    case Token(_) => TermHead(e);
    case AllOf(parts) => TermHead(parts[0]);
    case AnyOf(parts) => TermHead(parts[0]);
  }

  /** The printed form of a label is visible to exactly the sessions that meet it. */
  lemma LabelGrantsIff(e: Label, auths: set<string>)
    requires WellFormed(e) && Ascii(LabelText(e))
    ensures IsVisible(LabelText(e), auths) <==> Meets(e, auths)
  {
    LabelRoundTrips(e, []);
    Utf8Same(LabelText(e));
    LabelHead(e);
    SatIsMeets(e, auths);
  }

  // ----- as text

  /** Letters, digits and `_ - . : /`. */
  predicate IsName(t: string) {
    t != [] && forall i :: 0 <= i < |t| ==>
      'a' <= t[i] <= 'z' || 'A' <= t[i] <= 'Z' || '0' <= t[i] <= '9' || t[i] in {'_', '-', '.', ':', '/'}
  }

  predicate IsPadding(t: string) { forall i :: 0 <= i < |t| ==> t[i] in {' ', '\t', '\n', '\r', '\U{C}'} }

  lemma NameIsBare(t: string)
    requires IsName(t)
    ensures IsBare(t) && Ascii(t) && LabelText(Token(t)) == t && WellFormed(Token(t))
  {
  }

  lemma {:induction false} SkipPadding(pad: string, t: string)
    requires IsPadding(pad)
    ensures Skip(pad + t) == Skip(t)
  {
    if pad == [] {
      assert pad + t == t;
    } else {
      SkipPadding(pad[1..], t);
      assert (pad + t)[1..] == pad[1..] + t;
    }
  }

  lemma {:induction false} BareStops(t: string, post: string)
    requires IsName(t) || t == []
    requires IsPadding(post)
    ensures Bare(t + post) == (t, post)
  {
    if t == [] {
      assert t + post == post;
    } else {
      BareStops(t[1..], post);
      assert (t + post)[1..] == t[1..] + post && t == [t[0]] + t[1..];
    }
  }

  /** An unquoted token, padded or not, is visible to exactly the sessions that hold it. */
  lemma NameGrantsIff(pre: string, t: string, post: string, auths: set<string>)
    requires IsPadding(pre) && IsName(t) && IsPadding(post)
    ensures IsVisible(pre + (t + post), auths) <==> t in auths
  {
    var text, rest := pre + (t + post), t + post;
    Utf8Same(text);
    assert text[|pre|] == t[0] && !IsSpace(text[|pre|]);
    SkipPadding(pre, rest);
    assert rest[0] == t[0] && Skip(rest) == rest;
    BareStops(t, post);
    assert ParseTerm(text) == Ok((Token(t), post));
    SkipPadding(post, []);
    assert post + [] == post;
    assert ParseMore(None, [Token(t)], post) == Ok((Token(t), []));
  }

  /** `a&b` asks for both, `a|b` for either. */
  lemma PairGrantsIff(a: string, b: string, auths: set<string>)
    requires IsName(a) && IsName(b)
    ensures IsVisible(a + (['&'] + b), auths) <==> a in auths && b in auths
    ensures IsVisible(a + (['|'] + b), auths) <==> a in auths || b in auths
  {
    NameIsBare(a);
    NameIsBare(b);
    var parts := [Token(a), Token(b)];
    PairText('&', a, b, parts);
    PairText('|', a, b, parts);
    LabelGrantsIff(AllOf(parts), auths);
    LabelGrantsIff(AnyOf(parts), auths);
    assert Meets(parts[0], auths) <==> a in auths;
    assert Meets(parts[1], auths) <==> b in auths;
  }

  lemma PairText(op: char, a: string, b: string, parts: seq<Label>)
    requires IsName(a) && IsName(b) && parts == [Token(a), Token(b)] && op as int < 0x80
    ensures TermText(parts[0]) + MoreText(op, parts[1..]) == a + ([op] + b) && Ascii(a + ([op] + b))
    ensures WellFormed(AllOf(parts)) && WellFormed(AnyOf(parts))
  {
    NameIsBare(a);
    NameIsBare(b);
    assert parts[1..] == [Token(b)] && [Token(b)][1..] == [];
    assert MoreText(op, [Token(b)]) == [op] + (b + []) && b + [] == b;
    assert AllWellFormed(parts[1..][1..]) && AllWellFormed(parts[1..]);
  }

  /** Both operators on one level is malformed, and so visible to nobody. */
  lemma MixedIsHidden(a: string, b: string, c: string, auths: set<string>)
    requires IsName(a) && IsName(b) && IsName(c)
    ensures !IsVisible(a + (['&'] + (b + (['|'] + c))), auths)
  {
    var third := ['|'] + c;
    var text := a + (['&'] + (b + third));
    MixedFails(a, b, third, ['&'] + (b + third));
    Utf8Same(text);
    assert text[0] == a[0];
  }

  lemma MixedFails(a: string, b: string, third: string, second: string)
    requires IsName(a) && IsName(b) && third != [] && third[0] == '|' && second == ['&'] + (b + third)
    ensures ParseExpr(a + second) == Err(Mixed)
  {
    NameIsBare(a);
    NameIsBare(b);
    TokenReads(a, second);
    TokenReads(b, third);
    MoreStep(None, '&', [Token(a)], b + third, Token(b), third);
    assert Skip(third) == third;
  }

  /** A label of nothing but white space, the empty one included, is public. */
  lemma BlankIsPublic(text: string, auths: set<string>)
    requires forall i :: 0 <= i < |text| ==> IsSpace(text[i])
    ensures IsVisible(text, auths)
  {
  }

  // ----- bytes

  /** The code point that one, two, three or four UTF-8 bytes spell. */
  function CodePoint(b: string): int {
    if |b| == 1 then b[0] as int
    else if |b| == 2 then (b[0] as int - 0xC0) * 0x40 + (b[1] as int - 0x80)
    else if |b| == 3 then (b[0] as int - 0xE0) * 0x1000 + (b[1] as int - 0x80) * 0x40 + (b[2] as int - 0x80)
    else if |b| == 4 then (b[0] as int - 0xF0) * 0x4_0000 + (b[1] as int - 0x80) * 0x1000 + (b[2] as int - 0x80) * 0x40 + (b[3] as int - 0x80)
    else -1
  }

  /** A character's bytes spell it, in the length its code point calls for. */
  lemma Utf8CharReads(c: char)
    ensures var n, b := c as int, Utf8Char(c);
            && CodePoint(b) == n && |b| == (if n < 0x80 then 1 else if n < 0x800 then 2 else if n < 0x1_0000 then 3 else 4)
            && forall i :: 1 <= i < |b| ==> 0x80 <= b[i] as int < 0xC0
  {
    var n := c as int;
    assert n < 0x11_0000;
    assert n == n / 0x40 * 0x40 + n % 0x40;
    assert n / 0x40 == n / 0x40 / 0x40 * 0x40 + n / 0x40 % 0x40 && n / 0x40 / 0x40 == n / 0x1000;
    assert n / 0x1000 == n / 0x1000 / 0x40 * 0x40 + n / 0x1000 % 0x40 && n / 0x1000 / 0x40 == n / 0x4_0000;
  }
}
