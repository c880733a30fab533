/** Names in line protocol: what the printer escapes, what the parser unescapes, and exactly
 *  which names survive the two. */
module Escapes {
  import opened Basics

  /** What a backslash may escape. */
  predicate Special(c: char) { c == ',' || c == ' ' || c == '=' || c == '\\' }

  /** Where a name stands decides whether `=` is escaped and which character ends it. */
  datatype Place = Measurement | Key | TagValue
  {
    function Stop(): char { if this.Key? then '=' else ',' }

    predicate Escaped(c: char) { c == ',' || c == ' ' || (!this.Measurement? && c == '=') }

    predicate Ends(c: char) { c == Stop() || c == ' ' }
  }

  // ----- the parser's half

  /** The name at the front of `t`, unescaped, and what follows it. */
  function Unescape(p: Place, t: string): (r: (string, string))
    ensures |r.0| + |r.1| <= |t|
  {
    if t == [] then ([], [])
    else if t[0] == '\\' && |t| > 1 && Special(t[1]) then
      var r := Unescape(p, t[2..]); ([t[1]] + r.0, r.1)
    else if p.Ends(t[0]) then ([], t)
    else
      var r := Unescape(p, t[1..]); ([t[0]] + r.0, r.1)
  }

  /** `take_escaped`: advances `pos` over the name. */
  method TakeEscaped(line: string, pos: nat, p: Place) returns (name: string, pos': nat)
    requires pos <= |line|
    ensures pos <= pos' <= |line|
    ensures (name, line[pos'..]) == Unescape(p, line[pos..])
  {
    name, pos' := [], pos;
    assert [] + Unescape(p, line[pos..]).0 == Unescape(p, line[pos..]).0;
    while pos' < |line|
      invariant pos <= pos' <= |line|
      invariant Unescape(p, line[pos..]) == (name + Unescape(p, line[pos'..]).0, Unescape(p, line[pos'..]).1)
    {
      var b := line[pos'];
      ghost var t := line[pos'..];
      assert t[1..] == line[pos' + 1..];
      if b == '\\' && pos' + 1 < |line| && Special(line[pos' + 1]) {
        assert t[2..] == line[pos' + 2..];
        Shift(name, line[pos' + 1], Unescape(p, t[2..]).0);
        name, pos' := name + [line[pos' + 1]], pos' + 2;
        continue;
      }
      if p.Ends(b) {
        assert name + [] == name;
        return;
      }
      Shift(name, b, Unescape(p, t[1..]).0);
      name, pos' := name + [b], pos' + 1;
    }
    assert name + [] == name;
  }

  lemma Shift(a: string, c: char, b: string)
    ensures a + ([c] + b) == (a + [c]) + b
  {
  }

  // ----- the printer's half

  function EscapeChar(p: Place, c: char): string { if p.Escaped(c) then ['\\', c] else [c] }

  function Escape(p: Place, s: string): string {
    if s == [] then [] else EscapeChar(p, s[0]) + Escape(p, s[1..])
  }

  /** `escape_into` */
  method EscapeInto(out: string, s: string, p: Place) returns (out': string)
    ensures out' == out + Escape(p, s)
  {
    out' := out;
    assert s[0..] == s;
    for i := 0 to |s|
      invariant out' + Escape(p, s[i..]) == out + Escape(p, s)
    {
      ghost var rest := Escape(p, s[i + 1..]);
      assert s[i..][1..] == s[i + 1..];
      ConcatAssoc(out', EscapeChar(p, s[i]), rest);
      if p.Escaped(s[i]) {
        out' := out' + ['\\'] + [s[i]];
        assert ['\\'] + [s[i]] == ['\\', s[i]];
      } else {
        out' := out' + [s[i]];
      }
    }
    assert s[|s|..] == [] && out' + [] == out';
  }

  // ----- the names that survive

  /** A backslash survives when what follows it is printed as itself and is nothing special,
   *  or is escaped and does not end a name here. */
  predicate Follows(p: Place, c: char) { c != '\\' && (Special(c) ==> p.Escaped(c) && !p.Ends(c)) }

  predicate NameOk(p: Place, s: string) {
    forall i :: 0 <= i < |s| && s[i] == '\\' ==> i + 1 < |s| && Follows(p, s[i + 1])
  }

  lemma NameOkCons(p: Place, c: char, s: string)
    ensures NameOk(p, [c] + s) <==> NameOk(p, s) && (c == '\\' ==> s != [] && Follows(p, s[0]))
  {
    var t := [c] + s;
    assert forall i :: 0 <= i < |s| ==> t[i + 1] == s[i];
    if NameOk(p, t) {
      forall i | 0 <= i < |s| && s[i] == '\\' ensures i + 1 < |s| && Follows(p, s[i + 1]) {
        assert t[i + 1] == '\\';
        assert t[i + 2] == s[i + 1];
      }
      assert c == '\\' ==> t[0] == '\\' && t[1] == s[0];
    }
    if NameOk(p, s) && (c == '\\' ==> s != [] && Follows(p, s[0])) {
      forall i | 0 <= i < |t| && t[i] == '\\' ensures i + 1 < |t| && Follows(p, t[i + 1]) {
        assert i > 0 ==> s[i - 1] == '\\';
      }
    }
  }

  /** The text after a name: the character that ends it comes first. */
  predicate Delimited(p: Place, rest: string) { rest != [] && p.Ends(rest[0]) }

  lemma EscapeCons(p: Place, s: string, rest: string)
    requires s != []
    ensures Escape(p, s) + rest == EscapeChar(p, s[0]) + (Escape(p, s[1..]) + rest)
  {
    ConcatAssoc(EscapeChar(p, s[0]), Escape(p, s[1..]), rest);
  }

  /** Parsing an escaped pair. */
  lemma TakePair(p: Place, c: char, more: string)
    requires Special(c)
    ensures Unescape(p, ['\\', c] + more) == ([c] + Unescape(p, more).0, Unescape(p, more).1)
  {
    var t := ['\\', c] + more;
    assert t[2..] == more && t[0] == '\\' && t[1] == c;
  }

  /** Parsing a character that stands for itself. */
  lemma TakePlain(p: Place, c: char, more: string)
    requires !p.Ends(c) && (c == '\\' ==> more == [] || !Special(more[0]))
    ensures Unescape(p, [c] + more) == ([c] + Unescape(p, more).0, Unescape(p, more).1)
  {
    var t := [c] + more;
    assert t[1..] == more && (more != [] ==> t[1] == more[0]);
  }

  lemma TakeEnd(p: Place, t: string)
    requires Delimited(p, t)
    ensures Unescape(p, t) == ([], t)
  {
  }

  /** The first character printed for what follows. */
  lemma EscapeHead(p: Place, s: string, rest: string)
    requires rest != []
    ensures var t := Escape(p, s) + rest;
            t != [] && t[0] == (if s == [] then rest[0] else if p.Escaped(s[0]) then '\\' else s[0])
  {
  }

  lemma TwoThenOne(a: char, b: char, c: char, more: string)
    ensures [a] + ([b, c] + more) == [a, b] + ([c] + more)
  {
  }

  lemma OneThenOne(a: char, b: char, more: string)
    ensures [a] + ([b] + more) == [a, b] + more
  {
  }

  /** A bare backslash pairs with the one that escapes the next character, which then has to
   *  stand for itself. */
  lemma TakeBackslashed(p: Place, c: char, more: string)
    requires p.Escaped(c) && !p.Ends(c)
    ensures Unescape(p, ['\\'] + (['\\', c] + more)) == (['\\', c] + Unescape(p, more).0, Unescape(p, more).1)
  {
    TwoThenOne('\\', '\\', c, more);
    TakePair(p, '\\', [c] + more);
    TakePlain(p, c, more);
    OneThenOne('\\', c, Unescape(p, more).0);
  }

  /** Names that meet the condition come back whole. */
  lemma {:induction false} NameRoundTrip(p: Place, s: string, rest: string)
    requires NameOk(p, s) && Delimited(p, rest)
    ensures Unescape(p, Escape(p, s) + rest) == (s, rest)
  {
    if s == [] {
      assert Escape(p, s) + rest == rest;
      TakeEnd(p, rest);
    } else {
      var more := Escape(p, s[1..]) + rest;
      assert s == [s[0]] + s[1..];
      NameOkCons(p, s[0], s[1..]);
      EscapeCons(p, s, rest);
      if s[0] == '\\' && p.Escaped(s[1]) {
        assert s[1..] == [s[1]] + s[2..] && s[1..][1..] == s[2..];
        EscapeCons(p, s[1..], rest);
        TakeBackslashed(p, s[1], Escape(p, s[2..]) + rest);
        NameOkCons(p, s[1], s[2..]);
        NameRoundTrip(p, s[2..], rest);
        assert s == ['\\', s[1]] + s[2..];
      } else {
        NameRoundTrip(p, s[1..], rest);
        EscapeHead(p, s[1..], rest);
        if p.Escaped(s[0]) { TakePair(p, s[0], more); } else { TakePlain(p, s[0], more); }
      }
    }
  }

  // ----- and only those

  /** How a printed name that starts with a backslash and then c parses: `after` and
   *  `beyond` are what parsing from c and from past c would give. */
  predicate BackslashCase(p: Place, c: char, got: string, after: string, beyond: string) {
    if c == '\\' then got == ['\\'] + beyond
    else if p.Escaped(c) then (if p.Ends(c) then got == ['\\'] else got == ['\\', c] + beyond)
    else if Special(c) then got != [] && got[0] != '\\'
    else got == ['\\'] + after
  }

  lemma BackslashThen(p: Place, c: char, tail: string)
    ensures BackslashCase(p, c, Unescape(p, ['\\'] + (EscapeChar(p, c) + tail)).0,
                          Unescape(p, EscapeChar(p, c) + tail).0, Unescape(p, tail).0)
  {
    if c == '\\' {
      assert ['\\'] + (['\\'] + tail) == ['\\', '\\'] + tail;
      TakePair(p, '\\', tail);
    } else if p.Escaped(c) {
      TakeEscapedAfter(p, c, tail);
    } else if Special(c) {
      assert ['\\'] + ([c] + tail) == ['\\', c] + tail;
      TakePair(p, c, tail);
    } else {
      TakePlain(p, '\\', [c] + tail);
    }
  }

  lemma BackslashCases(p: Place, s: string, rest: string)
    requires |s| > 1 && s[0] == '\\'
    ensures BackslashCase(p, s[1], Unescape(p, Escape(p, s) + rest).0, Unescape(p, Escape(p, s[1..]) + rest).0,
                          Unescape(p, Escape(p, s[2..]) + rest).0)
  {
    EscapeCons(p, s, rest);
    assert s[1..][1..] == s[2..];
    EscapeCons(p, s[1..], rest);
    BackslashThen(p, s[1], Escape(p, s[2..]) + rest);
  }

  /** A name that ends in a backslash escapes its own delimiter. */
  lemma LoneBackslash(p: Place, s: string, rest: string)
    requires Delimited(p, rest) && s == ['\\']
    ensures Unescape(p, Escape(p, s) + rest).0 != [] && Unescape(p, Escape(p, s) + rest).0[0] != '\\'
  {
    EscapeCons(p, s, rest);
    assert Escape(p, s[1..]) + rest == rest;
    assert ['\\'] + rest == ['\\', rest[0]] + rest[1..];
    TakePair(p, rest[0], rest[1..]);
  }

  lemma TakeEscapedAfter(p: Place, c: char, tail: string)
    requires p.Escaped(c)
    ensures var got := Unescape(p, ['\\'] + (['\\', c] + tail)).0;
            if p.Ends(c) then got == ['\\'] else got == ['\\', c] + Unescape(p, tail).0
  {
    if p.Ends(c) {
      assert ['\\'] + (['\\', c] + tail) == ['\\', '\\'] + ([c] + tail);
      TakePair(p, '\\', [c] + tail);
      TakeEnd(p, [c] + tail);
    } else {
      TakeBackslashed(p, c, tail);
    }
  }

  /** Any other first character is parsed as itself. */
  lemma OtherCase(p: Place, s: string, rest: string)
    requires Delimited(p, rest) && s != [] && s[0] != '\\' && (p.Escaped(s[0]) || !p.Ends(s[0]))
    ensures Unescape(p, Escape(p, s) + rest).0 == [s[0]] + Unescape(p, Escape(p, s[1..]) + rest).0
  {
    var more := Escape(p, s[1..]) + rest;
    EscapeCons(p, s, rest);
    if p.Escaped(s[0]) { TakePair(p, s[0], more); } else { TakePlain(p, s[0], more); }
  }

  function Backslashes(k: nat): string { seq(k, _ => '\\') }

  lemma BackslashesMore(k: nat, s: string)
    requires k > 0
    ensures (Backslashes(k) + s)[0] == '\\' && (Backslashes(k) + s)[1..] == Backslashes(k - 1) + s
    ensures Backslashes(k) + (['\\'] + s) == Backslashes(k + 1) + s
  {
  }

  /** Parsing never yields more backslashes than were printed. */
  lemma {:induction false} NeverLonger(p: Place, s: string, rest: string, k: nat)
    requires Delimited(p, rest) && k > 0
    ensures Unescape(p, Escape(p, s) + rest).0 != Backslashes(k) + s
    decreases |s|
  {
    var got, want := Unescape(p, Escape(p, s) + rest).0, Backslashes(k) + s;
    BackslashesMore(k, s);
    if s == [] {
      assert Escape(p, s) + rest == rest;
      TakeEnd(p, rest);
    } else if s[0] != '\\' {
      OtherCase(p, s, rest);
    } else {
      if |s| == 1 {
        LoneBackslash(p, s, rest);
      } else {
        BackslashCases(p, s, rest);
        NeverLonger(p, s[1..], rest, k);
        NeverLonger(p, s[2..], rest, k + 1);
        NeverLongerStep(p, s, k, got, Unescape(p, Escape(p, s[1..]) + rest).0, Unescape(p, Escape(p, s[2..]) + rest).0);
      }
    }
  }

  lemma NeverLongerStep(p: Place, s: string, k: nat, got: string, after: string, beyond: string)
    requires |s| > 1 && s[0] == '\\' && k > 0
    requires after != Backslashes(k) + s[1..] && beyond != Backslashes(k + 1) + s[2..]
    requires BackslashCase(p, s[1], got, after, beyond)
    ensures got != Backslashes(k) + s
  {
    var want := Backslashes(k) + s;
    assert s == ['\\'] + s[1..] && s[1..] == [s[1]] + s[2..];
    BackslashesMore(k, s[1..]);
    BackslashesMore(k + 1, s[1..]);
    assert want == Backslashes(k + 1) + s[1..] && want[0] == '\\' && want[1..] == Backslashes(k) + s[1..];
    assert want[1] == '\\' && |want| > 2;
    if s[1] == '\\' {
      BackslashesMore(k, s[2..]);
      assert (['\\'] + beyond)[1..] == beyond;
    } else if !Special(s[1]) {
      assert (['\\'] + after)[1..] == after;
    }
  }

  /** What must follow the backslash of a name that came back as itself. */
  lemma CaseMeans(p: Place, s: string, after: string, beyond: string)
    requires |s| > 1 && s[0] == '\\' && BackslashCase(p, s[1], s, after, beyond)
    ensures s[1] == '\\' ==> beyond == Backslashes(1) + s[2..]
    ensures s[1] != '\\' && p.Escaped(s[1]) ==> !p.Ends(s[1]) && beyond == s[2..]
    ensures s[1] != '\\' && !p.Escaped(s[1]) ==> !Special(s[1]) && after == s[1..]
  {
    assert (['\\'] + beyond)[1..] == beyond && (['\\', s[1]] + beyond)[2..] == beyond && (['\\'] + after)[1..] == after;
    assert s[1] == '\\' ==> s[1..] == Backslashes(1) + s[2..];
  }

  /** A name that comes back as itself meets the condition. */
  lemma {:induction false} OnlyNameOk(p: Place, s: string, rest: string)
    requires Delimited(p, rest) && Unescape(p, Escape(p, s) + rest).0 == s
    ensures NameOk(p, s)
    decreases |s|
  {
    if s != [] {
      assert s == [s[0]] + s[1..];
      NameOkCons(p, s[0], s[1..]);
      if s[0] != '\\' {
        OtherCase(p, s, rest);
        OnlyNameOk(p, s[1..], rest);
      } else if |s| == 1 {
        LoneBackslash(p, s, rest);
      } else {
        OnlyBackslashOk(p, s, rest);
      }
    }
  }

  lemma {:induction false} OnlyBackslashOk(p: Place, s: string, rest: string)
    requires Delimited(p, rest) && |s| > 1 && s[0] == '\\' && Unescape(p, Escape(p, s) + rest).0 == s
    ensures NameOk(p, s[1..]) && Follows(p, s[1])
    decreases |s|, 0
  {
    BackslashCases(p, s, rest);
    CaseMeans(p, s, Unescape(p, Escape(p, s[1..]) + rest).0, Unescape(p, Escape(p, s[2..]) + rest).0);
    if s[1] == '\\' {
      NeverLonger(p, s[2..], rest, 1);
    } else if p.Escaped(s[1]) {
      OnlyNameOk(p, s[2..], rest);
      assert s[1..] == [s[1]] + s[2..];
      NameOkCons(p, s[1], s[2..]);
    } else {
      OnlyNameOk(p, s[1..], rest);
    }
  }

  /** A name survives printing and parsing exactly when it meets the condition. */
  lemma NameSurvivesIff(p: Place, s: string, rest: string)
    requires Delimited(p, rest)
    ensures Unescape(p, Escape(p, s) + rest).0 == s <==> NameOk(p, s)
    ensures NameOk(p, s) ==> Unescape(p, Escape(p, s) + rest).1 == rest
  {
    if NameOk(p, s) { NameRoundTrip(p, s, rest); } else if Unescape(p, Escape(p, s) + rest).0 == s { OnlyNameOk(p, s, rest); }
  }
}
