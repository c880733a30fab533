/** Decimal rendering and the byte order of rendered names.
 *
 *  Manifest objects and rotated audit segments are named by a sequence number
 *  printed with `{:012}`, and both logs are replayed in name order.  This module
 *  proves when name order is number order.
 */
module Names {
  import opened Basics

  predicate IsDigit(c: char) { '0' <= c <= '9' }

  function DigitChar(d: nat): (c: char)
    requires d < 10
    ensures IsDigit(c) && c as int - '0' as int == d
  {
    '0' + d as char
  }

  function Pow10(k: nat): (r: nat)
    ensures r > 0
  {
    if k == 0 then 1 else 10 * Pow10(k - 1)
  }

  /** `n.to_string()` for an unsigned number. */
  function Digits(n: nat): (s: string)
    ensures s != [] && forall i :: 0 <= i < |s| ==> IsDigit(s[i])
  {
    if n < 10 then [DigitChar(n)] else Digits(n / 10) + [DigitChar(n % 10)]
  }

  function Zeros(k: nat): (s: string)
    ensures |s| == k && forall i :: 0 <= i < k ==> s[i] == '0'
  {
    seq(k, _ => '0')
  }

  /** `format!("{n:0w}")`: zero-padded on the left, never truncated. */
  function Padded(n: nat, w: nat): (s: string)
    ensures |s| >= w
  {
    if |Digits(n)| < w then Zeros(w - |Digits(n)|) + Digits(n) else Digits(n)
  }

  function DigitValue(c: char): nat
    requires IsDigit(c)
  {
    c as int - '0' as int
  }

  /** The number a string of digits denotes. */
  function DecimalValue(s: string): nat
    requires forall i :: 0 <= i < |s| ==> IsDigit(s[i])
  {
    if s == [] then 0 else 10 * DecimalValue(Init(s)) + DigitValue(Last(s))
  }

  lemma {:induction false} DigitsValue(n: nat)
    ensures DecimalValue(Digits(n)) == n
  {
    if n < 10 {
      assert Init([DigitChar(n)]) == [];
    } else {
      DigitsValue(n / 10);
      assert Init(Digits(n)) == Digits(n / 10);
    }
  }

  lemma {:induction false} ZerosValue(k: nat, s: string)
    requires forall i :: 0 <= i < |s| ==> IsDigit(s[i])
    ensures DecimalValue(Zeros(k) + s) == DecimalValue(s)
    decreases |s|, k
  {
    if s != [] {
      assert Init(Zeros(k) + s) == Zeros(k) + Init(s);
      ZerosValue(k, Init(s));
    } else if k > 0 {
      assert Init(Zeros(k) + s) == Zeros(k - 1) + s;
      ZerosValue(k - 1, s);
    }
  }

  lemma PaddedValue(n: nat, w: nat)
    ensures forall i :: 0 <= i < |Padded(n, w)| ==> IsDigit(Padded(n, w)[i])
    ensures DecimalValue(Padded(n, w)) == n
  {
    DigitsValue(n);
    if |Digits(n)| < w { ZerosValue(w - |Digits(n)|, Digits(n)); }
  }

  /** Exactly `w` digits: the rendering of numbers below 10^w. */
  function Fixed(n: nat, w: nat): (s: string)
    ensures |s| == w && forall i :: 0 <= i < w ==> IsDigit(s[i])
  {
    if w == 0 then [] else Fixed(n / 10, w - 1) + [DigitChar(n % 10)]
  }

  lemma {:induction false} FixedZero(w: nat)
    ensures Fixed(0, w) == Zeros(w)
  {
    if w > 0 { FixedZero(w - 1); }
  }

  lemma {:induction false} PaddedIsFixed(n: nat, w: nat)
    requires 0 < w && n < Pow10(w)
    ensures Padded(n, w) == Fixed(n, w)
  {
    if n < 10 {
      FixedZero(w - 1);
    } else {
      PaddedIsFixed(n / 10, w - 1);
    }
  }

  /** The number written `d` followed by `k` zeros. */
  function Round(d: nat, k: nat): nat {
    if k == 0 then d else 10 * Round(d, k - 1)
  }

  lemma {:induction false} RoundPow10(k: nat)
    ensures Round(1, k) == Pow10(k) && Round(9, k) + Pow10(k) == Pow10(k + 1)
  {
    if k > 0 { RoundPow10(k - 1); }
  }

  lemma {:induction false} LeadingDigit(n: nat, d: nat, k: nat)
    requires 1 <= d <= 9 && Round(d, k) <= n < Round(d, k) + Pow10(k)
    ensures |Digits(n)| == k + 1 && Digits(n)[0] == DigitChar(d)
  {
    if k > 0 {
      RoundPositive(d, k - 1);
      LeadingDigit(n / 10, d, k - 1);
    }
  }

  lemma {:induction false} RoundPositive(d: nat, k: nat)
    requires 1 <= d
    ensures Round(d, k) >= 1
  {
    if k > 0 { RoundPositive(d, k - 1); }
  }

  // ----- byte order of strings

  predicate LexLess(a: string, b: string) {
    b != [] && (a == [] || a[0] < b[0] || (a[0] == b[0] && LexLess(a[1..], b[1..])))
  }

  lemma {:induction false} LexTransitive(a: string, b: string, c: string)
    requires LexLess(a, b) && LexLess(b, c)
    ensures LexLess(a, c)
  {
    if a != [] && a[0] == b[0] && b[0] == c[0] {
      LexTransitive(a[1..], b[1..], c[1..]);
    }
  }

  lemma {:induction false} LexIrreflexive(a: string)
    ensures !LexLess(a, a)
  {
    if a != [] { LexIrreflexive(a[1..]); }
  }

  lemma {:induction false} LexTotal(a: string, b: string)
    ensures LexLess(a, b) || a == b || LexLess(b, a)
  {
    if a != [] && b != [] && a[0] == b[0] {
      LexTotal(a[1..], b[1..]);
      assert a == [a[0]] + a[1..] && b == [b[0]] + b[1..];
    }
  }

  lemma {:induction false} LexPrefix(p: string, a: string, b: string)
    ensures LexLess(p + a, p + b) <==> LexLess(a, b)
  {
    if p == [] {
      assert p + a == a && p + b == b;
    } else {
      LexPrefix(p[1..], a, b);
      assert (p + a)[1..] == p[1..] + a && (p + b)[1..] == p[1..] + b;
    }
  }

  /** Among equally long strings a common tail does not affect the order. */
  lemma {:induction false} LexSuffix(a: string, b: string, s: string, t: string)
    requires |a| == |b|
    ensures LexLess(a + s, b + t) <==> LexLess(a, b) || (a == b && LexLess(s, t))
  {
    if a == [] {
      assert a + s == s && b + t == t;
    } else {
      LexSuffix(a[1..], b[1..], s, t);
      assert (a + s)[1..] == a[1..] + s && (b + t)[1..] == b[1..] + t;
      assert a == [a[0]] + a[1..] && b == [b[0]] + b[1..];
    }
  }

  /** Fixed-width numbers sort as strings exactly as they sort as numbers. */
  lemma {:induction false} FixedOrder(n: nat, m: nat, w: nat)
    requires n < Pow10(w) && m < Pow10(w)
    ensures LexLess(Fixed(n, w), Fixed(m, w)) <==> n < m
    ensures Fixed(n, w) == Fixed(m, w) <==> n == m
  {
    if w > 0 {
      FixedOrder(n / 10, m / 10, w - 1);
      LexSuffix(Fixed(n / 10, w - 1), Fixed(m / 10, w - 1), [DigitChar(n % 10)], [DigitChar(m % 10)]);
      var x, y := Fixed(n, w), Fixed(m, w);
      assert x[..w - 1] == Fixed(n / 10, w - 1) && y[..w - 1] == Fixed(m / 10, w - 1);
      assert x[w - 1] == DigitChar(n % 10) && y[w - 1] == DigitChar(m % 10);
    }
  }

  /** A fixed-width number followed by more text sorts by the number first. */
  lemma PaddedThenOrder(n: nat, m: nat, w: nat, s: string, t: string)
    requires 0 < w && n < Pow10(w) && m < Pow10(w)
    ensures LexLess(Padded(n, w) + s, Padded(m, w) + t) <==> n < m || (n == m && LexLess(s, t))
    ensures Padded(n, w) + s == Padded(m, w) + t <==> n == m && s == t
  {
    PaddedIsFixed(n, w);
    PaddedIsFixed(m, w);
    FixedOrder(n, m, w);
    LexSuffix(Fixed(n, w), Fixed(m, w), s, t);
    SamePrefix(Fixed(n, w), s, Fixed(m, w), t);
  }

  lemma SamePrefix(a: string, s: string, b: string, t: string)
    requires |a| == |b|
    ensures a + s == b + t <==> a == b && s == t
  {
    if a + s == b + t {
      assert a == (a + s)[..|a|] && s == (a + s)[|a|..];
      assert b == (b + t)[..|b|] && t == (b + t)[|b|..];
    }
  }

  /** A family of names: prefix, zero-padded number, suffix. */
  function Numbered(prefix: string, n: nat, w: nat, suffix: string): string {
    prefix + Padded(n, w) + suffix
  }

  /** A padded name holds its number in digits, as many as the padding asks for while it fits. */
  lemma NumberedReads(prefix: string, n: nat, w: nat, suffix: string) returns (d: string)
    requires 0 < w
    ensures Numbered(prefix, n, w, suffix) == prefix + d + suffix && |d| >= w && (n < Pow10(w) ==> |d| == w)
    ensures (forall i :: 0 <= i < |d| ==> IsDigit(d[i])) && DecimalValue(d) == n
  {
    d := Padded(n, w);
    PaddedValue(n, w);
    if n < Pow10(w) { PaddedIsFixed(n, w); }
  }

  lemma NumberedInjective(p: string, a: nat, b: nat, w: nat, s: string)
    requires Numbered(p, a, w, s) == Numbered(p, b, w, s)
    ensures a == b
  {
    var x, y := Padded(a, w), Padded(b, w);
    assert x == (p + x + s)[|p|..|p + x + s| - |s|];
    assert y == (p + y + s)[|p|..|p + y + s| - |s|];
    PaddedValue(a, w);
    PaddedValue(b, w);
  }

  lemma LexWrapped(p: string, x: string, y: string, s: string)
    requires |x| == |y| && LexLess(x, y)
    ensures LexLess(p + x + s, p + y + s)
  {
    LexSuffix(x, y, s, s);
    LexPrefix(p, x + s, y + s);
    ConcatAssoc(p, x, s);
    ConcatAssoc(p, y, s);
  }

  lemma NumberedOrder(p: string, a: nat, b: nat, w: nat, s: string)
    requires 0 < w && a < b < Pow10(w)
    ensures LexLess(Numbered(p, a, w, s), Numbered(p, b, w, s))
  {
    PaddedIsFixed(a, w);
    PaddedIsFixed(b, w);
    FixedOrder(a, b, w);
    LexWrapped(p, Padded(a, w), Padded(b, w), s);
  }

  /** Name order is number order over 1..n exactly while n has at most `w` digits. */
  lemma NumberedOrderIff(p: string, n: nat, w: nat, s: string)
    requires 0 < w
    ensures (forall i, j :: 1 <= i < j <= n ==> LexLess(Numbered(p, i, w, s), Numbered(p, j, w, s)))
            <==> n < Pow10(w)
  {
    if n < Pow10(w) {
      forall i, j | 1 <= i < j <= n ensures LexLess(Numbered(p, i, w, s), Numbered(p, j, w, s)) {
        NumberedOrder(p, i, j, w, s);
      }
    } else {
      NumberedOverflow(p, w, s);
    }
  }

  lemma NumberedOverflow(p: string, w: nat, s: string)
    requires 0 < w
    ensures 1 <= Pow10(w) - 1 && !LexLess(Numbered(p, Pow10(w) - 1, w, s), Numbered(p, Pow10(w), w, s))
  {
    var i, j := Pow10(w) - 1, Pow10(w);
    OverflowDigits(w, i, j);
    LaterDigitLast(p, Padded(i, w), Padded(j, w), s);
  }

  lemma LaterDigitLast(p: string, x: string, y: string, s: string)
    requires x != [] && y != [] && y[0] < x[0]
    ensures !LexLess(p + x + s, p + y + s)
  {
    LexPrefix(p, x + s, y + s);
    ConcatAssoc(p, x, s);
    ConcatAssoc(p, y, s);
    assert (x + s)[0] == x[0] && (y + s)[0] == y[0];
  }

  /** Nine comes after one, though the number comes before. */
  lemma OverflowDigits(w: nat, i: nat, j: nat)
    requires 0 < w && i == Pow10(w) - 1 && j == Pow10(w)
    ensures 1 <= i && Padded(i, w)[0] == '9' && Padded(j, w)[0] == '1'
  {
    RoundPow10(w);
    RoundPow10(w - 1);
    LeadingDigit(i, 9, w - 1);
    LeadingDigit(j, 1, w);
  }

  predicate StrictlySorted(names: seq<string>) {
    forall i, j :: 0 <= i < j < |names| ==> LexLess(names[i], names[j])
  }

  /** A set of names has one sorted listing. */
  lemma {:induction false} SortedListingUnique(a: seq<string>, b: seq<string>)
    requires StrictlySorted(a) && StrictlySorted(b)
    requires forall x :: x in a <==> x in b
    ensures a == b
  {
    assert a != [] ==> a[0] in a;
    assert b != [] ==> b[0] in b;
    if a != [] && b != [] {
      assert a[0] in b;
      assert b[0] in a;
      var i :| 0 <= i < |b| && b[i] == a[0];
      var j :| 0 <= j < |a| && a[j] == b[0];
      if i > 0 && j > 0 {
        LexTransitive(a[0], b[0], a[0]);
        LexIrreflexive(a[0]);
      }
      assert a[0] == b[0];
      TailMembers(a);
      TailMembers(b);
      SortedListingUnique(a[1..], b[1..]);
      assert a == [a[0]] + a[1..] && b == [b[0]] + b[1..];
    }
  }

  lemma TailMembers(a: seq<string>)
    requires StrictlySorted(a) && a != []
    ensures forall x :: x in a[1..] <==> x in a && x != a[0]
  {
    LexIrreflexive(a[0]);
    forall x | x in a && x != a[0] ensures x in a[1..] {
      var i :| 0 <= i < |a| && a[i] == x;
      assert a[1..][i - 1] == x;
    }
    forall x | x in a[1..] ensures x in a && x != a[0] {
      var i :| 0 <= i < |a[1..]| && a[1..][i] == x;
      assert a[i + 1] == x;
    }
  }

  function InsertName(names: seq<string>, x: string): (r: seq<string>)
    requires StrictlySorted(names) && x !in names
    ensures forall y :: y in r <==> y in names || y == x
    ensures StrictlySorted(r)
  {
    if names == [] then [x]
    else if LexLess(x, names[0]) then
      InsertFirst(names, x);
      [x] + names
    else
      LexTotal(x, names[0]);
      TailMembers(names);
      var tail := InsertName(names[1..], x);
      assert forall i :: 0 <= i < |tail| ==> tail[i] in tail;
      assert forall y :: y in names[1..] ==> LexLess(names[0], y);
      [names[0]] + tail
  }

  lemma InsertFirst(names: seq<string>, x: string)
    requires StrictlySorted(names) && names != [] && LexLess(x, names[0])
    ensures StrictlySorted([x] + names)
  {
    forall j | 0 < j < |names| ensures LexLess(x, names[j]) {
      LexTransitive(x, names[0], names[j]);
    }
  }

  /** `Store::list`: every name, in lexicographic order. */
  method SortedNames(names: set<string>) returns (r: seq<string>)
    ensures StrictlySorted(r)
    ensures forall x :: x in r <==> x in names
  {
    r := [];
    var rest := names;
    while rest != {}
      invariant rest <= names && StrictlySorted(r)
      invariant forall x :: x in r <==> x in names - rest
    {
      var x :| x in rest;
      r := InsertName(r, x);
      rest := rest - {x};
    }
  }
}
