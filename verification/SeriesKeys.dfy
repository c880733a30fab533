/** Series keys: how a table and a set of tags become one string, and when that is reversible. */
module SeriesKeys {
  import opened Names
  import opened Sorting

  type TagList = seq<(string, string)>

  predicate HasPrefix(k: string, prefix: string) { |prefix| <= |k| && k[..|prefix|] == prefix }

  const NUL: char := '\0'

  function KeyPrefix(db: string, table: string): string { db + ([NUL] + (table + [NUL])) }

  function TagsKey(tags: seq<(string, string)>): string {
    if tags == [] then []
    else tags[0].0 + (['='] + (tags[0].1 + (if |tags| == 1 then [] else [NUL] + TagsKey(tags[1..]))))
  }

  /** `db\0table\0k1=v1\0k2=v2...` over sorted tags. */
  function SeriesKey(db: string, table: string, tags: seq<(string, string)>): string {
    KeyPrefix(db, table) + TagsKey(tags)
  }

  predicate Lacks(s: string, c: char) { c !in s }

  /** Names hold no NUL, and tag keys no equals sign. */
  predicate PlainTags(tags: seq<(string, string)>) {
    forall i :: 0 <= i < |tags| ==> Lacks(tags[i].0, NUL) && Lacks(tags[i].0, '=') && Lacks(tags[i].1, NUL)
  }

  /** Splitting at the first separator. */
  lemma SplitAt(a: string, x: string, b: string, y: string, c: char)
    requires Lacks(a, c) && Lacks(b, c) && a + ([c] + x) == b + ([c] + y)
    ensures a == b && x == y
  {
    var s := a + ([c] + x);
    assert s == b + ([c] + y);
    assert s[|a|] == c && s[|b|] == c;
    assert forall i :: 0 <= i < |a| ==> s[i] == a[i] && a[i] in a;
    assert forall i :: 0 <= i < |b| ==> s[i] == b[i] && b[i] in b;
    assert |a| == |b|;
    assert a == s[..|a|] && b == s[..|b|];
    assert x == s[|a| + 1..] && y == s[|b| + 1..];
  }

  lemma {:induction false} TagsKeyInjective(a: seq<(string, string)>, b: seq<(string, string)>)
    requires PlainTags(a) && PlainTags(b) && TagsKey(a) == TagsKey(b)
    ensures a == b
  {
    if a != [] && b != [] {
      var k, v, l, w := a[0].0, a[0].1, b[0].0, b[0].1;
      var x, y := MoreTags(a), MoreTags(b);
      SplitAt(k, v + x, l, w + y, '=');
      ValueSplits(v, x, w, y);
      if |a| > 1 && |b| > 1 {
        assert TagsKey(a[1..]) == x[1..] && TagsKey(b[1..]) == y[1..];
        TagsKeyInjective(a[1..], b[1..]);
      }
      assert a == [a[0]] + a[1..] && b == [b[0]] + b[1..];
    }
  }

  function MoreTags(tags: seq<(string, string)>): string
    requires tags != []
  {
    if |tags| == 1 then [] else [NUL] + TagsKey(tags[1..])
  }

  lemma ValueSplits(v: string, x: string, w: string, y: string)
    requires Lacks(v, NUL) && Lacks(w, NUL) && v + x == w + y
    requires (x == [] || x[0] == NUL) && (y == [] || y[0] == NUL)
    ensures v == w && x == y
  {
    var p, q := Ended(x), Ended(y);
    assert (v + x) + [NUL] == v + ([NUL] + p);
    assert (w + y) + [NUL] == w + ([NUL] + q);
    SplitAt(v, p, w, q, NUL);
    assert x == (v + x)[|v|..] && y == (w + y)[|w|..];
  }

  /** What follows the first NUL once one is put at the end. */
  function Ended(x: string): (r: string)
    ensures x == [] || x[0] == NUL ==> x + [NUL] == [NUL] + r
  {
    if x == [] then [] else x[1..] + [NUL]
  }

  /** A series key determines its table and its tags. */
  lemma SeriesKeyInjective(db: string, table: string, tags: seq<(string, string)>,
                           db': string, table': string, tags': seq<(string, string)>)
    requires Lacks(db, NUL) && Lacks(table, NUL) && Lacks(db', NUL) && Lacks(table', NUL) && PlainTags(tags) && PlainTags(tags')
    requires SeriesKey(db, table, tags) == SeriesKey(db', table', tags')
    ensures db == db' && table == table' && tags == tags'
  {
    KeyParts(db, table, TagsKey(tags));
    KeyParts(db', table', TagsKey(tags'));
    SplitAt(db, table + ([NUL] + TagsKey(tags)), db', table' + ([NUL] + TagsKey(tags')), NUL);
    SplitAt(table, TagsKey(tags), table', TagsKey(tags'), NUL);
    TagsKeyInjective(tags, tags');
  }

  lemma KeyParts(db: string, table: string, rest: string)
    ensures KeyPrefix(db, table) + rest == db + ([NUL] + (table + ([NUL] + rest)))
  {
  }

  /** A table's prefix selects that table's series and no other's. */
  lemma PrefixSelectsTable(db: string, table: string, db': string, table': string, tags: seq<(string, string)>)
    requires Lacks(db, NUL) && Lacks(table, NUL) && Lacks(db', NUL) && Lacks(table', NUL)
    ensures HasPrefix(SeriesKey(db', table', tags), KeyPrefix(db, table)) <==> db == db' && table == table'
  {
    var k, p := SeriesKey(db', table', tags), KeyPrefix(db, table);
    if HasPrefix(k, p) {
      var rest := k[|p|..];
      assert k == p + rest;
      KeyParts(db, table, rest);
      KeyParts(db', table', TagsKey(tags));
      SplitAt(db, table + ([NUL] + rest), db', table' + ([NUL] + TagsKey(tags)), NUL);
      SplitAt(table, rest, table', TagsKey(tags), NUL);
    }
  }

  // ----- which keys are ambiguous

  predicate NulFree(tags: TagList) { forall i :: 0 <= i < |tags| ==> Lacks(tags[i].0, NUL) && Lacks(tags[i].1, NUL) }

  predicate NoEquals(tags: TagList) { forall i :: 0 <= i < |tags| ==> Lacks(tags[i].0, '=') && Lacks(tags[i].1, '=') }

  function TagText(t: (string, string)): string { t.0 + (['='] + t.1) }

  lemma KeyStarts(tags: TagList)
    requires tags != []
    ensures TagsKey(tags) == TagText(tags[0]) + MoreTags(tags)
  {
  }

  /** Text with one equals sign splits one way. */
  lemma OneEquals(t: (string, string), k: string, rest: string)
    requires Lacks(t.0, '=') && Lacks(t.1, '=') && k + (['='] + rest) == TagText(t)
    ensures k == t.0 && rest == t.1
  {
    var s := TagText(t);
    assert s[|k|] == '=';
    assert forall i :: 0 <= i < |t.0| ==> s[i] == t.0[i] && t.0[i] in t.0;
    assert forall i :: |t.0| < i < |s| ==> s[i] == t.1[i - |t.0| - 1] && t.1[i - |t.0| - 1] in t.1;
    assert |k| == |t.0|;
    assert k == s[..|k|] && t.0 == s[..|t.0|] && rest == s[|k| + 1..] && t.1 == s[|t.0| + 1..];
  }

  lemma FirstDetermined(t: TagList, u: TagList)
    requires t != [] && u != [] && NulFree(t) && NoEquals(t) && NulFree(u) && TagsKey(u) == TagsKey(t)
    ensures u[0] == t[0] && (|t| > 1 <==> |u| > 1) && TagsKey(u[1..]) == TagsKey(t[1..])
  {
    KeyStarts(t);
    KeyStarts(u);
    ValueSplits(TagText(t[0]), MoreTags(t), TagText(u[0]), MoreTags(u));
    OneEquals(t[0], u[0].0, u[0].1);
    assert |t| > 1 ==> MoreTags(t)[1..] == TagsKey(t[1..]);
    assert |u| > 1 ==> MoreTags(u)[1..] == TagsKey(u[1..]);
  }

  lemma {:induction false} NoEqualsDetermined(t: TagList, u: TagList)
    requires NulFree(t) && NoEquals(t) && NulFree(u) && TagsKey(u) == TagsKey(t)
    ensures u == t
  {
    if t != [] && u != [] {
      FirstDetermined(t, u);
      NoEqualsDetermined(t[1..], u[1..]);
      assert t == [t[0]] + t[1..] && u == [u[0]] + u[1..];
    }
  }

  /** The same text, split at another equals sign. */
  lemma Shifted(t: (string, string)) returns (x: (string, string))
    requires !Lacks(t.0, '=') || !Lacks(t.1, '=')
    ensures x != t && TagText(x) == TagText(t) && (Lacks(t.0, NUL) && Lacks(t.1, NUL) ==> Lacks(x.0, NUL) && Lacks(x.1, NUL))
  {
    if '=' in t.0 {
      var a, b := CutAt(t.0);
      x := (a, b + (['='] + t.1));
      assert (a + (['='] + b)) + (['='] + t.1) == a + (['='] + (b + (['='] + t.1)));
    } else {
      var a, b := CutAt(t.1);
      x := (t.0 + (['='] + a), b);
      assert t.0 + (['='] + (a + (['='] + b))) == (t.0 + (['='] + a)) + (['='] + b);
    }
  }

  lemma CutAt(s: string) returns (a: string, b: string)
    requires '=' in s
    ensures s == a + (['='] + b) && |a| < |s| && |b| < |s|
  {
    var i :| 0 <= i < |s| && s[i] == '=';
    a, b := s[..i], s[i + 1..];
  }

  lemma {:induction false} SameTextSameKey(t: TagList, i: nat, x: (string, string))
    requires i < |t| && TagText(x) == TagText(t[i])
    ensures TagsKey(t[i := x]) == TagsKey(t)
  {
    var u := t[i := x];
    KeyStarts(t);
    KeyStarts(u);
    if i == 0 {
      assert u[1..] == t[1..];
    } else {
      assert u[1..] == t[1..][i - 1 := x];
      SameTextSameKey(t[1..], i - 1, x);
    }
  }

  ghost predicate Determined(t: TagList, among: TagList -> bool) {
    forall u :: among(u) && TagsKey(u) == TagsKey(t) ==> u == t
  }

  lemma EqualsCollides(t: TagList) returns (u: TagList)
    requires !NoEquals(t)
    ensures u != t && TagsKey(u) == TagsKey(t) && |u| == |t| && (NulFree(t) ==> NulFree(u))
  {
    var i :| 0 <= i < |t| && !(Lacks(t[i].0, '=') && Lacks(t[i].1, '='));
    var x := Shifted(t[i]);
    SameTextSameKey(t, i, x);
    u := t[i := x];
    assert u[i] != t[i];
  }

  /** Among names without NUL, a tag list is the only one with its key exactly when no key and no
   *  value holds an equals sign. */
  lemma DeterminedIff(t: TagList)
    requires NulFree(t)
    ensures Determined(t, NulFree) <==> NoEquals(t)
  {
    if NoEquals(t) {
      forall u | NulFree(u) && TagsKey(u) == TagsKey(t) ensures u == t { NoEqualsDetermined(t, u); }
    } else {
      var u := EqualsCollides(t);
      assert NulFree(u);
    }
  }

  function AnyTags(): TagList -> bool { (t: TagList) => true }

  /** A NUL in a value swallows the tags after it. */
  lemma NulCollides(t: TagList) returns (u: TagList)
    requires |t| > 1
    ensures |u| == 1 && TagsKey(u) == TagsKey(t)
  {
    u := [(t[0].0, t[0].1 + MoreTags(t))];
    KeyStarts(t);
    KeyStarts(u);
    assert TagText(u[0]) == TagText(t[0]) + MoreTags(t);
  }

  lemma AloneDetermined(t: TagList, u: TagList)
    requires |t| == 1 && NoEquals(t) && TagsKey(u) == TagsKey(t)
    ensures u == t
  {
    KeyStarts(t);
    assert TagsKey(t) == TagText(t[0]);
    if u != [] {
      KeyStarts(u);
      assert TagsKey(u) == u[0].0 + (['='] + (u[0].1 + MoreTags(u)));
      OneEquals(t[0], u[0].0, u[0].1 + MoreTags(u));
      MoreHasEquals(u);
      var v, more := t[0].1, MoreTags(u);
      assert v == u[0].1 + more && Lacks(v, '=') && '=' !in more;
      assert u[0].1 + [] == u[0].1;
      assert u == [u[0]] && t == [t[0]];
    }
  }

  lemma MoreHasEquals(u: TagList)
    ensures |u| > 1 ==> '=' in MoreTags(u)
  {
    if |u| > 1 {
      KeyStarts(u[1..]);
      assert MoreTags(u)[1 + |u[1].0|] == '=';
    }
  }

  /** Among all names a list is the only one with its key exactly when it is empty, or one tag
   *  without an equals sign. */
  lemma DeterminedAmongAllIff(t: TagList)
    ensures Determined(t, AnyTags()) <==> t == [] || (|t| == 1 && NoEquals(t))
  {
    if |t| > 1 {
      var u := NulCollides(t);
      assert AnyTags()(u);
    } else if !NoEquals(t) {
      var u := EqualsCollides(t);
      assert AnyTags()(u);
    } else if |t| == 1 {
      forall u | TagsKey(u) == TagsKey(t) ensures u == t { AloneDetermined(t, u); }
    } else {
      forall u | TagsKey(u) == TagsKey(t) ensures u == t { if u != [] { KeyStarts(u); } }
    }
  }

  /** Among names without NUL, a series key is one series' alone exactly when the series' tags hold
   *  no equals sign. */
  lemma SeriesKeyIff(db: string, table: string, t: TagList)
    requires Lacks(db, NUL) && Lacks(table, NUL) && NulFree(t)
    ensures (forall db', table', u :: Lacks(db', NUL) && Lacks(table', NUL) && NulFree(u) && SeriesKey(db', table', u) == SeriesKey(db, table, t) ==>
               db' == db && table' == table && u == t) <==> NoEquals(t)
  {
    DeterminedIff(t);
    forall db', table', u | Lacks(db', NUL) && Lacks(table', NUL) && SeriesKey(db', table', u) == SeriesKey(db, table, t)
      ensures db' == db && table' == table && TagsKey(u) == TagsKey(t)
    {
      KeyParts(db, table, TagsKey(t));
      KeyParts(db', table', TagsKey(u));
      SplitAt(db, table + ([NUL] + TagsKey(t)), db', table' + ([NUL] + TagsKey(u)), NUL);
      SplitAt(table, TagsKey(t), table', TagsKey(u), NUL);
    }
    if !NoEquals(t) {
      var u := EqualsCollides(t);
      assert SeriesKey(db, table, u) == SeriesKey(db, table, t);
    }
  }

  // ----- tags in any order

  predicate TagLess(a: (string, string), b: (string, string)) { LexLess(a.0, b.0) || (a.0 == b.0 && LexLess(a.1, b.1)) }

  function SortTags(tags: TagList): TagList { StableSort(TagLess, tags) }

  lemma LexAsymmetric(a: string, b: string)
    requires LexLess(a, b)
    ensures !LexLess(b, a)
  {
    if LexLess(b, a) {
      LexTransitive(a, b, a);
      LexIrreflexive(a);
    }
  }

  lemma TagTotal(a: (string, string), b: (string, string))
    ensures a == b || TagLess(a, b) || TagLess(b, a)
    ensures TagLess(a, b) ==> !TagLess(b, a)
  {
    LexTotal(a.0, b.0);
    LexTotal(a.1, b.1);
    LexIrreflexive(a.0);
    if LexLess(a.0, b.0) { LexAsymmetric(a.0, b.0); }
    if LexLess(a.1, b.1) { LexAsymmetric(a.1, b.1); }
  }

  lemma TagTransitive(a: (string, string), b: (string, string), c: (string, string))
    requires TagLess(a, b) && TagLess(b, c)
    ensures TagLess(a, c)
  {
    if LexLess(a.0, b.0) && LexLess(b.0, c.0) {
      LexTransitive(a.0, b.0, c.0);
    } else if a.0 == b.0 && b.0 == c.0 {
      LexTransitive(a.1, b.1, c.1);
    }
  }

  function AnyTag(): ((string, string)) -> bool { (t: (string, string)) => true }

  lemma TagOrder()
    ensures Weak(TagLess, AnyTag()) && Comparable(TagLess)
  {
    forall a, b ensures a == b || TagLess(a, b) || TagLess(b, a)
      ensures TagLess(a, b) ==> !TagLess(b, a)
    {
      TagTotal(a, b);
    }
    forall a, b, c | !TagLess(b, a) && !TagLess(c, b) ensures !TagLess(c, a) {
      TagTotal(a, b);
      TagTotal(b, c);
      if TagLess(a, b) && TagLess(b, c) { TagTransitive(a, b, c); TagTotal(a, c); }
    }
  }

  /** A series has one key whatever order its tags arrive in, and different tags give
   *  different sorted lists. */
  lemma SortTagsIff(a: TagList, b: TagList)
    ensures SortTags(a) == SortTags(b) <==> multiset(a) == multiset(b)
  {
    SortBag(TagLess, a);
    SortBag(TagLess, b);
    if multiset(a) == multiset(b) {
      TagOrder();
      SortSorted(TagLess, AnyTag(), a);
      SortSorted(TagLess, AnyTag(), b);
      SortedUnique(TagLess, SortTags(a), SortTags(b));
    }
  }

  lemma SortedPlain(tags: TagList)
    requires PlainTags(tags)
    ensures PlainTags(SortTags(tags))
  {
    SortBag(TagLess, tags);
    var t := SortTags(tags);
    forall i | 0 <= i < |t| ensures Lacks(t[i].0, NUL) && Lacks(t[i].0, '=') && Lacks(t[i].1, NUL) {
      assert t[i] in t;
      var j :| 0 <= j < |tags| && tags[j] == t[i];
    }
  }
}
