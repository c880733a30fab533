/** Last-write-wins: the specification that flush and compaction must agree with. */
module LastWrite {
  import opened Basics
  import opened Sorting

  /** A logical row: absent tags and fields are nulls.  `C` is a field value. */
  datatype Row<C> = Row(time: int, tags: map<string, string>, fields: map<string, C>)
  {
    function Key(): (int, map<string, string>) { (time, tags) }
  }

  type Table<C> = map<(int, map<string, string>), Row<C>>

  /** The last row per primary key of a write history; `f` reads a row out of its storage form. */
  function LastWins<R, C>(f: R -> Row<C>, rs: seq<R>): Table<C> {
    if rs == [] then map[] else LastWins(f, Init(rs))[f(Last(rs)).Key() := f(Last(rs))]
  }

  lemma LastWinsSnoc<R, C>(f: R -> Row<C>, rs: seq<R>, r: R)
    ensures LastWins(f, rs + [r]) == LastWins(f, rs)[f(r).Key() := f(r)]
  {
    assert Init(rs + [r]) == rs;
  }

  /** Histories combine by overriding: the later history wins key by key. */
  lemma {:induction false} LastWinsAppend<R, C>(f: R -> Row<C>, a: seq<R>, b: seq<R>)
    ensures LastWins(f, a + b) == LastWins(f, a) + LastWins(f, b)
  {
    if b == [] {
      assert a + b == a;
    } else {
      LastWinsAppend(f, a, Init(b));
      assert Init(a + b) == a + Init(b);
    }
  }

  /** Every key's value is the last write: an index no later write of the key follows. */
  lemma {:induction false} LastWinsIsLast<R, C>(f: R -> Row<C>, rs: seq<R>, i: nat)
    requires i < |rs| && forall j :: i < j < |rs| ==> f(rs[j]).Key() != f(rs[i]).Key()
    ensures f(rs[i]).Key() in LastWins(f, rs) && LastWins(f, rs)[f(rs[i]).Key()] == f(rs[i])
  {
    if i < |rs| - 1 { LastWinsIsLast(f, Init(rs), i); }
  }

  lemma {:induction false} LastWinsHasWriter<R, C>(f: R -> Row<C>, rs: seq<R>, k: (int, map<string, string>)) returns (i: nat)
    requires k in LastWins(f, rs)
    ensures i < |rs| && f(rs[i]).Key() == k && LastWins(f, rs)[k] == f(rs[i])
    ensures forall j :: i < j < |rs| ==> f(rs[j]).Key() != k
  {
    if f(Last(rs)).Key() == k {
      i := |rs| - 1;
    } else {
      i := LastWinsHasWriter(f, Init(rs), k);
    }
  }

  /** Reading rows through f is the same as translating them first. */
  lemma {:induction false} LastWinsOfMap<R, S, C>(f: R -> Row<C>, g: S -> Row<C>, t: R -> S, rs: seq<R>)
    requires forall r :: r in rs ==> g(t(r)) == f(r)
    ensures LastWins(g, Map(rs, t)) == LastWins(f, rs)
  {
    if rs != [] {
      LastWinsOfMap(f, g, t, Init(rs));
      assert Init(Map(rs, t)) == Map(Init(rs), t);
      assert Last(rs) in rs;
    }
  }

  // ----- the sort-based pass

  /** `below` orders well-formed rows by primary key: two of them are comparable exactly
   *  when their keys differ. */
  ghost predicate OrdersKeys<R(!new), C>(f: R -> Row<C>, below: (R, R) -> bool, ok: R -> bool) {
    && (forall a, b {:trigger below(a, b)} :: ok(a) && ok(b) && below(a, b) ==> f(a).Key() != f(b).Key() && !below(b, a))
    && (forall a, b {:trigger below(a, b), f(a), f(b)} ::
          ok(a) && ok(b) && !below(a, b) && !below(b, a) ==> f(a).Key() == f(b).Key())
    && (forall a, b, c {:trigger below(a, b), below(b, c)} ::
          ok(a) && ok(b) && ok(c) && below(a, b) && below(b, c) ==> below(a, c))
  }

  lemma {:induction false} InsertLastWins<R(!new), C>(f: R -> Row<C>, below: (R, R) -> bool, ok: R -> bool, s: seq<R>, r: R)
    requires OrdersKeys(f, below, ok) && AllOk(ok, s) && ok(r)
    ensures LastWins(f, Insert(below, s, r)) == LastWins(f, s)[f(r).Key() := f(r)]
  {
    if s != [] && below(r, Last(s)) {
      InsertLastWins(f, below, ok, Init(s), r);
      LastWinsSnoc(f, Insert(below, Init(s), r), Last(s));
    } else {
      LastWinsSnoc(f, s, r);
    }
  }

  lemma {:induction false} SortLastWins<R(!new), C>(f: R -> Row<C>, below: (R, R) -> bool, ok: R -> bool, rs: seq<R>)
    requires OrdersKeys(f, below, ok) && AllOk(ok, rs)
    ensures LastWins(f, StableSort(below, rs)) == LastWins(f, rs)
  {
    if rs != [] {
      var sorted := StableSort(below, Init(rs));
      SortLastWins(f, below, ok, Init(rs));
      SortBag(below, Init(rs));
      AllOkMembers(ok, rs, sorted);
      InsertLastWins(f, below, ok, sorted, Last(rs));
    }
  }

  predicate StrictlySorted<R>(below: (R, R) -> bool, s: seq<R>) {
    forall i, j :: 0 <= i < j < |s| ==> below(s[i], s[j])
  }

  /** Rows of equal key compare alike with any third row. */
  lemma SameKeySameSide<R(!new), C>(f: R -> Row<C>, below: (R, R) -> bool, ok: R -> bool, x: R, y: R, r: R)
    requires OrdersKeys(f, below, ok) && ok(x) && ok(y) && ok(r) && !below(x, y) && !below(y, x)
    ensures below(r, x) <==> below(r, y)
  {
    assert f(x).Key() == f(y).Key();
    assert below(y, r) && below(r, x) ==> below(y, x);
    assert below(x, r) && below(r, y) ==> below(x, y);
    assert !below(r, y) && !below(y, r) ==> f(r).Key() == f(y).Key();
    assert !below(r, x) && !below(x, r) ==> f(r).Key() == f(x).Key();
  }

  lemma NotBelow<R(!new), C>(f: R -> Row<C>, below: (R, R) -> bool, ok: R -> bool, x: R, last: R, r: R)
    requires OrdersKeys(f, below, ok) && ok(x) && ok(last) && ok(r) && !below(last, x) && !below(r, last)
    ensures !below(r, x)
  {
    assert below(r, x) && below(x, last) ==> below(r, last);
    if !below(x, last) { SameKeySameSide(f, below, ok, x, last, r); }
  }

  /** So its order is one that can be sorted by. */
  lemma OrderIsWeak<R(!new), C>(f: R -> Row<C>, below: (R, R) -> bool, ok: R -> bool)
    requires OrdersKeys(f, below, ok)
    ensures Weak(below, ok)
  {
    forall a, b, c | ok(a) && ok(b) && ok(c) && !below(b, a) && !below(c, b) ensures !below(c, a) {
      NotBelow(f, below, ok, a, b, c);
    }
  }

  predicate SameKey<R>(below: (R, R) -> bool, a: R, b: R) { !below(a, b) && !below(b, a) }

  /** One step of the dedup sweep: a row replaces the last kept row if the keys are equal. */
  function Keep<R>(below: (R, R) -> bool, kept: seq<R>, r: R): seq<R> {
    if kept != [] && SameKey(below, Last(kept), r) then Init(kept) + [r] else kept + [r]
  }

  function Sweep<R>(below: (R, R) -> bool, s: seq<R>): seq<R> {
    if s == [] then [] else Keep(below, Sweep(below, Init(s)), Last(s))
  }

  lemma {:induction false} SweepMembers<R>(below: (R, R) -> bool, s: seq<R>)
    ensures forall x :: x in Sweep(below, s) ==> x in s
    ensures s != [] ==> Sweep(below, s) != [] && Last(Sweep(below, s)) == Last(s)
  {
    if s != [] {
      SweepMembers(below, Init(s));
      var kept := Sweep(below, Init(s));
      assert forall x :: x in Keep(below, kept, Last(s)) ==> x in kept || x == Last(s);
    }
  }

  lemma KeepLastWins<R(!new), C>(f: R -> Row<C>, below: (R, R) -> bool, ok: R -> bool, kept: seq<R>, r: R)
    requires OrdersKeys(f, below, ok) && AllOk(ok, kept) && ok(r)
    ensures LastWins(f, Keep(below, kept, r)) == LastWins(f, kept)[f(r).Key() := f(r)]
  {
    LastWinsSnoc(f, kept, r);
    if kept != [] {
      LastWinsSnoc(f, Init(kept), r);
      LastWinsSnoc(f, Init(kept), Last(kept));
      InitLast(kept);
    }
  }

  lemma {:induction false} SweepLastWins<R(!new), C>(f: R -> Row<C>, below: (R, R) -> bool, ok: R -> bool, s: seq<R>)
    requires OrdersKeys(f, below, ok) && AllOk(ok, s)
    ensures LastWins(f, Sweep(below, s)) == LastWins(f, s)
  {
    if s != [] {
      SweepLastWins(f, below, ok, Init(s));
      SweepMembers(below, Init(s));
      AllOkMembers(ok, s, Sweep(below, Init(s)));
      KeepLastWins(f, below, ok, Sweep(below, Init(s)), Last(s));
    }
  }

  lemma KeepSorted<R(!new), C>(f: R -> Row<C>, below: (R, R) -> bool, ok: R -> bool, kept: seq<R>, x: R)
    requires OrdersKeys(f, below, ok) && AllOk(ok, kept) && ok(x)
    requires StrictlySorted(below, kept) && (kept != [] ==> !below(x, Last(kept)))
    ensures StrictlySorted(below, Keep(below, kept, x))
  {
    if kept != [] {
      var last := Last(kept);
      forall i | 0 <= i < |kept| - 1 ensures below(kept[i], x) {
        assert below(kept[i], last);
        if SameKey(below, last, x) {
          SameKeySameSide(f, below, ok, last, x, kept[i]);
        } else {
          assert below(last, x);
        }
      }
    }
  }

  lemma {:induction false} SweepSorted<R(!new), C>(f: R -> Row<C>, below: (R, R) -> bool, ok: R -> bool, s: seq<R>)
    requires OrdersKeys(f, below, ok) && AllOk(ok, s) && Sorted(below, s)
    ensures StrictlySorted(below, Sweep(below, s))
  {
    if s != [] {
      SweepSorted(f, below, ok, Init(s));
      SweepMembers(below, Init(s));
      AllOkMembers(ok, s, Sweep(below, Init(s)));
      KeepSorted(f, below, ok, Sweep(below, Init(s)), Last(s));
    }
  }

  /** Sort, then sweep. */
  function Prepare<R>(below: (R, R) -> bool, rs: seq<R>): seq<R> { Sweep(below, StableSort(below, rs)) }

  /** The pass keeps exactly the last write of each key, once, in key order. */
  lemma PrepareIsLastWins<R(!new), C>(f: R -> Row<C>, below: (R, R) -> bool, ok: R -> bool, rs: seq<R>)
    requires OrdersKeys(f, below, ok) && AllOk(ok, rs)
    ensures LastWins(f, Prepare(below, rs)) == LastWins(f, rs)
    ensures StrictlySorted(below, Prepare(below, rs))
    ensures forall x :: x in Prepare(below, rs) ==> x in rs
  {
    var sorted := StableSort(below, rs);
    SortBag(below, rs);
    AllOkMembers(ok, rs, sorted);
    SortLastWins(f, below, ok, rs);
    OrderIsWeak(f, below, ok);
    SortSorted(below, ok, rs);
    SweepLastWins(f, below, ok, sorted);
    SweepSorted(f, below, ok, sorted);
    SweepMembers(below, sorted);
  }

  /** The rows s holds are exactly those of the table m, each under its own key. */
  ghost predicate Holds<R, C>(f: R -> Row<C>, s: seq<R>, m: Table<C>) {
    && (forall i, j :: 0 <= i < j < |s| ==> f(s[i]).Key() != f(s[j]).Key())
    && (forall i :: 0 <= i < |s| ==> f(s[i]).Key() in m && m[f(s[i]).Key()] == f(s[i]))
    && (forall k :: k in m ==> exists i :: 0 <= i < |s| && f(s[i]).Key() == k)
  }

  lemma SortedHolds<R(!new), C>(f: R -> Row<C>, below: (R, R) -> bool, ok: R -> bool, s: seq<R>)
    requires OrdersKeys(f, below, ok) && AllOk(ok, s) && StrictlySorted(below, s)
    ensures Holds(f, s, LastWins(f, s))
  {
    forall i, j | 0 <= i < j < |s| ensures f(s[i]).Key() != f(s[j]).Key() { assert below(s[i], s[j]); }
    forall i | 0 <= i < |s|
      ensures f(s[i]).Key() in LastWins(f, s) && LastWins(f, s)[f(s[i]).Key()] == f(s[i])
    {
      LastWinsIsLast(f, s, i);
    }
    forall k | k in LastWins(f, s) ensures exists i :: 0 <= i < |s| && f(s[i]).Key() == k {
      var i := LastWinsHasWriter(f, s, k);
    }
  }

  // ----- splitting rows by hour

  type Parts<R> = map<string, seq<R>>

  function PutIn<R>(parts: Parts<R>, h: string, r: R): Parts<R> {
    parts[h := (if h in parts then parts[h] else []) + [r]]
  }

  /** Rows grouped by hour, in order within each. */
  function Group<R>(hour: R -> string, rs: seq<R>): Parts<R> {
    if rs == [] then map[] else PutIn(Group(hour, Init(rs)), hour(Last(rs)), Last(rs))
  }

  function InHour<R>(hour: R -> string, rs: seq<R>, h: string): seq<R> {
    if rs == [] then [] else InHour(hour, Init(rs), h) + (if hour(Last(rs)) == h then [Last(rs)] else [])
  }

  predicate HasHour<R>(hour: R -> string, rs: seq<R>, h: string) { exists i :: 0 <= i < |rs| && hour(rs[i]) == h }

  /** The parts are the hours present, and each part is the rows of its hour. */
  lemma {:induction false} GroupAt<R>(hour: R -> string, rs: seq<R>, h: string)
    ensures h in Group(hour, rs) <==> HasHour(hour, rs, h)
    ensures h in Group(hour, rs) ==> Group(hour, rs)[h] == InHour(hour, rs, h)
    ensures h !in Group(hour, rs) ==> InHour(hour, rs, h) == []
  {
    if rs != [] {
      var i := |rs| - 1;
      GroupAt(hour, Init(rs), h);
      if HasHour(hour, Init(rs), h) {
        var j :| 0 <= j < i && hour(Init(rs)[j]) == h;
        assert hour(rs[j]) == h;
      }
      if hour(rs[i]) == h { assert HasHour(hour, rs, h); }
    }
  }

  lemma {:induction false} WholeHour<R>(hour: R -> string, rs: seq<R>, h: string)
    requires forall i :: 0 <= i < |rs| ==> hour(rs[i]) == h
    ensures InHour(hour, rs, h) == rs
  {
    if rs != [] {
      WholeHour(hour, Init(rs), h);
      InitLast(rs);
    }
  }

  lemma {:induction false} InHourSorted<R>(hour: R -> string, below: (R, R) -> bool, rs: seq<R>, h: string)
    requires StrictlySorted(below, rs)
    ensures StrictlySorted(below, InHour(hour, rs, h)) && forall x :: x in InHour(hour, rs, h) ==> x in rs
  {
    if rs != [] {
      InHourSorted(hour, below, Init(rs), h);
      var s := InHour(hour, Init(rs), h);
      assert forall i :: 0 <= i < |s| ==> s[i] in s;
      assert forall x :: x in Init(rs) ==> below(x, Last(rs));
    }
  }

  /** The rows of a table whose time falls in hour h. */
  function AtHour<C>(at: int -> string, m: Table<C>, h: string): Table<C> {
    map k | k in m && at(k.0) == h :: m[k]
  }

  lemma AtHourUpdate<C>(at: int -> string, m: Table<C>, r: Row<C>, h: string)
    ensures AtHour(at, m[r.Key() := r], h) ==
            if at(r.time) == h then AtHour(at, m, h)[r.Key() := r] else AtHour(at, m, h)
  {
  }

  lemma AtHourOverride<C>(at: int -> string, a: Table<C>, b: Table<C>, h: string)
    ensures AtHour(at, a + b, h) == AtHour(at, a, h) + AtHour(at, b, h)
  {
  }

  lemma {:induction false} InHourLastWins<R(!new), C>(f: R -> Row<C>, at: int -> string, hour: R -> string, ok: R -> bool,
                                                     rs: seq<R>, h: string)
    requires AllOk(ok, rs) && forall r :: ok(r) ==> hour(r) == at(f(r).time)
    ensures LastWins(f, InHour(hour, rs, h)) == AtHour(at, LastWins(f, rs), h)
  {
    if rs != [] {
      var r := Last(rs);
      InHourLastWins(f, at, hour, ok, Init(rs), h);
      LastWinsSnoc(f, InHour(hour, Init(rs), h), r);
      AtHourUpdate(at, LastWins(f, Init(rs)), f(r), h);
      assert InHour(hour, Init(rs), h) + [] == InHour(hour, Init(rs), h);
    }
  }

  lemma Singleton<T>(s: set<T>, x: T)
    requires x in s
    ensures |s| == 1 <==> s == {x}
  {
    if |s| == 1 { assert |s - {x}| == 0 && s == (s - {x}) + {x}; }
  }

  /** One part, exactly when the rows' hours agree (and there is a row). */
  lemma OnePartIff<R>(hour: R -> string, rs: seq<R>)
    ensures |Group(hour, rs)| == 1 <==> Uniform(hour, rs)
    ensures |Group(hour, rs)| == 1 ==> Group(hour, rs) == map[hour(rs[0]) := rs]
  {
    if rs != [] {
      var parts, h0 := Group(hour, rs), hour(rs[0]);
      forall h ensures h in parts <==> HasHour(hour, rs, h) { GroupAt(hour, rs, h); }
      OneKeyIff(hour, rs, parts.Keys);
      Singleton(parts.Keys, h0);
      if Uniform(hour, rs) {
        WholeHour(hour, rs, h0);
        GroupAt(hour, rs, h0);
      }
    }
  }

  lemma OneKeyIff<R>(hour: R -> string, rs: seq<R>, keys: set<string>)
    requires rs != [] && forall h :: h in keys <==> HasHour(hour, rs, h)
    ensures hour(rs[0]) in keys && (keys == {hour(rs[0])} <==> Uniform(hour, rs))
  {
    assert HasHour(hour, rs, hour(rs[0]));
    if keys == {hour(rs[0])} {
      forall i | 0 <= i < |rs| ensures hour(rs[i]) == hour(rs[0]) { assert HasHour(hour, rs, hour(rs[i])); }
    }
  }

  lemma {:induction false} LastWinsHasKey<R, C>(f: R -> Row<C>, rs: seq<R>, i: nat)
    requires i < |rs|
    ensures f(rs[i]).Key() in LastWins(f, rs)
  {
    if i < |rs| - 1 { LastWinsHasKey(f, Init(rs), i); }
  }

  predicate OneHour<C>(at: int -> string, rs: seq<Row<C>>) {
    rs != [] && forall i :: 0 <= i < |rs| ==> at(rs[i].time) == at(rs[0].time)
  }

  /** The pass yields one part exactly when its input, duplicates and all, is of one hour. */
  lemma PrepareOnePartIff<R(!new), C>(f: R -> Row<C>, at: int -> string, hour: R -> string, below: (R, R) -> bool,
                                      ok: R -> bool, rs: seq<R>)
    requires OrdersKeys(f, below, ok) && AllOk(ok, rs) && forall r :: ok(r) ==> hour(r) == at(f(r).time)
    ensures |Group(hour, Prepare(below, rs))| == 1 <==> OneHour(at, Map(rs, f))
  {
    var kept := Prepare(below, rs);
    PrepareIsLastWins(f, below, ok, rs);
    AllOkMembers(ok, rs, kept);
    OnePartIff(hour, kept);
    SweepMembers(below, StableSort(below, rs));
    SortBag(below, rs);
    if rs != [] { assert rs[0] in rs; }
    HoursByTime(f, at, hour, ok, rs);
    forall i | 0 <= i < |kept| ensures HasHour(hour, rs, hour(kept[i])) { MemberHour(hour, rs, kept[i]); }
    forall i | 0 <= i < |rs| ensures HasHour(hour, kept, hour(rs[i])) { KeptHour(f, at, hour, ok, rs, kept, i); }
    if Uniform(hour, rs) { UniformWithin(hour, kept, rs); }
    if Uniform(hour, kept) { UniformWithin(hour, rs, kept); }
  }

  predicate Uniform<R>(hour: R -> string, rs: seq<R>) {
    rs != [] && forall i :: 0 <= i < |rs| ==> hour(rs[i]) == hour(rs[0])
  }

  lemma UniformWithin<R>(hour: R -> string, a: seq<R>, b: seq<R>)
    requires Uniform(hour, b) && a != [] && forall i :: 0 <= i < |a| ==> HasHour(hour, b, hour(a[i]))
    ensures Uniform(hour, a)
  {
    forall i | 0 <= i < |a| ensures hour(a[i]) == hour(b[0]) {
      var j :| 0 <= j < |b| && hour(b[j]) == hour(a[i]);
    }
  }

  lemma KeptHour<R, C>(f: R -> Row<C>, at: int -> string, hour: R -> string, ok: R -> bool, rs: seq<R>, kept: seq<R>, i: nat)
    requires AllOk(ok, rs) && AllOk(ok, kept) && forall r :: ok(r) ==> hour(r) == at(f(r).time)
    requires LastWins(f, kept) == LastWins(f, rs) && i < |rs|
    ensures HasHour(hour, kept, hour(rs[i]))
  {
    LastWinsHasKey(f, rs, i);
    var j := LastWinsHasWriter(f, kept, f(rs[i]).Key());
    assert hour(kept[j]) == hour(rs[i]);
  }

  lemma MemberHour<R>(hour: R -> string, rs: seq<R>, r: R)
    requires r in rs
    ensures HasHour(hour, rs, hour(r))
  {
    var j :| 0 <= j < |rs| && rs[j] == r;
    assert hour(rs[j]) == hour(r);
  }

  lemma HoursByTime<R, C>(f: R -> Row<C>, at: int -> string, hour: R -> string, ok: R -> bool, rs: seq<R>)
    requires AllOk(ok, rs) && forall r :: ok(r) ==> hour(r) == at(f(r).time)
    ensures Uniform(hour, rs) <==> OneHour(at, Map(rs, f))
  {
    var m := Map(rs, f);
    assert forall i :: 0 <= i < |rs| ==> hour(rs[i]) == at(m[i].time);
  }
}
