/** The last-value cache: a bounded, least-recently-used map that agrees with a plain one. */
module LastValue {
  import opened Basics
  import opened SeriesKeys

  datatype Reading = Reading(tags: seq<(string, string)>, ts: int, fields: seq<(string, string)>)

  // ----- the plain map

  /** What happens to the cached series: one is observed, a table's are dropped, or nothing. */
  datatype Event = Seen(key: string, reading: Reading) | Dropped(prefix: string) | Idle

  /** Latest reading per series, without any bound: only a strictly newer one replaces. */
  function Plain(log: seq<Event>): map<string, Reading> {
    if log == [] then map[] else Next(Plain(Init(log)), Last(log))
  }

  function Next(m: map<string, Reading>, e: Event): map<string, Reading> {
    match e
    case Seen(k, r) => if k in m && r.ts <= m[k].ts then m else m[k := if k in m then m[k].(ts := r.ts, fields := r.fields) else r]
    case Dropped(prefix) => map k | k in m && !HasPrefix(k, prefix) :: m[k]
    case Idle => m
  }

  lemma PlainMore(log: seq<Event>, e: Event)
    ensures Plain(log + [e]) == Next(Plain(log), e)
  {
    assert Init(log + [e]) == log;
  }

  /** Event j observes k, and k was not dropped since. */
  predicate Counts(log: seq<Event>, k: string, j: nat)
    requires j < |log|
  {
    log[j].Seen? && log[j].key == k && forall m :: j < m < |log| ==> !(log[m].Dropped? && HasPrefix(k, log[m].prefix))
  }

  /** The reading kept is the first one with the largest timestamp since the series (re)appeared. */
  lemma {:induction false} PlainIsFirstLatest(log: seq<Event>, k: string) returns (i: nat)
    requires k in Plain(log)
    ensures i < |log| && Counts(log, k, i) && Plain(log)[k].ts == log[i].reading.ts && Plain(log)[k].fields == log[i].reading.fields
    ensures forall j :: 0 <= j < |log| && Counts(log, k, j) ==>
              log[j].reading.ts <= log[i].reading.ts && (j < i ==> log[j].reading.ts < log[i].reading.ts)
  {
    var n, before := |log| - 1, Plain(Init(log));
    InitLast(log);
    if k in before {
      i := PlainIsFirstLatest(Init(log), k);
      forall j | 0 <= j < n && Counts(log, k, j) ensures Counts(Init(log), k, j) { CountsInit(log, k, j); }
      if log[n].Seen? && log[n].key == k && log[n].reading.ts > before[k].ts {
        i := n;
      } else {
        StillCounts(log, k, i);
      }
    } else {
      i := n;
      forall j | 0 <= j < n && Counts(log, k, j) ensures false {
        CountsInit(log, k, j);
        CountedIsThere(Init(log), k, j);
      }
    }
  }

  lemma CountsInit(log: seq<Event>, k: string, j: nat)
    requires j < |log| - 1 && Counts(log, k, j)
    ensures Counts(Init(log), k, j)
  {
    assert forall m :: j < m < |Init(log)| ==> Init(log)[m] == log[m];
  }

  lemma StillCounts(log: seq<Event>, k: string, i: nat)
    requires i < |log| - 1 && Counts(Init(log), k, i) && !(Last(log).Dropped? && HasPrefix(k, Last(log).prefix))
    ensures Counts(log, k, i)
  {
    assert forall m :: i < m < |Init(log)| ==> Init(log)[m] == log[m];
  }

  lemma {:induction false} CountedIsThere(log: seq<Event>, k: string, j: nat)
    requires j < |log| && Counts(log, k, j)
    ensures k in Plain(log)
  {
    if j < |log| - 1 {
      CountsInit(log, k, j);
      CountedIsThere(Init(log), k, j);
      assert !(log[|log| - 1].Dropped? && HasPrefix(k, log[|log| - 1].prefix));
    }
  }

  // ----- the bounded map

  /** Keys from least to most recently used, and what they map to. */
  datatype Lru = Lru(order: seq<string>, held: map<string, Reading>)

  function Without(order: seq<string>, drop: string -> bool): seq<string> {
    if order == [] then [] else Without(Init(order), drop) + (if drop(Last(order)) then [] else [Last(order)])
  }

  function Newer(was: Reading, r: Reading): Reading {
    if r.ts > was.ts then was.(ts := r.ts, fields := r.fields) else was
  }

  /** Room for one more entry: at the cap the least recently used one goes. */
  function Room(cap: nat, s: Lru): Lru {
    if |s.held| < cap || s.order == [] then s else Lru(s.order[1..], s.held - {s.order[0]})
  }

  function After(cap: nat, s: Lru, e: Event): Lru {
    match e
    case Seen(k, r) =>
      if k in s.held then Lru(Without(s.order, (x: string) => x == k) + [k], s.held[k := Newer(s.held[k], r)])
      else var t := Room(cap, s); Lru(t.order + [k], t.held[k := r])
    case Dropped(prefix) =>
      Lru(Without(s.order, (x: string) => HasPrefix(x, prefix)), map k | k in s.held && !HasPrefix(k, prefix) :: s.held[k])
    case Idle => s
  }

  function Run(cap: nat, log: seq<Event>): Lru {
    if log == [] then Lru([], map[]) else After(cap, Run(cap, Init(log)), Last(log))
  }

  lemma RunMore(cap: nat, log: seq<Event>, e: Event)
    ensures Run(cap, log + [e]) == After(cap, Run(cap, log), e)
  {
    assert Init(log + [e]) == log;
  }

  // ----- its order and its bound

  predicate Unique(order: seq<string>) { forall i, j :: 0 <= i < j < |order| ==> order[i] != order[j] }

  lemma {:induction false} WithoutIs(order: seq<string>, drop: string -> bool)
    ensures forall k :: k in Without(order, drop) <==> k in order && !drop(k)
    ensures Unique(order) ==> Unique(Without(order, drop))
  {
    if order != [] {
      WithoutIs(Init(order), drop);
      InitLast(order);
      var rest := Without(Init(order), drop);
      assert forall i :: 0 <= i < |rest| ==> rest[i] in rest;
    }
  }

  ghost predicate Bounded(cap: nat, s: Lru) { Lists(s.order, s.held.Keys) && |s.held| <= cap }

  lemma AddedSize(m: map<string, Reading>, k: string, r: Reading)
    ensures m[k := r].Keys == m.Keys + {k}
    ensures |m[k := r]| == if k in m then |m| else |m| + 1
  {
    assert m[k := r].Keys == m.Keys + {k};
    assert k in m ==> m.Keys + {k} == m.Keys;
    assert |m[k := r]| == |m[k := r].Keys| && |m| == |m.Keys|;
  }

  lemma SubsetSize(a: map<string, Reading>, b: map<string, Reading>)
    requires a.Keys <= b.Keys
    ensures |a| <= |b|
  {
    assert b.Keys == a.Keys + (b.Keys - a.Keys);
    assert |a| == |a.Keys| && |b| == |b.Keys|;
  }

  lemma RemovedSize(m: map<string, Reading>, k: string)
    requires k in m
    ensures |m - {k}| == |m| - 1 && (m - {k}).Keys == m.Keys - {k}
  {
    assert (m - {k}).Keys == m.Keys - {k};
    assert |m - {k}| == |(m - {k}).Keys| && |m| == |m.Keys|;
  }

  lemma FirstOut(order: seq<string>, keys: set<string>)
    requires order != [] && Lists(order, keys)
    ensures order[0] in keys && Lists(order[1..], keys - {order[0]})
  {
    var k, rest := order[0], order[1..];
    assert k in order && order == [k] + rest;
    assert forall i :: 0 <= i < |rest| ==> rest[i] == order[i + 1];
  }

  lemma RoomIs(cap: nat, s: Lru)
    requires cap > 0 && Bounded(cap, s)
    ensures Lists(Room(cap, s).order, Room(cap, s).held.Keys) && |Room(cap, s).held| < cap
  {
    if |s.held| == cap {
      if s.order == [] { NoKeys(s.held); }
      FirstOut(s.order, s.held.Keys);
      RemovedSize(s.held, s.order[0]);
    }
  }

  lemma NoKeys(m: map<string, Reading>)
    requires forall k :: k !in m
    ensures |m| == 0
  {
    assert m == map[];
  }

  /** The cache never holds more than its cap. */
  lemma AfterBounded(cap: nat, s: Lru, e: Event)
    requires cap > 0 && Bounded(cap, s)
    ensures Bounded(cap, After(cap, s, e))
  {
    match e
    case Seen(k, r) =>
      if k in s.held {
        PromoteLists(s.order, s.held.Keys, k);
        AddedSize(s.held, k, Newer(s.held[k], r));
      } else {
        RoomIs(cap, s);
        var t := Room(cap, s);
        AddedSize(t.held, k, r);
        ListsMore(t.order, t.held.Keys, k);
      }
    case Dropped(prefix) =>
      WithoutIs(s.order, (x: string) => HasPrefix(x, prefix));
      SubsetSize(After(cap, s, e).held, s.held);
    case Idle =>
  }

  lemma PromoteLists(order: seq<string>, keys: set<string>, k: string)
    requires Lists(order, keys) && k in keys
    ensures Lists(Without(order, (x: string) => x == k) + [k], keys + {k})
  {
    var rest := Without(order, (x: string) => x == k);
    WithoutIs(order, (x: string) => x == k);
    assert Lists(rest, keys - {k});
    ListsMore(rest, keys - {k}, k);
    assert keys - {k} + {k} == keys + {k};
  }

  lemma {:induction false} RunBounded(cap: nat, log: seq<Event>)
    requires cap > 0
    ensures Bounded(cap, Run(cap, log))
  {
    if log != [] {
      RunBounded(cap, Init(log));
      AfterBounded(cap, Run(cap, Init(log)), Last(log));
    }
  }

  // ----- what its entries are

  /** r is the plain reading of series k over the events since `born`, its first. */
  ghost predicate Since(log: seq<Event>, born: nat, k: string, r: Reading) {
    && born < |log| && log[born].Seen? && log[born].key == k
    && k in Plain(log[born..]) && Plain(log[born..])[k] == r
  }

  lemma SinceMore(log: seq<Event>, e: Event, born: nat, k: string, r: Reading, now: Reading)
    requires Since(log, born, k, r) && k in Next(map[k := r], e) && Next(map[k := r], e)[k] == now
    ensures Since(log + [e], born, k, now)
  {
    assert (log + [e])[born..] == log[born..] + [e];
    PlainMore(log[born..], e);
  }

  lemma SinceNew(log: seq<Event>, k: string, r: Reading)
    ensures Since(log + [Seen(k, r)], |log|, k, r)
  {
    assert (log + [Seen(k, r)])[|log|..] == [Seen(k, r)];
    assert Init([Seen(k, r)]) == [];
  }

  /** Every resident entry is the latest reading of its series since it was last admitted,
   *  whatever was evicted meanwhile. */
  lemma {:induction false} EntryIsLatest(cap: nat, log: seq<Event>, k: string) returns (born: nat)
    requires k in Run(cap, log).held
    ensures Since(log, born, k, Run(cap, log).held[k])
  {
    var before, e := Run(cap, Init(log)), Last(log);
    InitLast(log);
    if k in before.held {
      born := EntryIsLatest(cap, Init(log), k);
      SinceMore(Init(log), e, born, k, before.held[k], Run(cap, log).held[k]);
    } else {
      born := |log| - 1;
      SinceNew(Init(log), k, e.reading);
    }
  }

  /** The unbounded map never outgrew the cap. */
  ghost predicate FitsCap(log: seq<Event>, cap: nat) { forall n :: 0 <= n <= |log| ==> |Plain(log[..n])| <= cap }

  /** While every series ever cached fits, the cache is exactly the plain map. */
  lemma {:induction false} FittingIsPlain(cap: nat, log: seq<Event>)
    requires FitsCap(log, cap)
    ensures Run(cap, log).held == Plain(log)
  {
    if log != [] {
      var before, e := Init(log), Last(log);
      forall n | 0 <= n <= |before| ensures |Plain(before[..n])| <= cap { assert before[..n] == log[..n] && |Plain(log[..n])| <= cap; }
      FittingIsPlain(cap, before);
      assert log[..|log|] == log && |Plain(log[..|log|])| <= cap;
      if e.Seen? { AddedSize(Plain(before), e.key, e.reading); }
    }
  }

  // ----- the cache's operations

  datatype Op = On(db: string, table: string)
              | Off(db: string, table: string)
              | Write(db: string, table: string, tags: TagList, ts: int, fields: seq<(string, string)>)

  /** `db\\0table` for each opted-in table. */
  function TableName(db: string, table: string): string { db + ([NUL] + table) }

  function EnabledAfter(ops: seq<Op>): set<string> {
    if ops == [] then {}
    else
      var e, o := EnabledAfter(Init(ops)), Last(ops);
      match o
      case On(db, table) => e + {TableName(db, table)}
      case Off(db, table) => e - {TableName(db, table)}
      case Write(_, _, _, _, _) => e
  }

  /** What an operation does to the series: a row counts only while its table is enabled. */
  function EventOf(enabled: set<string>, o: Op): Event {
    match o
    case On(_, _) => Idle
    case Off(db, table) => Dropped(KeyPrefix(db, table))
    case Write(db, table, tags, ts, fields) =>
      if TableName(db, table) in enabled
      then Seen(SeriesKey(db, table, SortTags(tags)), Reading(SortTags(tags), ts, fields)) else Idle
  }

  function Events(ops: seq<Op>): (log: seq<Event>)
    ensures |log| == |ops|
  {
    if ops == [] then [] else Events(Init(ops)) + [EventOf(EnabledAfter(Init(ops)), Last(ops))]
  }

  lemma OpsMore(ops: seq<Op>, o: Op)
    ensures Events(ops + [o]) == Events(ops) + [EventOf(EnabledAfter(ops), o)]
  {
    assert Init(ops + [o]) == ops;
  }

  class Cache {
    const cap: nat
    var enabled: set<string>
    var order: seq<string>
    var held: map<string, Reading>
    ghost var ops: seq<Op>

    ghost predicate Valid() reads this {
      0 < cap && enabled == EnabledAfter(ops) && Lru(order, held) == Run(cap, Events(ops))
    }

    constructor (size: nat)
      ensures Valid() && cap == Max(size, 1) && ops == []
    {
      cap := if size < 1 then 1 else size;
      enabled, order, held, ops := {}, [], map[], [];
    }

    method Enable(db: string, table: string)
      requires Valid()
      modifies this`enabled, this`ops
      ensures Valid() && ops == old(ops) + [On(db, table)]
    {
      OpsMore(ops, On(db, table));
      RunMore(cap, Events(ops), Idle);
      assert Init(ops + [On(db, table)]) == ops;
      enabled := enabled + {TableName(db, table)};
      ops := ops + [On(db, table)];
    }

    /** One written row. */
    method Observe(db: string, table: string, tags: TagList, ts: int, fields: seq<(string, string)>)
      requires Valid()
      modifies this`order, this`held, this`ops
      ensures Valid() && ops == old(ops) + [Write(db, table, tags, ts, fields)]
    {
      ghost var o := Write(db, table, tags, ts, fields);
      OpsMore(ops, o);
      RunMore(cap, Events(ops), EventOf(enabled, o));
      assert Init(ops + [o]) == ops;
      if TableName(db, table) in enabled {
        var sorted := SortTags(tags);
        RunBounded(cap, Events(ops));
        Put(SeriesKey(db, table, sorted), Reading(sorted, ts, fields));
      }
      ops := ops + [o];
    }

    method Put(key: string, r: Reading)
      requires Bounded(cap, Lru(order, held))
      modifies this`order, this`held
      ensures Lru(order, held) == After(cap, old(Lru(order, held)), Seen(key, r))
    {
      if key in held {
        order := Without(order, (x: string) => x == key) + [key];
        if r.ts > held[key].ts { held := held[key := held[key].(ts := r.ts, fields := r.fields)]; }
        assert held[key := held[key]] == held;
      } else {
        if |held| >= cap && order != [] { order, held := order[1..], held - {order[0]}; }
        order, held := order + [key], held[key := r];
      }
    }

    /** Switches a table off and forgets its series. */
    method Disable(db: string, table: string)
      requires Valid()
      modifies this
      ensures Valid() && ops == old(ops) + [Off(db, table)]
    {
      var prefix := KeyPrefix(db, table);
      OpsMore(ops, Off(db, table));
      RunMore(cap, Events(ops), Dropped(prefix));
      assert Init(ops + [Off(db, table)]) == ops;
      enabled := enabled - {TableName(db, table)};
      order := Without(order, (x: string) => HasPrefix(x, prefix));
      held := map k | k in held && !HasPrefix(k, prefix) :: held[k];
      ops := ops + [Off(db, table)];
    }

    /** The cached readings of one table, one per resident series, most recently used first. */
    method Snapshot(db: string, table: string) returns (out: seq<Reading>)
      requires Valid()
      ensures |held| <= cap && IsSnapshot(order, held, KeyPrefix(db, table), out)
      ensures FitsCap(Events(ops), cap) && AllPlain(ops) && PlainName(db) && PlainName(table) ==> LatestPerSeries(ops, db, table, out)
    {
      RunBounded(cap, Events(ops));
      out := Pick(order, held, KeyPrefix(db, table));
      if FitsCap(Events(ops), cap) && AllPlain(ops) && PlainName(db) && PlainName(table) {
        SnapshotIsLatest(ops, db, table, cap, order, held, out);
      }
    }
  }

  /** The keys of one table, least recently used first. */
  function KeysOf(order: seq<string>, prefix: string): seq<string> { Without(order, (x: string) => !HasPrefix(x, prefix)) }

  /** `out` is the readings of the resident keys with the prefix, each once, latest used first. */
  ghost predicate IsSnapshot(order: seq<string>, held: map<string, Reading>, prefix: string, out: seq<Reading>) {
    var keys := KeysOf(order, prefix);
    ReadOff(keys, held, out) && Unique(keys) && forall k :: k in keys <==> k in held && HasPrefix(k, prefix)
  }

  method Pick(order: seq<string>, held: map<string, Reading>, prefix: string) returns (out: seq<Reading>)
    requires Lists(order, held.Keys)
    ensures IsSnapshot(order, held, prefix, out)
  {
    out := [];
    WithoutIs(order, (x: string) => !HasPrefix(x, prefix));
    for i := 0 to |order|
      invariant ReadOff(KeysOf(order[..i], prefix), held, out)
    {
      assert order[i] in order && Init(order[..i + 1]) == order[..i] && Last(order[..i + 1]) == order[i];
      if HasPrefix(order[i], prefix) {
        ReadMore(KeysOf(order[..i], prefix), held, out, order[i]);
        out := [held[order[i]]] + out;
      } else {
        assert KeysOf(order[..i], prefix) + [] == KeysOf(order[..i], prefix);
      }
    }
    assert order[..|order|] == order;
  }

  lemma ReadMore(keys: seq<string>, held: map<string, Reading>, out: seq<Reading>, k: string)
    requires ReadOff(keys, held, out) && k in held
    ensures ReadOff(keys + [k], held, [held[k]] + out)
  {
  }

  // ----- latest per series

  predicate PlainName(s: string) { Lacks(s, NUL) }

  predicate PlainOp(o: Op) { PlainName(o.db) && PlainName(o.table) && (o.Write? ==> PlainTags(o.tags)) }

  predicate AllPlain(ops: seq<Op>) { forall i :: 0 <= i < |ops| ==> PlainOp(ops[i]) }

  /** Operation j is a row of series (db, table, tags), cached and not dropped since. */
  ghost predicate Observed(ops: seq<Op>, db: string, table: string, tags: TagList, j: nat)
    requires j < |ops|
  {
    && ops[j].Write? && ops[j].db == db && ops[j].table == table && SortTags(ops[j].tags) == tags
    && TableName(db, table) in EnabledAfter(ops[..j])
    && forall m :: j < m < |ops| ==> ops[m] != Off(db, table)
  }

  /** r is the first reading of its series with the largest timestamp since the table was
   *  last switched off. */
  ghost predicate IsLatest(ops: seq<Op>, db: string, table: string, r: Reading) {
    exists i :: 0 <= i < |ops| && Latest(ops, db, table, r, i)
  }

  ghost predicate Latest(ops: seq<Op>, db: string, table: string, r: Reading, i: nat)
    requires i < |ops|
  {
    && Observed(ops, db, table, r.tags, i) && ops[i].ts == r.ts && ops[i].fields == r.fields
    && forall j :: 0 <= j < |ops| && Observed(ops, db, table, r.tags, j) ==> ops[j].ts <= r.ts && (j < i ==> ops[j].ts < r.ts)
  }

  ghost predicate EverObserved(ops: seq<Op>, db: string, table: string, tags: TagList) {
    exists j :: 0 <= j < |ops| && Observed(ops, db, table, tags, j)
  }

  /** One reading per observed tag set, no other, and each the latest. */
  ghost predicate LatestPerSeries(ops: seq<Op>, db: string, table: string, out: seq<Reading>) {
    && (forall i :: 0 <= i < |out| ==> IsLatest(ops, db, table, out[i]))
    && (forall i, j :: 0 <= i < j < |out| ==> out[i].tags != out[j].tags)
    && (forall tags :: EverObserved(ops, db, table, tags) ==> exists i :: 0 <= i < |out| && out[i].tags == tags)
  }

  lemma {:induction false} EventAt(ops: seq<Op>, j: nat)
    requires j < |ops|
    ensures Events(ops)[j] == EventOf(EnabledAfter(ops[..j]), ops[j])
  {
    if j < |ops| - 1 {
      EventAt(Init(ops), j);
      InitPrefix(ops, j);
    } else {
      assert ops[..j] == Init(ops);
    }
  }

  /** Under plain names, an event of a series' key is an operation of that series. */
  lemma EventIsOp(ops: seq<Op>, db: string, table: string, tags: TagList, j: nat)
    requires AllPlain(ops) && PlainName(db) && PlainName(table) && PlainTags(tags) && j < |ops|
    ensures Events(ops)[j].Seen? && Events(ops)[j].key == SeriesKey(db, table, tags) <==>
            ops[j].Write? && ops[j].db == db && ops[j].table == table && SortTags(ops[j].tags) == tags &&
            TableName(db, table) in EnabledAfter(ops[..j])
    ensures Events(ops)[j].Dropped? && HasPrefix(SeriesKey(db, table, tags), Events(ops)[j].prefix) <==> ops[j] == Off(db, table)
  {
    EventAt(ops, j);
    var o := ops[j];
    assert PlainOp(o);
    if o.Write? && Events(ops)[j].Seen? && Events(ops)[j].key == SeriesKey(db, table, tags) {
      SortedPlain(o.tags);
      SeriesKeyInjective(o.db, o.table, SortTags(o.tags), db, table, tags);
    }
    if o.Off? { PrefixSelectsTable(o.db, o.table, db, table, tags); }
  }

  lemma CountsIff(ops: seq<Op>, db: string, table: string, tags: TagList, j: nat)
    requires AllPlain(ops) && PlainName(db) && PlainName(table) && PlainTags(tags) && j < |ops|
    ensures Counts(Events(ops), SeriesKey(db, table, tags), j) <==> Observed(ops, db, table, tags, j)
  {
    var log, k := Events(ops), SeriesKey(db, table, tags);
    EventIsOp(ops, db, table, tags, j);
    forall m | j < m < |ops| ensures log[m].Dropped? && HasPrefix(k, log[m].prefix) <==> ops[m] == Off(db, table) {
      EventIsOp(ops, db, table, tags, m);
    }
  }

  /** A key's tags are those of an observation of it. */
  lemma {:induction false} Origin(log: seq<Event>, k: string) returns (j: nat)
    requires k in Plain(log)
    ensures j < |log| && log[j].Seen? && log[j].key == k && log[j].reading.tags == Plain(log)[k].tags
  {
    if k in Plain(Init(log)) { j := Origin(Init(log), k); } else { j := |log| - 1; }
  }

  /** An entry under a table's prefix is a series of that table, under its own tags. */
  lemma EntryIsSeries(ops: seq<Op>, db: string, table: string, k: string)
    requires AllPlain(ops) && PlainName(db) && PlainName(table)
    requires k in Plain(Events(ops)) && HasPrefix(k, KeyPrefix(db, table))
    ensures var tags := Plain(Events(ops))[k].tags; PlainTags(tags) && k == SeriesKey(db, table, tags)
  {
    var j := Origin(Events(ops), k);
    EventAt(ops, j);
    assert PlainOp(ops[j]);
    SortedPlain(ops[j].tags);
    PrefixSelectsTable(db, table, ops[j].db, ops[j].table, SortTags(ops[j].tags));
  }

  lemma EntryIsLatestOp(ops: seq<Op>, db: string, table: string, k: string)
    requires AllPlain(ops) && PlainName(db) && PlainName(table)
    requires k in Plain(Events(ops)) && HasPrefix(k, KeyPrefix(db, table))
    ensures IsLatest(ops, db, table, Plain(Events(ops))[k])
  {
    var log, r := Events(ops), Plain(Events(ops))[k];
    EntryIsSeries(ops, db, table, k);
    var i := PlainIsFirstLatest(log, k);
    CountsIff(ops, db, table, r.tags, i);
    EventAt(ops, i);
    forall j | 0 <= j < |ops| && Observed(ops, db, table, r.tags, j)
      ensures ops[j].ts <= r.ts && (j < i ==> ops[j].ts < r.ts)
    {
      CountsIff(ops, db, table, r.tags, j);
      EventAt(ops, j);
    }
    assert Latest(ops, db, table, r, i);
  }

  /** An observed series is in the plain map, under its key and with its tags. */
  lemma ObservedIsThere(ops: seq<Op>, db: string, table: string, tags: TagList)
    requires AllPlain(ops) && PlainName(db) && PlainName(table) && EverObserved(ops, db, table, tags)
    ensures var k := SeriesKey(db, table, tags);
            k in Plain(Events(ops)) && HasPrefix(k, KeyPrefix(db, table)) && Plain(Events(ops))[k].tags == tags
  {
    var j :| 0 <= j < |ops| && Observed(ops, db, table, tags, j);
    var k := SeriesKey(db, table, tags);
    assert PlainOp(ops[j]);
    SortedPlain(ops[j].tags);
    CountsIff(ops, db, table, tags, j);
    CountedIsThere(Events(ops), k, j);
    PrefixSelectsTable(db, table, db, table, tags);
    EntryIsSeries(ops, db, table, k);
    SeriesKeyInjective(db, table, tags, db, table, Plain(Events(ops))[k].tags);
  }

  /** While every series ever cached fits, a table's snapshot is exactly the latest reading of
   *  each series observed since the table was last switched off. */
  lemma SnapshotIsLatest(ops: seq<Op>, db: string, table: string, cap: nat, order: seq<string>, held: map<string, Reading>,
                         out: seq<Reading>)
    requires Lru(order, held) == Run(cap, Events(ops)) && IsSnapshot(order, held, KeyPrefix(db, table), out)
    requires FitsCap(Events(ops), cap) && AllPlain(ops) && PlainName(db) && PlainName(table)
    ensures LatestPerSeries(ops, db, table, out)
  {
    FittingIsPlain(cap, Events(ops));
    assert held == Plain(Events(ops));
    PickedIsLatest(ops, db, table, KeysOf(order, KeyPrefix(db, table)), out);
  }

  /** The readings of the keys, last key first. */
  ghost predicate ReadOff(keys: seq<string>, held: map<string, Reading>, out: seq<Reading>) {
    |out| == |keys| && forall i :: 0 <= i < |keys| ==> keys[i] in held && out[|keys| - 1 - i] == held[keys[i]]
  }

  lemma ReadAt(keys: seq<string>, held: map<string, Reading>, out: seq<Reading>, i: nat)
    requires ReadOff(keys, held, out) && i < |out|
    ensures keys[|keys| - 1 - i] in held && out[i] == held[keys[|keys| - 1 - i]] && keys[|keys| - 1 - i] in keys
  {
    var j := |keys| - 1 - i;
    assert out[|keys| - 1 - j] == held[keys[j]];
  }

  /** The keys are those of the table's series in the plain map. */
  ghost predicate TableKeys(ops: seq<Op>, db: string, table: string, keys: seq<string>) {
    Unique(keys) && forall k :: k in keys <==> k in Plain(Events(ops)) && HasPrefix(k, KeyPrefix(db, table))
  }

  lemma DistinctSeries(ops: seq<Op>, db: string, table: string, k: string, l: string)
    requires AllPlain(ops) && PlainName(db) && PlainName(table) && k != l
    requires k in Plain(Events(ops)) && HasPrefix(k, KeyPrefix(db, table))
    requires l in Plain(Events(ops)) && HasPrefix(l, KeyPrefix(db, table))
    ensures Plain(Events(ops))[k].tags != Plain(Events(ops))[l].tags
  {
    EntryIsSeries(ops, db, table, k);
    EntryIsSeries(ops, db, table, l);
  }

  lemma PickedObserved(ops: seq<Op>, db: string, table: string, keys: seq<string>, out: seq<Reading>, tags: TagList)
    requires AllPlain(ops) && PlainName(db) && PlainName(table) && TableKeys(ops, db, table, keys)
    requires ReadOff(keys, Plain(Events(ops)), out) && EverObserved(ops, db, table, tags)
    ensures exists i :: 0 <= i < |out| && out[i].tags == tags
  {
    ObservedIsThere(ops, db, table, tags);
    var k := SeriesKey(db, table, tags);
    assert k in keys;
    var i :| 0 <= i < |keys| && keys[i] == k;
    assert out[|keys| - 1 - i].tags == tags;
  }

  lemma PickedLatest(ops: seq<Op>, db: string, table: string, keys: seq<string>, out: seq<Reading>, i: nat)
    requires AllPlain(ops) && PlainName(db) && PlainName(table) && TableKeys(ops, db, table, keys)
    requires ReadOff(keys, Plain(Events(ops)), out) && i < |out|
    ensures IsLatest(ops, db, table, out[i])
  {
    ReadAt(keys, Plain(Events(ops)), out, i);
    EntryIsLatestOp(ops, db, table, keys[|keys| - 1 - i]);
  }

  lemma PickedDistinct(ops: seq<Op>, db: string, table: string, keys: seq<string>, out: seq<Reading>, i: nat, j: nat)
    requires AllPlain(ops) && PlainName(db) && PlainName(table) && TableKeys(ops, db, table, keys)
    requires ReadOff(keys, Plain(Events(ops)), out) && i < j < |out|
    ensures out[i].tags != out[j].tags
  {
    ReadAt(keys, Plain(Events(ops)), out, i);
    ReadAt(keys, Plain(Events(ops)), out, j);
    var a, b := |keys| - 1 - j, |keys| - 1 - i;
    assert keys[a] != keys[b];
    DistinctSeries(ops, db, table, keys[b], keys[a]);
  }

  lemma PickedIsLatest(ops: seq<Op>, db: string, table: string, keys: seq<string>, out: seq<Reading>)
    requires AllPlain(ops) && PlainName(db) && PlainName(table) && TableKeys(ops, db, table, keys)
    requires ReadOff(keys, Plain(Events(ops)), out)
    ensures LatestPerSeries(ops, db, table, out)
  {
    forall i | 0 <= i < |out| ensures IsLatest(ops, db, table, out[i]) { PickedLatest(ops, db, table, keys, out, i); }
    forall i, j | 0 <= i < j < |out| ensures out[i].tags != out[j].tags { PickedDistinct(ops, db, table, keys, out, i, j); }
    forall tags | EverObserved(ops, db, table, tags) ensures exists i :: 0 <= i < |out| && out[i].tags == tags {
      PickedObserved(ops, db, table, keys, out, tags);
    }
  }
}
