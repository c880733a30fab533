/** Which series the bounded cache keeps, said of the observations alone. */
module Recency {
  import opened Basics
  import opened SeriesKeys
  import opened LastValue

  // ----- when a series was last observed

  predicate Sees(e: Event, k: string) { e.Seen? && e.key == k }

  /** The last observation of k, an ignored older reading included; -1 if there is none. */
  function LastSeen(log: seq<Event>, k: string): int {
    if log == [] then -1 else if Sees(Last(log), k) then |log| - 1 else LastSeen(Init(log), k)
  }

  lemma {:induction false} LastSeenIs(log: seq<Event>, k: string)
    ensures -1 <= LastSeen(log, k) < |log|
    ensures LastSeen(log, k) >= 0 ==> Sees(log[LastSeen(log, k)], k)
    ensures forall j :: LastSeen(log, k) < j < |log| ==> !Sees(log[j], k)
  {
    if log != [] {
      LastSeenIs(Init(log), k);
      assert forall j :: 0 <= j < |log| - 1 ==> Init(log)[j] == log[j];
    }
  }

  function SeenAt(log: seq<Event>): string -> int { (k: string) => LastSeen(log, k) }

  // ----- the order of the entries

  /** Strictly increasing in `at`, which is never negative. */
  predicate Increasing(at: string -> int, order: seq<string>) {
    && (forall i :: 0 <= i < |order| ==> at(order[i]) >= 0)
    && forall i, j :: 0 <= i < j < |order| ==> at(order[i]) < at(order[j])
  }

  lemma BelowLast(at: string -> int, order: seq<string>, rest: seq<string>, x: string)
    requires Increasing(at, order) && order != [] && x == Last(order) && forall k :: k in rest ==> k in Init(order)
    ensures forall i :: 0 <= i < |rest| ==> at(rest[i]) < at(x)
  {
    forall i | 0 <= i < |rest| ensures at(rest[i]) < at(x) {
      assert rest[i] in rest;
      var j :| 0 <= j < |Init(order)| && Init(order)[j] == rest[i];
      assert order[j] == rest[i] && at(order[j]) < at(order[|order| - 1]);
    }
  }

  lemma IncreasingInit(at: string -> int, order: seq<string>)
    requires Increasing(at, order) && order != []
    ensures Increasing(at, Init(order))
  {
    assert forall i :: 0 <= i < |Init(order)| ==> Init(order)[i] == order[i];
  }

  lemma {:induction false} WithoutIncreasing(at: string -> int, order: seq<string>, drop: string -> bool)
    requires Increasing(at, order)
    ensures Increasing(at, Without(order, drop))
  {
    if order != [] {
      var before := Init(order);
      IncreasingInit(at, order);
      WithoutIncreasing(at, before, drop);
      WithoutIs(before, drop);
      BelowLast(at, order, Without(before, drop), Last(order));
      assert at(order[|order| - 1]) >= 0;
    }
  }

  lemma IncreasingMore(at: string -> int, at': string -> int, order: seq<string>, k: string, top: int)
    requires Increasing(at, order) && (forall x :: x in order ==> at'(x) == at(x) < top) && at'(k) == top && top >= 0
    ensures Increasing(at', order + [k])
  {
    assert forall i :: 0 <= i < |order| ==> order[i] in order;
  }

  lemma IncreasingSame(at: string -> int, at': string -> int, order: seq<string>)
    requires Increasing(at, order) && forall x :: x in order ==> at'(x) == at(x)
    ensures Increasing(at', order)
  {
    assert forall i :: 0 <= i < |order| ==> order[i] in order;
  }

  lemma SeenNext(log: seq<Event>, e: Event, k: string)
    ensures LastSeen(log + [e], k) == if Sees(e, k) then |log| else LastSeen(log, k)
  {
    assert Init(log + [e]) == log;
  }

  /** The keys that stay in front of k when it is observed. */
  lemma Promoted(log: seq<Event>, order: seq<string>, k: string, r: Reading)
    requires Increasing(SeenAt(log), order) && k !in order
    ensures Increasing(SeenAt(log + [Seen(k, r)]), order + [k])
  {
    var at, at' := SeenAt(log), SeenAt(log + [Seen(k, r)]);
    forall x | x in order ensures at'(x) == at(x) < |log| {
      SeenNext(log, Seen(k, r), x);
      LastSeenIs(log, x);
    }
    SeenNext(log, Seen(k, r), k);
    IncreasingMore(at, at', order, k, |log|);
  }

  lemma Unpromoted(log: seq<Event>, order: seq<string>, e: Event)
    requires Increasing(SeenAt(log), order) && !e.Seen?
    ensures Increasing(SeenAt(log + [e]), order)
  {
    forall x | x in order ensures SeenAt(log + [e])(x) == SeenAt(log)(x) { SeenNext(log, e, x); }
    IncreasingSame(SeenAt(log), SeenAt(log + [e]), order);
  }

  lemma TailIncreasing(at: string -> int, order: seq<string>)
    requires Increasing(at, order) && order != []
    ensures Increasing(at, order[1..])
  {
    assert forall i :: 0 <= i < |order[1..]| ==> order[1..][i] == order[i + 1];
  }

  /** Entries stand in the order of their last observation. */
  lemma {:induction false} OrderIsRecency(cap: nat, log: seq<Event>)
    requires cap > 0
    ensures Increasing(SeenAt(log), Run(cap, log).order)
  {
    if log != [] {
      var before, e, s := Init(log), Last(log), Run(cap, Init(log));
      OrderIsRecency(cap, before);
      RunBounded(cap, before);
      InitLast(log);
      OrderNext(cap, before, e, s);
    }
  }

  lemma OrderNext(cap: nat, log: seq<Event>, e: Event, s: Lru)
    requires cap > 0 && Bounded(cap, s) && Increasing(SeenAt(log), s.order)
    ensures Increasing(SeenAt(log + [e]), After(cap, s, e).order)
  {
    match e
    case Seen(k, r) =>
      if k in s.held {
        var rest := Without(s.order, (x: string) => x == k);
        WithoutIncreasing(SeenAt(log), s.order, (x: string) => x == k);
        WithoutIs(s.order, (x: string) => x == k);
        Promoted(log, rest, k, r);
      } else {
        var t := Room(cap, s);
        if t.order != s.order { TailIncreasing(SeenAt(log), s.order); }
        assert k !in t.order by { assert forall x :: x in t.order ==> x in s.order; }
        Promoted(log, t.order, k, r);
      }
    case Dropped(prefix) =>
      WithoutIncreasing(SeenAt(log), s.order, (x: string) => HasPrefix(x, prefix));
      Unpromoted(log, After(cap, s, e).order, e);
    case Idle => Unpromoted(log, s.order, e);
  }

  // ----- what is evicted

  /** What an observation leaves: everything while the series is there or there is room, else all
   *  but the front of the order. */
  lemma KeptKeys(cap: nat, s: Lru, k: string, r: Reading)
    requires cap > 0 && Bounded(cap, s)
    ensures var now := After(cap, s, Seen(k, r)).held.Keys;
            if k in s.held || |s.held| < cap then now == s.held.Keys + {k}
            else s.order != [] && s.order[0] in s.held && now == s.held.Keys - {s.order[0]} + {k}
  {
    if k !in s.held && |s.held| == cap {
      if s.order == [] { NoKeys(s.held); }
      assert s.order[0] in s.order;
    }
  }

  lemma FrontIsOldest(at: string -> int, order: seq<string>, x: string)
    requires Increasing(at, order) && x in order && x != order[0]
    ensures at(order[0]) < at(x)
  {
    var i :| 0 <= i < |order| && order[i] == x;
  }

  /** An observation evicts nothing while the series is there or there is room; otherwise exactly the
   *  resident series whose last observation is the oldest. */
  lemma EvictsOldest(cap: nat, log: seq<Event>, k: string, r: Reading) returns (gone: string)
    requires cap > 0
    ensures var was, now := Run(cap, log).held, Run(cap, log + [Seen(k, r)]).held.Keys;
            if k in was || |was| < cap then now == was.Keys + {k}
            else gone in was && now == was.Keys - {gone} + {k} && forall x :: x in was && x != gone ==> LastSeen(log, gone) < LastSeen(log, x)
  {
    var s := Run(cap, log);
    gone := if s.order == [] then k else s.order[0];
    RunMore(cap, log, Seen(k, r));
    RunBounded(cap, log);
    OrderIsRecency(cap, log);
    KeptKeys(cap, s, k, r);
    forall x | s.order != [] && x in s.held && x != s.order[0] ensures LastSeen(log, s.order[0]) < LastSeen(log, x) {
      FrontIsOldest(SeenAt(log), s.order, x);
    }
  }

  // ----- who is resident

  /** The series observed after event i. */
  function SeenAfter(log: seq<Event>, i: int): set<string> {
    set j | 0 <= j < |log| && j > i && log[j].Seen? :: log[j].key
  }

  /** The other series observed after the last observation of k. */
  function Behind(log: seq<Event>, k: string): set<string> { SeenAfter(log, LastSeen(log, k)) }

  predicate NoDrops(log: seq<Event>) { forall i :: 0 <= i < |log| ==> !log[i].Dropped? }

  lemma BehindNext(log: seq<Event>, e: Event, k: string)
    requires !Sees(e, k)
    ensures Behind(log + [e], k) == Behind(log, k) + (if e.Seen? then {e.key} else {})
  {
    var more, i := log + [e], LastSeen(log, k);
    SeenNext(log, e, k);
    LastSeenIs(log, k);
    assert forall j :: 0 <= j < |log| ==> more[j] == log[j];
    forall x ensures x in SeenAfter(more, i) <==> x in SeenAfter(log, i) || (e.Seen? && x == e.key) {
      if x in SeenAfter(log, i) {
        var j :| 0 <= j < |log| && j > i && log[j].Seen? && log[j].key == x;
        assert more[j].Seen? && more[j].key == x;
      }
      if e.Seen? && x == e.key { assert more[|log|].Seen? && more[|log|].key == x; }
    }
  }

  lemma BehindSelf(log: seq<Event>, k: string, r: Reading)
    ensures Behind(log + [Seen(k, r)], k) == {}
  {
    SeenNext(log, Seen(k, r), k);
  }

  /** b was last observed after a: all that is behind b is behind a, and so is b. */
  lemma Nested(log: seq<Event>, a: string, b: string)
    requires LastSeen(log, a) < LastSeen(log, b)
    ensures Behind(log, b) + {b} <= Behind(log, a) && b !in Behind(log, b) && |Behind(log, b)| + 1 <= |Behind(log, a)|
  {
    var i := LastSeen(log, b);
    LastSeenIs(log, a);
    LastSeenIs(log, b);
    assert log[i].Seen? && log[i].key == b;
    forall x | x in Behind(log, b) ensures x in Behind(log, a) {
      var j :| 0 <= j < |log| && j > i && log[j].Seen? && log[j].key == x;
    }
    Sizes(Behind(log, b) + {b}, Behind(log, a));
  }

  lemma Sizes<T>(a: set<T>, b: set<T>)
    requires a <= b
    ensures |a| <= |b|
  {
    assert b == a + (b - a);
  }

  lemma BehindIff(log: seq<Event>, a: string, b: string)
    requires a != b && LastSeen(log, b) >= 0
    ensures b in Behind(log, a) <==> LastSeen(log, a) < LastSeen(log, b)
    ensures LastSeen(log, a) != LastSeen(log, b)
  {
    LastSeenIs(log, a);
    LastSeenIs(log, b);
    if b in Behind(log, a) {
      var j :| 0 <= j < |log| && j > LastSeen(log, a) && log[j].Seen? && log[j].key == b;
      assert Sees(log[j], b);
    }
  }

  /** Residents are the series with fewer than `cap` others behind them, and until the cache is full
   *  every series is one. */
  ghost predicate Recent(cap: nat, log: seq<Event>, held: map<string, Reading>) {
    && (forall k :: k in held <==> LastSeen(log, k) >= 0 && |Behind(log, k)| < cap)
    && (|held| < cap ==> forall k :: LastSeen(log, k) >= 0 ==> k in held)
  }

  lemma AddOne(d: set<string>, x: string)
    ensures |d + {x}| == if x in d then |d| else |d| + 1
  {
    if x in d { assert d + {x} == d; }
  }

  /** A resident is observed again: nobody else's place changes. */
  lemma AgainIff(cap: nat, log: seq<Event>, held: map<string, Reading>, x: string, k: string)
    requires Recent(cap, log, held) && x in held && k != x && LastSeen(log, k) >= 0
    ensures |Behind(log, k) + {x}| < cap <==> k in held
  {
    AddOne(Behind(log, k), x);
    BehindIff(log, k, x);
    if x !in Behind(log, k) { Nested(log, x, k); }
  }

  lemma BehindSeen(log: seq<Event>, k: string, y: string)
    requires y in Behind(log, k)
    ensures LastSeen(log, y) >= 0 && y != k
  {
    LastSeenIs(log, k);
    LastSeenIs(log, y);
    var j :| 0 <= j < |log| && j > LastSeen(log, k) && log[j].Seen? && log[j].key == y;
    assert Sees(log[j], y);
  }

  /** There is room: everybody stays. */
  lemma RoomFits(cap: nat, log: seq<Event>, held: map<string, Reading>, x: string, k: string)
    requires Recent(cap, log, held) && |held| < cap && LastSeen(log, k) >= 0
    ensures |Behind(log, k) + {x}| < cap
  {
    forall y | y in Behind(log, k) + {k} ensures y in held.Keys { if y in Behind(log, k) { BehindSeen(log, k, y); } }
    Sizes(Behind(log, k) + {k}, held.Keys);
    if k in Behind(log, k) { BehindSeen(log, k, k); }
    AddOne(Behind(log, k), k);
    AddOne(Behind(log, k), x);
    assert |held| == |held.Keys|;
  }

  lemma NewcomerIsBehindNone(cap: nat, log: seq<Event>, held: map<string, Reading>, x: string, k: string)
    requires Recent(cap, log, held) && x !in held && k in held
    ensures x !in Behind(log, k)
  {
    if x in Behind(log, k) {
      BehindSeen(log, k, x);
      BehindIff(log, k, x);
      Nested(log, k, x);
    }
  }

  /** It is full: the oldest resident goes, and nobody else. */
  lemma FullIff(cap: nat, log: seq<Event>, held: map<string, Reading>, x: string, k: string, gone: string)
    requires Recent(cap, log, held) && |held| == cap && x !in held && gone in held && LastSeen(log, k) >= 0
    requires forall y :: y in held && y != gone ==> LastSeen(log, gone) < LastSeen(log, y)
    ensures |Behind(log, k) + {x}| < cap <==> k in held && k != gone
  {
    AddOne(Behind(log, k), x);
    if k in held {
      NewcomerIsBehindNone(cap, log, held, x, k);
      if k != gone {
        Nested(log, gone, k);
      } else {
        forall y | y in held.Keys - {gone} ensures y in Behind(log, gone) { BehindIff(log, gone, y); }
        Sizes(held.Keys - {gone}, Behind(log, gone));
        assert |held.Keys - {gone}| == |held.Keys| - 1 && |held| == |held.Keys|;
      }
    }
  }

  /** Who is there after x is observed. */
  lemma ResidentNext(cap: nat, log: seq<Event>, s: Lru, x: string, r: Reading, k: string)
    requires cap > 0 && Bounded(cap, s) && Increasing(SeenAt(log), s.order) && Recent(cap, log, s.held)
    ensures k in After(cap, s, Seen(x, r)).held <==> LastSeen(log + [Seen(x, r)], k) >= 0 && |Behind(log + [Seen(x, r)], k)| < cap
  {
    KeptKeys(cap, s, x, r);
    SeenNext(log, Seen(x, r), k);
    if k == x {
      BehindSelf(log, x, r);
    } else {
      BehindNext(log, Seen(x, r), k);
      if LastSeen(log, k) >= 0 { PlaceNext(cap, log, s, x, k); }
    }
  }

  lemma PlaceNext(cap: nat, log: seq<Event>, s: Lru, x: string, k: string)
    requires cap > 0 && Bounded(cap, s) && Increasing(SeenAt(log), s.order) && Recent(cap, log, s.held) && k != x && LastSeen(log, k) >= 0
    ensures |Behind(log, k) + {x}| < cap <==> k in s.held && (x in s.held || |s.held| < cap || (s.order != [] && k != s.order[0]))
  {
    if x in s.held {
      AgainIff(cap, log, s.held, x, k);
    } else if |s.held| < cap {
      RoomFits(cap, log, s.held, x, k);
    } else {
      if s.order == [] { NoKeys(s.held); }
      forall y | y in s.held && y != s.order[0] ensures LastSeen(log, s.order[0]) < LastSeen(log, y) {
        FrontIsOldest(SeenAt(log), s.order, y);
      }
      assert s.order[0] in s.order;
      FullIff(cap, log, s.held, x, k, s.order[0]);
    }
  }

  lemma RecentNext(cap: nat, log: seq<Event>, s: Lru, e: Event)
    requires cap > 0 && Bounded(cap, s) && Increasing(SeenAt(log), s.order) && Recent(cap, log, s.held) && !e.Dropped?
    ensures Recent(cap, log + [e], After(cap, s, e).held)
  {
    var s', log' := After(cap, s, e), log + [e];
    match e
    case Seen(x, r) =>
      forall k ensures k in s'.held <==> LastSeen(log', k) >= 0 && |Behind(log', k)| < cap { ResidentNext(cap, log, s, x, r, k); }
      KeptKeys(cap, s, x, r);
      AfterBounded(cap, s, e);
      FillNext(cap, s, x, r);
      forall k | |s'.held| < cap && LastSeen(log', k) >= 0 ensures k in s'.held { SeenNext(log, e, k); }
    case Idle =>
      forall k ensures LastSeen(log', k) == LastSeen(log, k) && Behind(log', k) == Behind(log, k) {
        SeenNext(log, e, k);
        BehindNext(log, e, k);
      }
  }

  lemma FillNext(cap: nat, s: Lru, x: string, r: Reading)
    requires cap > 0 && Bounded(cap, s)
    ensures |After(cap, s, Seen(x, r)).held| < cap ==> |s.held| < cap && After(cap, s, Seen(x, r)).held.Keys == s.held.Keys + {x}
  {
    var now := After(cap, s, Seen(x, r)).held;
    KeptKeys(cap, s, x, r);
    assert |now| == |now.Keys| && |s.held| == |s.held.Keys|;
    if |s.held| == cap {
      if x in s.held {
        assert s.held.Keys + {x} == s.held.Keys;
      } else {
        assert |s.held.Keys - {s.order[0]}| == cap - 1;
        AddOne(s.held.Keys - {s.order[0]}, x);
      }
    }
  }

  lemma {:induction false} RunRecent(cap: nat, log: seq<Event>)
    requires cap > 0 && NoDrops(log)
    ensures Recent(cap, log, Run(cap, log).held)
  {
    if log != [] {
      var before := Init(log);
      assert forall i :: 0 <= i < |before| ==> before[i] == log[i];
      RunRecent(cap, before);
      RunBounded(cap, before);
      OrderIsRecency(cap, before);
      InitLast(log);
      assert !log[|log| - 1].Dropped?;
      RecentNext(cap, before, Run(cap, before), Last(log));
    }
  }

  /** Without drops, a series is in the cache exactly when it was observed and fewer than `cap` other
   *  series were observed after its last observation. */
  lemma ResidentIff(cap: nat, log: seq<Event>, k: string)
    requires cap > 0 && NoDrops(log)
    ensures k in Run(cap, log).held <==> (exists i :: 0 <= i < |log| && Sees(log[i], k)) && |Behind(log, k)| < cap
  {
    RunRecent(cap, log);
    LastSeenIs(log, k);
  }

  // ----- which rows count

  lemma TableNameInjective(db: string, table: string, db': string, table': string)
    requires Lacks(db, NUL) && Lacks(db', NUL) && TableName(db, table) == TableName(db', table')
    ensures db == db' && table == table'
  {
    SplitAt(db, table, db', table', NUL);
  }

  /** The table was switched on by operation i and not off since. */
  predicate OnSince(ops: seq<Op>, db: string, table: string, i: nat) {
    i < |ops| && ops[i] == On(db, table) && forall j :: i < j < |ops| ==> ops[j] != Off(db, table)
  }

  /** A table is enabled exactly while its last switch was on. */
  lemma {:induction false} EnabledIff(ops: seq<Op>, db: string, table: string)
    requires Lacks(db, NUL) && forall i :: 0 <= i < |ops| ==> Lacks(ops[i].db, NUL)
    ensures TableName(db, table) in EnabledAfter(ops) <==> exists i: nat :: OnSince(ops, db, table, i)
  {
    if ops != [] {
      var n, before, o := |ops| - 1, Init(ops), Last(ops);
      assert forall i :: 0 <= i < n ==> before[i] == ops[i];
      EnabledIff(before, db, table);
      assert Lacks(ops[n].db, NUL);
      if TableName(o.db, o.table) == TableName(db, table) { TableNameInjective(o.db, o.table, db, table); }
      if o == On(db, table) { assert OnSince(ops, db, table, n); }
      if i: nat :| OnSince(before, db, table, i) { assert o != Off(db, table) ==> OnSince(ops, db, table, i); }
      if i: nat :| OnSince(ops, db, table, i) { assert i < n ==> OnSince(before, db, table, i) && o != Off(db, table); }
    }
  }

  /** A write counts exactly while its table is enabled, under the key of its sorted tags; nothing
   *  else is an observation. */
  lemma {:induction false} EventIs(ops: seq<Op>, i: nat)
    requires i < |ops| && Lacks(ops[i].db, NUL) && forall j :: 0 <= j < |ops| ==> Lacks(ops[j].db, NUL)
    ensures Events(ops)[i].Seen? <==> ops[i].Write? && exists j: nat :: OnSince(ops[..i], ops[i].db, ops[i].table, j)
    ensures Events(ops)[i].Seen? ==> Events(ops)[i].key == SeriesKey(ops[i].db, ops[i].table, SortTags(ops[i].tags))
    ensures Events(ops)[i].Dropped? <==> ops[i].Off?
  {
    if i < |ops| - 1 {
      assert Init(ops)[i] == ops[i] && Init(ops)[..i] == ops[..i];
      assert forall j :: 0 <= j < |Init(ops)| ==> Init(ops)[j] == ops[j];
      EventIs(Init(ops), i);
    } else {
      assert ops[..i] == Init(ops);
      assert forall j :: 0 <= j < |Init(ops)| ==> Init(ops)[j] == ops[j];
      EnabledIff(Init(ops), ops[i].db, ops[i].table);
    }
  }
}
