/** The audit sink: appends that may fail, rotations and reopenings, over segment files. */
module AuditSink {
  import opened Basics
  import opened Names
  import opened Audit

  // ----- runs

  /** How a durable write ends: on disk and acknowledged; failed with nothing written; or
   *  failed at the final sync with the bytes already in the file. */
  datatype Write = Synced | NothingWritten | WrittenUnsynced

  datatype Op = Append(event: Event, write: Write) | Reopen

  /** The records on disk, and what memory believes about their end. */
  datatype Chain = Chain(disk: seq<Record>, nextSeq: nat, head: Hash)

  function NewRecord(c: Chain, event: Event): Record {
    Record(c.nextSeq, event, c.head, Digest(c.nextSeq, event, c.head))
  }

  function Recovered(disk: seq<Record>): Chain {
    Chain(disk, if disk == [] then 1 else Last(disk).seqNo + 1, HeadOf(disk))
  }

  /** Memory moves on only when the write was acknowledged. */
  function Next(c: Chain, o: Op): Chain {
    match o
    case Append(event, Synced) =>
      var r := NewRecord(c, event); Chain(c.disk + [r], c.nextSeq + 1, r.hash)
    case Append(event, WrittenUnsynced) => c.(disk := c.disk + [NewRecord(c, event)])
    case Append(_, NothingWritten) => c
    case Reopen => Recovered(c.disk)
  }

  function After(ops: seq<Op>): Chain {
    if ops == [] then Chain([], 1, Genesis) else Next(After(Init(ops)), Last(ops))
  }

  lemma AfterMore(ops: seq<Op>, o: Op)
    ensures After(ops + [o]) == Next(After(ops), o)
  {
    assert Init(ops + [o]) == ops;
  }

  predicate Writes(o: Op) { o.Append? && !o.write.NothingWritten? }

  predicate Tears(o: Op) { o.Append? && o.write.WrittenUnsynced? }

  /** An unsynced record is on disk and the process has not reopened since. */
  predicate Torn(ops: seq<Op>) {
    ops != [] && !Last(ops).Reopen? && (Tears(Last(ops)) || Torn(Init(ops)))
  }

  /** Something was written while an unsynced record lay at the end. */
  predicate Retried(ops: seq<Op>) {
    ops != [] && (Retried(Init(ops)) || (Torn(Init(ops)) && Writes(Last(ops))))
  }

  /** Write j follows failed sync i in the same process. */
  predicate RetriedAt(ops: seq<Op>, i: nat, j: nat) {
    i < j < |ops| && Tears(ops[i]) && Writes(ops[j]) && forall m :: i < m < j ==> !ops[m].Reopen?
  }

  predicate TornAt(ops: seq<Op>, i: nat) { i < |ops| && Tears(ops[i]) && forall m :: i < m < |ops| ==> !ops[m].Reopen? }

  lemma {:induction false} TornIff(ops: seq<Op>)
    ensures Torn(ops) <==> exists i :: 0 <= i < |ops| && TornAt(ops, i)
  {
    if ops != [] {
      var n, before := |ops| - 1, Init(ops);
      TornIff(before);
      assert Tears(ops[n]) ==> TornAt(ops, n);
      if i :| 0 <= i < |before| && TornAt(before, i) {
        assert !ops[n].Reopen? ==> TornAt(ops, i) by { assert forall m :: i < m < n ==> ops[m] == before[m]; }
      }
      if i :| 0 <= i < |ops| && TornAt(ops, i) {
        assert i < n ==> TornAt(before, i) by { assert forall m :: i < m < n ==> ops[m] == before[m]; }
      }
    }
  }

  lemma {:induction false} RetriedIff(ops: seq<Op>)
    ensures Retried(ops) <==> exists i: nat, j: nat :: RetriedAt(ops, i, j)
  {
    if ops != [] {
      var n, before := |ops| - 1, Init(ops);
      RetriedIff(before);
      TornIff(before);
      assert forall m :: 0 <= m < n ==> ops[m] == before[m];
      if i: nat, j: nat :| RetriedAt(before, i, j) { assert RetriedAt(ops, i, j); }
      if i :| 0 <= i < |before| && TornAt(before, i) { assert Writes(ops[n]) ==> RetriedAt(ops, i, n); }
      if i: nat, j: nat :| RetriedAt(ops, i, j) {
        if j < n { assert RetriedAt(before, i, j); } else { assert TornAt(before, i); }
      }
    }
  }

  /** Memory and disk agree, or disk is one unsynced record ahead. */
  ghost predicate Behind(c: Chain, torn: bool) {
    if !torn then IsTrail(c.disk) && c.nextSeq == |c.disk| + 1 && c.head == HeadOf(c.disk)
    else
      c.disk != [] && IsTrail(Init(c.disk)) && c.nextSeq == |c.disk| && c.head == HeadOf(Init(c.disk)) &&
      Last(c.disk) == Chained(Init(c.disk), Last(c.disk).event)
  }

  lemma TornIsTrail(c: Chain)
    requires Behind(c, true)
    ensures IsTrail(c.disk)
  {
    InitLast(c.disk);
    ChainedIs(Init(c.disk), Last(c.disk).event);
  }

  lemma NextBehind(c: Chain, torn: bool, o: Op)
    requires Behind(c, torn) && !(torn && Writes(o))
    ensures Behind(Next(c, o), !o.Reopen? && (Tears(o) || torn))
  {
    if torn { TornIsTrail(c); }
    match o
    case Append(event, write) =>
      if Writes(o) {
        ChainedIs(c.disk, event);
        assert NewRecord(c, event) == Chained(c.disk, event);
        assert Init(c.disk + [NewRecord(c, event)]) == c.disk;
      }
    case Reopen => NumbersCount(c.disk);
  }

  /** A record written after an unsynced one repeats its number. */
  lemma RetryBreaks(c: Chain, event: Event)
    requires Behind(c, true)
    ensures !Intact(c.disk + [NewRecord(c, event)])
  {
    IntactMore(c.disk, NewRecord(c, event));
  }

  lemma BrokenStays(c: Chain, o: Op)
    requires !Intact(c.disk)
    ensures !Intact(Next(c, o).disk)
  {
    if Writes(o) { IntactMore(c.disk, NewRecord(c, o.event)); }
  }

  /** Over every run: what is on disk verifies exactly when nothing was written after a failed
   *  sync by the process that suffered it.  A break is never repaired, and reopening before
   *  the next write is what avoids it. */
  lemma {:induction false} IntactIff(ops: seq<Op>)
    ensures Intact(After(ops).disk) <==> !Retried(ops)
    ensures !Retried(ops) ==> Behind(After(ops), Torn(ops))
  {
    if ops != [] {
      var c, o := After(Init(ops)), Last(ops);
      IntactIff(Init(ops));
      if Retried(Init(ops)) {
        BrokenStays(c, o);
      } else if Torn(Init(ops)) && Writes(o) {
        RetryBreaks(c, o.event);
      } else {
        NextBehind(c, Torn(Init(ops)), o);
        if Torn(ops) { TornIsTrail(After(ops)); }
      }
    }
  }

  /** The events of the acknowledged appends. */
  function Acknowledged(ops: seq<Op>): seq<Event> {
    if ops == [] then []
    else Acknowledged(Init(ops)) + (if Last(ops).Append? && Last(ops).write.Synced? then [Last(ops).event] else [])
  }

  function EventsOf(rs: seq<Record>): seq<Event> { Map(rs, (r: Record) => r.event) }

  /** Without failed syncs the trail is exactly the acknowledged events. */
  lemma {:induction false} TrailIsAcknowledged(ops: seq<Op>)
    requires forall i :: 0 <= i < |ops| ==> !Tears(ops[i])
    ensures EventsOf(After(ops).disk) == Acknowledged(ops)
  {
    if ops != [] {
      TrailIsAcknowledged(Init(ops));
      assert !Tears(ops[|ops| - 1]);
      assert Acknowledged(Init(ops)) + [] == Acknowledged(Init(ops));
    }
  }

  // ----- segments on disk

  function SegmentName(last: nat): string { Numbered("audit.", last, 12, ".jsonl") }

  /** `audit.` and the number in at least twelve digits. */
  lemma SegmentNameReads(n: nat) returns (d: string)
    ensures SegmentName(n) == "audit." + d + ".jsonl" && |d| >= 12 && (n < Pow10(12) ==> |d| == 12)
    ensures (forall i :: 0 <= i < |d| ==> IsDigit(d[i])) && DecimalValue(d) == n
  {
    d := NumberedReads("audit.", n, 12, ".jsonl");
  }

  /** A rotated segment: the number it was named by, and its records. */
  datatype Segment = Segment(num: nat, records: seq<Record>)

  /** Segments in the order they were rotated. */
  predicate Ascending(segs: seq<Segment>) { forall i, j :: 0 <= i < j < |segs| ==> segs[i].num < segs[j].num }

  function Files(segs: seq<Segment>): map<string, seq<Record>> {
    if segs == [] then map[] else Files(Init(segs))[SegmentName(Last(segs).num) := Last(segs).records]
  }

  function Joined(segs: seq<Segment>): seq<Record> {
    if segs == [] then [] else Joined(Init(segs)) + Last(segs).records
  }

  function SegmentNames(segs: seq<Segment>): seq<string> {
    seq(|segs|, i requires 0 <= i < |segs| => SegmentName(segs[i].num))
  }

  lemma {:induction false} FilesKeys(segs: seq<Segment>)
    ensures forall x :: x in Files(segs) <==> x in SegmentNames(segs)
  {
    if segs != [] {
      FilesKeys(Init(segs));
      assert SegmentNames(segs) == SegmentNames(Init(segs)) + [SegmentName(Last(segs).num)];
    }
  }

  lemma {:induction false} FileAt(segs: seq<Segment>, i: nat)
    requires Ascending(segs) && i < |segs|
    ensures SegmentName(segs[i].num) in Files(segs) && Files(segs)[SegmentName(segs[i].num)] == segs[i].records
  {
    if i < |segs| - 1 {
      FileAt(Init(segs), i);
      var a, b := segs[i].num, Last(segs).num;
      assert a < b;
      if SegmentName(a) == SegmentName(b) { NumberedInjective("audit.", a, b, 12, ".jsonl"); }
    }
  }

  /** A number above all the others is a new name. */
  lemma FreshName(segs: seq<Segment>, n: nat)
    requires forall i :: 0 <= i < |segs| ==> segs[i].num < n
    ensures SegmentName(n) !in Files(segs)
  {
    FilesKeys(segs);
    forall i | 0 <= i < |segs| ensures SegmentNames(segs)[i] != SegmentName(n) {
      if SegmentName(segs[i].num) == SegmentName(n) { NumberedInjective("audit.", segs[i].num, n, 12, ".jsonl"); }
    }
  }

  /** While numbers have at most twelve digits, name order is rotation order. */
  lemma ListingIsChainOrder(segs: seq<Segment>, names: seq<string>)
    requires Ascending(segs) && forall i :: 0 <= i < |segs| ==> segs[i].num < Pow10(12)
    requires StrictlySorted(names) && forall x :: x in names <==> x in Files(segs)
    ensures names == SegmentNames(segs)
  {
    var inOrder := SegmentNames(segs);
    FilesKeys(segs);
    forall i, j | 0 <= i < j < |inOrder| ensures LexLess(inOrder[i], inOrder[j]) {
      assert segs[i].num < segs[j].num;
      NumberedOrder("audit.", segs[i].num, segs[j].num, 12, ".jsonl");
    }
    SortedListingUnique(names, inOrder);
  }

  /** A segment's name is below the next number, its records reach it, and later records are
   *  past it. */
  ghost predicate SegmentOk(s: Segment, nextSeq: nat, live: seq<Record>) {
    && s.num < nextSeq && s.records != [] && Last(s.records).seqNo >= s.num
    && forall j :: 0 <= j < |live| ==> live[j].seqNo > s.num
  }

  /** What rotation and reopening rely on, whether or not the chain is whole. */
  ghost predicate Filed(segs: seq<Segment>, live: seq<Record>, nextSeq: nat, written: nat) {
    && Ascending(segs) && (forall i :: 0 <= i < |segs| ==> SegmentOk(segs[i], nextSeq, live))
    && (written > 0 ==> live != [] && Last(live).seqNo + 1 >= nextSeq && forall i :: 0 <= i < |segs| ==> segs[i].num + 1 < nextSeq)
  }

  lemma RotatedFiled(segs: seq<Segment>, live: seq<Record>, nextSeq: nat, written: nat, all: seq<Segment>)
    requires Filed(segs, live, nextSeq, written) && written > 0 && nextSeq > 0 && all == segs + [Segment(nextSeq - 1, live)]
    ensures Filed(all, [], nextSeq, 0)
    ensures SegmentName(nextSeq - 1) !in Files(segs) && Files(all) == Files(segs)[SegmentName(nextSeq - 1) := live]
    ensures Joined(all) + [] == Joined(segs) + live
  {
    assert Init(all) == segs && Last(all) == Segment(nextSeq - 1, live);
    FreshName(segs, nextSeq - 1);
    forall i | 0 <= i < |all| ensures SegmentOk(all[i], nextSeq, []) { assert i < |segs| ==> SegmentOk(segs[i], nextSeq, live); }
  }

  lemma AppendedFiled(segs: seq<Segment>, live: seq<Record>, nextSeq: nat, written: nat, r: Record, more: nat)
    requires Filed(segs, live, nextSeq, written) && r.seqNo == nextSeq
    ensures Filed(segs, live + [r], nextSeq, written)
    ensures Filed(segs, live + [r], nextSeq + 1, more)
  {
    forall i, n | 0 <= i < |segs| && n >= nextSeq ensures SegmentOk(segs[i], n, live + [r]) { assert SegmentOk(segs[i], nextSeq, live); }
  }

  lemma ReopenedFiled(segs: seq<Segment>, live: seq<Record>, nextSeq: nat, written: nat, disk: seq<Record>, now: nat)
    requires Filed(segs, live, nextSeq, written) && disk == Joined(segs) + live && (now > 0 ==> live != [])
    ensures Filed(segs, live, Recovered(disk).nextSeq, now)
  {
    var next := Recovered(disk).nextSeq;
    if live != [] {
      assert Last(disk) == Last(live);
      forall i | 0 <= i < |segs| ensures SegmentOk(segs[i], next, live) && segs[i].num + 1 < next {
        assert SegmentOk(segs[i], nextSeq, live) && live[|live| - 1].seqNo > segs[i].num;
      }
    } else if segs != [] {
      var s := segs[|segs| - 1];
      assert SegmentOk(s, nextSeq, live);
      assert disk == Joined(Init(segs)) + s.records && Last(disk) == Last(s.records);
      forall i | 0 <= i < |segs| ensures SegmentOk(segs[i], next, live) {
        assert SegmentOk(segs[i], nextSeq, live) && segs[i].num <= s.num;
      }
    }
  }

  // ----- the sink

  class Sink {
    const size: Record -> nat
    const limit: Option<nat>
    var rotated: map<string, seq<Record>>
    var live: seq<Record>
    var nextSeq: nat
    var head: Hash
    var written: nat
    ghost var segs: seq<Segment>
    ghost var ops: seq<Op>

    ghost function Disk(): seq<Record> reads this { Joined(segs) + live }

    /** Files and memory are where the operations so far left them. */
    ghost predicate Valid() reads this {
      && (forall r :: size(r) > 0) && nextSeq > 0 && rotated == Files(segs) && Filed(segs, live, nextSeq, written)
      && Chain(Disk(), nextSeq, head) == After(ops)
    }

    constructor (size: Record -> nat, limit: Option<nat>)
      requires forall r :: size(r) > 0
      ensures Valid() && ops == []
    {
      this.size, this.limit := size, limit;
      rotated, live, nextSeq, head, written, segs, ops := map[], [], 1, Genesis, 0, [], [];
    }

    predicate ShouldRotate(next: nat, overdue: bool) reads this {
      written != 0 && ((limit.Some? && written + next > limit.value) || overdue)
    }

    /** Closes the live segment under the number of the last acknowledged record. */
    method Rotate()
      requires Valid() && written > 0
      modifies this`rotated, this`live, this`written, this`segs
      ensures Valid() && live == [] && Disk() == old(Disk())
      ensures written == 0 && |segs| == |old(segs)| + 1
    {
      var name := SegmentName(nextSeq - 1);
      ghost var all := segs + [Segment(nextSeq - 1, live)];
      RotatedFiled(segs, live, nextSeq, written, all);
      if name in rotated { return; }
      rotated := rotated[name := live];
      live, written, segs := [], 0, all;
    }

    /** The live segment is closed before a record that would take it past the limit, or once it is
     *  overdue, and never while it is empty. */
    method RotateIfFull(bytes: nat, overdue: bool)
      requires Valid()
      modifies this`rotated, this`live, this`written, this`segs
      ensures Valid() && Disk() == old(Disk())
      ensures var full := old(written) > 0 && (overdue || (limit.Some? && old(written) + bytes > limit.value));
              if full then written == 0 && live == [] && |segs| == |old(segs)| + 1
              else written == old(written) && live == old(live) && segs == old(segs)
    {
      if ShouldRotate(bytes, overdue) { Rotate(); }
    }

    /** Appends one event, whatever happened to the ones before it; `overdue` is the age
     *  trigger. */
    method Append(event: Event, overdue: bool, write: Write) returns (rec: Option<Record>)
      requires Valid()
      modifies this
      ensures Valid() && ops == old(ops) + [Op.Append(event, write)]
      ensures rec == if write.Synced? then Some(NewRecord(After(old(ops)), event)) else None
      ensures var bytes := size(NewRecord(After(old(ops)), event));
              var full := old(written) > 0 && (overdue || (limit.Some? && old(written) + bytes > limit.value));
              && |segs| == |old(segs)| + (if full then 1 else 0)
              && written == (if full then 0 else old(written)) + (if write.Synced? then bytes else 0)
    {
      var r := Record(nextSeq, event, head, Genesis);
      r := r.(hash := ComputeHash(r));
      RotateIfFull(size(r), overdue);
      AppendLine(event, r, write);
      rec := if write.Synced? then Some(r) else None;
    }

    /** The record goes into the segment that is live now. */
    method AppendLine(event: Event, r: Record, write: Write)
      requires Valid() && r == NewRecord(After(ops), event)
      modifies this
      ensures Valid() && ops == old(ops) + [Op.Append(event, write)] && segs == old(segs)
      ensures written == old(written) + (if write.Synced? then size(r) else 0)
    {
      AfterMore(ops, Op.Append(event, write));
      if !write.NothingWritten? { PutLine(r, write); }
      ops := ops + [Op.Append(event, write)];
    }

    /** Write, flush, sync; memory moves on only after the sync. */
    method PutLine(r: Record, write: Write)
      requires size(r) > 0 && Filed(segs, live, nextSeq, written) && r.seqNo == nextSeq && !write.NothingWritten?
      modifies this`live, this`written, this`nextSeq, this`head
      ensures Filed(segs, live, nextSeq, written) && Disk() == old(Disk()) + [r]
      ensures written == old(written) + (if write.Synced? then size(r) else 0)
      ensures if write.Synced? then nextSeq == old(nextSeq) + 1 && head == r.hash
              else nextSeq == old(nextSeq) && head == old(head)
    {
      AppendedFiled(segs, live, nextSeq, written, r, written + size(r));
      ConcatAssoc(Joined(segs), live, [r]);
      live := live + [r];
      if write.Synced? { written, nextSeq, head := written + size(r), nextSeq + 1, r.hash; }
    }

    /** Every record on disk: the segments in name order, then the live one.  Below 10^12 that
     *  is the order they were written in. */
    method ReadAll() returns (rs: seq<Record>)
      requires Valid()
      ensures nextSeq <= Pow10(12) ==> rs == Disk()
    {
      var names := SortedNames(rotated.Keys);
      ghost var orderly := nextSeq <= Pow10(12);
      if orderly { OrderlyNames(segs, live, nextSeq, written, names); }
      rs := [];
      for i := 0 to |names|
        invariant orderly ==> |names| == |segs| && rs == Joined(segs[..i])
      {
        if orderly {
          FileAt(segs, i);
          assert Init(segs[..i + 1]) == segs[..i] && Last(segs[..i + 1]) == segs[i];
        }
        assert names[i] in names;
        rs := rs + rotated[names[i]];
      }
      assert orderly ==> segs[..|names|] == segs;
      rs := rs + live;
    }

    /** Below 10^12 records, verification fails exactly when some write followed a failed sync in
     *  one process. */
    method Verify() returns (broken: Option<nat>)
      requires Valid()
      ensures nextSeq <= Pow10(12) ==> (broken.None? <==> !Retried(ops))
    {
      var rs := ReadAll();
      broken := VerifyRecords(rs);
      IntactIff(ops);
    }

    /** `open_with`: recovers the number and the head from the last record of the trail. */
    method Reopen()
      requires Valid()
      modifies this`nextSeq, this`head, this`written, this`ops
      ensures ops == old(ops) + [Op.Reopen] && (old(nextSeq) <= Pow10(12) ==> Valid())
    {
      var rs := ReadAll();
      var now := Measure(size, live);
      if nextSeq <= Pow10(12) { ReopenedFiled(segs, live, nextSeq, written, rs, now); }
      nextSeq, head := Recover(rs);
      written := now;
      ops := ops + [Op.Reopen];
      assert Init(ops) == old(ops);
    }
  }

  lemma OrderlyNames(segs: seq<Segment>, live: seq<Record>, nextSeq: nat, written: nat, names: seq<string>)
    requires Filed(segs, live, nextSeq, written) && nextSeq <= Pow10(12)
    requires StrictlySorted(names) && forall x :: x in names <==> x in Files(segs)
    ensures names == SegmentNames(segs)
  {
    forall i | 0 <= i < |segs| ensures segs[i].num < Pow10(12) { assert SegmentOk(segs[i], nextSeq, live); }
    ListingIsChainOrder(segs, names);
  }

  /** The next number and the head hash, from the last record read. */
  method Recover(rs: seq<Record>) returns (nextSeq: nat, head: Hash)
    ensures nextSeq == Recovered(rs).nextSeq && head == Recovered(rs).head
  {
    nextSeq, head := 1, Genesis;
    for i := 0 to |rs|
      invariant i == 0 ==> nextSeq == 1 && head == Genesis
      invariant i > 0 ==> nextSeq == rs[i - 1].seqNo + 1 && head == rs[i - 1].hash
    {
      nextSeq, head := rs[i].seqNo + 1, rs[i].hash;
    }
  }

  /** Bytes in the live segment. */
  method Measure(size: Record -> nat, live: seq<Record>) returns (written: nat)
    requires forall r :: size(r) > 0
    ensures written == 0 <==> live == []
  {
    written := 0;
    for i := 0 to |live|
      invariant written == 0 <==> i == 0
    {
      written := written + size(live[i]);
    }
  }
}
