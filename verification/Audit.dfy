/** The audit trail as a hash chain: what verification accepts, and what the head pins down. */
module Audit {
  import opened Basics

  /** What happened, by whom and how it ended: every field of a record the hash covers besides
   *  its place in the chain. */
  datatype Event = Event(ts: string, node: string, principal: string, role: string, session: Option<string>,
                         source: Option<string>, requestId: Option<string>, action: string, target: Option<string>,
                         before: Option<string>, after: Option<string>, outcome: string)

  /** The hash as a free constructor: equal digests come from equal inputs. */
  datatype Hash = Genesis | Digest(seqNo: nat, event: Event, prev: Hash)

  datatype Record = Record(seqNo: nat, event: Event, prev: Hash, hash: Hash)

  function ComputeHash(r: Record): Hash { Digest(r.seqNo, r.event, r.prev) }

  /** The hash the next record must carry as `prev`. */
  function HeadOf(rs: seq<Record>): Hash { if rs == [] then Genesis else Last(rs).hash }

  /** Record i carries the hash of the one before it, its own hash, and the next number. */
  predicate Linked(rs: seq<Record>, i: nat)
    requires i < |rs|
  {
    && rs[i].prev == HeadOf(rs[..i]) && rs[i].hash == ComputeHash(rs[i])
    && (i > 0 ==> rs[i].seqNo == rs[i - 1].seqNo + 1)
  }

  predicate Intact(rs: seq<Record>) { forall i :: 0 <= i < |rs| ==> Linked(rs, i) }

  /** `verify_records`: Ok exactly for an unbroken chain, else the first break. */
  method VerifyRecords(rs: seq<Record>) returns (broken: Option<nat>)
    ensures broken.None? <==> Intact(rs)
    ensures broken.Some? ==> broken.value < |rs| && Intact(rs[..broken.value]) && !Linked(rs, broken.value)
  {
    var prev, expected: Option<nat> := Genesis, None;
    for i := 0 to |rs|
      invariant prev == HeadOf(rs[..i])
      invariant expected == if i == 0 then None else Some(rs[i - 1].seqNo + 1)
      invariant forall j :: 0 <= j < i ==> Linked(rs, j)
    {
      if (expected.Some? && rs[i].seqNo != expected.value) || rs[i].prev != prev || ComputeHash(rs[i]) != rs[i].hash {
        IntactPrefix(rs, i);
        assert !Linked(rs, i);
        return Some(i);
      }
      TakeSnoc(rs, i);
      prev, expected := rs[i].hash, Some(rs[i].seqNo + 1);
    }
    broken := None;
  }

  lemma IntactPrefix(rs: seq<Record>, n: nat)
    requires n <= |rs| && forall j :: 0 <= j < n ==> Linked(rs, j)
    ensures Intact(rs[..n])
  {
    var p := rs[..n];
    forall j | 0 <= j < n ensures Linked(p, j) {
      assert Linked(rs, j);
      assert p[..j] == rs[..j];
    }
  }

  lemma IntactMore(rs: seq<Record>, r: Record)
    ensures Intact(rs + [r]) <==>
            Intact(rs) && r.prev == HeadOf(rs) && r.hash == ComputeHash(r) && (rs != [] ==> r.seqNo == Last(rs).seqNo + 1)
  {
    var all, n := rs + [r], |rs|;
    assert all[..n] == rs;
    assert Linked(all, n) <==> r.prev == HeadOf(rs) && r.hash == ComputeHash(r) && (rs != [] ==> r.seqNo == Last(rs).seqNo + 1);
    forall i | 0 <= i < n ensures Linked(all, i) <==> Linked(rs, i) { assert all[..i] == rs[..i]; }
  }

  // ----- what the head pins down

  /** Two unbroken chains with the same head hash are the same chain. */
  lemma {:induction false} SameHeadSameChain(a: seq<Record>, b: seq<Record>)
    requires Intact(a) && Intact(b) && HeadOf(a) == HeadOf(b)
    ensures a == b
  {
    assert a != [] ==> Linked(a, |a| - 1);
    assert b != [] ==> Linked(b, |b| - 1);
    if a != [] && b != [] {
      InitLast(a);
      InitLast(b);
      IntactMore(Init(a), Last(a));
      IntactMore(Init(b), Last(b));
      SameHeadSameChain(Init(a), Init(b));
    }
  }

  /** Against a known head, anything but the chain itself is detected. */
  lemma TamperingDetected(a: seq<Record>, b: seq<Record>)
    requires Intact(a) && HeadOf(b) == HeadOf(a)
    ensures Intact(b) <==> b == a
  {
    if Intact(b) { SameHeadSameChain(a, b); }
  }

  /** Deleting records is detected by the chain alone unless they are the tail. */
  lemma DeletionDetectedIff(a: seq<Record>, i: nat, j: nat)
    requires Intact(a) && i < j <= |a|
    ensures Intact(a[..i] + a[j..]) <==> j == |a|
  {
    var b := a[..i] + a[j..];
    if j == |a| {
      assert b == a[..i];
      IntactPrefix(a, i);
    } else {
      assert Last(b) == Last(a);
      TamperingDetected(a, b);
      assert |b| < |a|;
    }
  }

  // ----- trails

  /** A chain numbered from one. */
  predicate IsTrail(rs: seq<Record>) { Intact(rs) && (rs != [] ==> rs[0].seqNo == 1) }

  /** The record that would follow a trail. */
  function Chained(trail: seq<Record>, event: Event): Record {
    var prev := HeadOf(trail);
    Record(|trail| + 1, event, prev, Digest(|trail| + 1, event, prev))
  }

  lemma ChainedIs(trail: seq<Record>, event: Event)
    requires IsTrail(trail)
    ensures IsTrail(trail + [Chained(trail, event)])
  {
    IntactMore(trail, Chained(trail, event));
    NumbersCount(trail);
  }

  /** Records are numbered from one. */
  lemma {:induction false} NumbersCount(trail: seq<Record>)
    requires IsTrail(trail)
    ensures trail != [] ==> Last(trail).seqNo == |trail|
  {
    if |trail| > 1 {
      InitLast(trail);
      IntactMore(Init(trail), Last(trail));
      NumbersCount(Init(trail));
    }
  }
}
