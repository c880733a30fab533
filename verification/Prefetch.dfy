/** Range reads of one stored object: row groups are fetched in coalesced spans, and reads are
 *  served from them or from the store, always with the object's own bytes. */
module Prefetch {
  import opened Basics
  import opened Sorting

  type Byte = bv8

  type Span = (nat, nat)

  const GAP: nat := 65536
  const CHUNK: nat := 65536

  /** `get_range`: reads on until `len` bytes or the end, so a range that runs past the end
   *  returns the tail. */
  function Range(obj: seq<Byte>, start: nat, len: nat): (r: seq<Byte>)
    ensures |r| <= len
    decreases len
  {
    if len == 0 || start >= |obj| then [] else [obj[start]] + Range(obj, start + 1, len - 1)
  }

  lemma {:induction false} RangeInside(obj: seq<Byte>, start: nat, len: nat)
    requires start + len <= |obj|
    ensures Range(obj, start, len) == obj[start..start + len]
    decreases len
  {
    if len > 0 {
      RangeInside(obj, start + 1, len - 1);
      SliceCons(obj, start, start + len);
    }
  }

  lemma {:induction false} RangePastEnd(obj: seq<Byte>, start: nat, len: nat)
    requires start <= |obj| <= start + len
    ensures Range(obj, start, len) == obj[start..]
    decreases len
  {
    if start < |obj| {
      RangePastEnd(obj, start + 1, len - 1);
      SliceCons(obj, start, |obj|);
    }
  }

  /** The bytes at those offsets that exist. */
  lemma RangeIs(obj: seq<Byte>, start: nat, len: nat)
    ensures Range(obj, start, len) == if start >= |obj| then [] else obj[start..Min(start + len, |obj|)]
  {
    if start + len <= |obj| {
      RangeInside(obj, start, len);
    } else if start <= |obj| {
      RangePastEnd(obj, start, len);
    }
  }

  lemma SliceCons(obj: seq<Byte>, a: nat, b: nat)
    requires a < b <= |obj|
    ensures obj[a..b] == [obj[a]] + obj[a + 1..b]
  {
  }

  lemma RangeSlice(obj: seq<Byte>, start: nat, len: nat, off: nat, n: nat)
    requires off + n <= |Range(obj, start, len)|
    ensures Range(obj, start, len)[off..off + n] == Range(obj, start + off, n)
  {
    RangeIs(obj, start, len);
    if n > 0 {
      SubSlice(obj, start, Min(start + len, |obj|), off, n);
      RangeInside(obj, start + off, n);
    }
  }

  lemma SubSlice(obj: seq<Byte>, a: nat, b: nat, off: nat, n: nat)
    requires a + off + n <= b <= |obj|
    ensures obj[a..b][off..off + n] == obj[a + off..a + off + n]
  {
    var x, y := obj[a..b][off..off + n], obj[a + off..a + off + n];
    forall i | 0 <= i < n ensures x[i] == y[i] { assert x[i] == obj[a..b][off + i]; }
  }

  lemma {:induction false} RangeSplit(obj: seq<Byte>, start: nat, len: nat, first: nat)
    requires first <= len
    ensures |Range(obj, start, first)| <= len
    ensures Range(obj, start, first) + Range(obj, start + |Range(obj, start, first)|, len - |Range(obj, start, first)|)
         == Range(obj, start, len)
    decreases len
  {
    if first > 0 && start < |obj| {
      RangeSplit(obj, start + 1, len - 1, first - 1);
      var a := Range(obj, start + 1, first - 1);
      ConcatAssoc([obj[start]], a, Range(obj, start + 1 + |a|, len - 1 - |a|));
    }
  }

  lemma RangeExact(obj: seq<Byte>, start: nat, len: nat)
    ensures Range(obj, start, |Range(obj, start, len)|) == Range(obj, start, len)
  {
    RangeIs(obj, start, len);
    RangeIs(obj, start, |Range(obj, start, len)|);
  }

  /** Nothing at an offset means nothing beyond it. */
  lemma RangeEmpty(obj: seq<Byte>, start: nat, len: nat, more: nat)
    requires 0 < len <= more
    ensures Range(obj, start, len) == [] <==> Range(obj, start, more) == []
  {
  }

  lemma TakeFrom(buf: seq<Byte>, at: nat, n: nat, rest: seq<Byte>)
    requires at + n <= |buf|
    ensures buf[at..at + n] + (buf[at + n..] + rest) == buf[at..] + rest
  {
  }

  // ----- spans

  /** The span starts where a chunk starts and ends where one ends. */
  predicate Edges(s: Span, chunks: seq<Span>) {
    && (exists i :: 0 <= i < |chunks| && chunks[i].0 == s.0)
    && (exists i :: 0 <= i < |chunks| && chunks[i].0 + chunks[i].1 == s.1)
  }

  /** The bytes a row group's column chunks occupy, each chunk a (start, length). */
  method GroupSpan(chunks: seq<Span>) returns (r: Option<Span>)
    ensures r.Some? ==> r.value.0 < r.value.1
    ensures forall c :: c in chunks && c.1 > 0 ==> r.Some? && r.value.0 <= c.0 && c.0 + c.1 <= r.value.1
    ensures r.Some? ==> Edges(r.value, chunks)
  {
    if chunks == [] { return None; }
    var lo, hi := chunks[0].0, chunks[0].0 + chunks[0].1;
    for i := 1 to |chunks|
      invariant Edges((lo, hi), chunks)
      invariant forall j :: 0 <= j < i ==> lo <= chunks[j].0 && chunks[j].0 + chunks[j].1 <= hi
    {
      var (start, len) := chunks[i];
      if start < lo { lo := start; }
      if start + len > hi { hi := start + len; }
    }
    r := if lo < hi then Some((lo, hi)) else None;
  }

  predicate SpanLess(a: Span, b: Span) { a.0 < b.0 || (a.0 == b.0 && a.1 < b.1) }

  function SortSpans(s: seq<Span>): seq<Span> { StableSort(SpanLess, s) }

  predicate ByStart(s: seq<Span>) { forall i, j :: 0 <= i < j < |s| ==> s[i].0 <= s[j].0 }

  function AnySpan(): Span -> bool { (s: Span) => true }

  lemma SpanLessIsWeak()
    ensures Weak(SpanLess, AnySpan())
  {
  }

  lemma SortSpansIs(s: seq<Span>)
    ensures multiset(SortSpans(s)) == multiset(s) && ByStart(SortSpans(s))
  {
    SpanLessIsWeak();
    SortSorted(SpanLess, AnySpan(), s);
    SortBag(SpanLess, s);
    var t := SortSpans(s);
    forall i, j | 0 <= i < j < |t| ensures t[i].0 <= t[j].0 { assert !SpanLess(t[j], t[i]); }
  }

  /** One coalescing step: bridge a gap of at most GAP, else start a new span. */
  function Join(merged: seq<Span>, s: Span): seq<Span> {
    if merged != [] && s.0 <= Last(merged).1 + GAP
    then Init(merged) + [(Last(merged).0, Max(Last(merged).1, s.1))]
    else merged + [s]
  }

  function Coalesced(spans: seq<Span>): seq<Span> {
    if spans == [] then [] else Join(Coalesced(Init(spans)), Last(spans))
  }

  predicate Proper(s: seq<Span>) { forall i :: 0 <= i < |s| ==> s[i].0 < s[i].1 }

  /** Sorted, and more than GAP apart. */
  predicate Separated(s: seq<Span>) { forall i, j :: 0 <= i < j < |s| ==> s[i].1 + 64 * 1024 < s[j].0 }

  predicate Within(lo: nat, hi: nat, s: seq<Span>) { exists i :: 0 <= i < |s| && s[i].0 <= lo && hi <= s[i].1 }

  function Total(s: seq<Span>): int { if s == [] then 0 else Total(Init(s)) + (Last(s).1 - Last(s).0) }

  lemma TotalSnoc(s: seq<Span>, x: Span)
    ensures Total(s + [x]) == Total(s) + (x.1 - x.0)
  {
    assert Init(s + [x]) == s;
  }

  lemma WithinJoin(merged: seq<Span>, s: Span, x: Span)
    requires Within(x.0, x.1, merged) || x == s
    requires merged != [] ==> Last(merged).0 <= s.0
    ensures Within(x.0, x.1, Join(merged, s))
  {
    var r := Join(merged, s);
    var n := |r| - 1;
    if x == s {
      assert r[n].0 <= x.0 && x.1 <= r[n].1;
    } else {
      var i :| 0 <= i < |merged| && merged[i].0 <= x.0 && x.1 <= merged[i].1;
      assert r[i].0 <= x.0 && x.1 <= r[i].1;
    }
  }

  lemma JoinSeparated(merged: seq<Span>, s: Span)
    requires Proper(merged) && Separated(merged) && s.0 < s.1 && (merged != [] ==> Last(merged).0 <= s.0)
    ensures Proper(Join(merged, s)) && Separated(Join(merged, s)) && Last(Join(merged, s)).0 <= s.0
  {
    var n := |merged| - 1;
    if n >= 0 && s.0 > merged[n].1 + GAP {
      forall i | 0 <= i < |merged| ensures merged[i].1 + GAP < s.0 {
        assert i < n ==> merged[i].1 + GAP < merged[n].0;
      }
    }
  }

  /** Merged spans are sorted and more than GAP apart. */
  lemma {:induction false} CoalescedSeparated(spans: seq<Span>)
    requires ByStart(spans) && Proper(spans)
    ensures Proper(Coalesced(spans)) && Separated(Coalesced(spans))
    ensures spans != [] ==> Coalesced(spans) != [] && Last(Coalesced(spans)).0 <= Last(spans).0
  {
    if spans != [] {
      var n := |spans| - 1;
      CoalescedSeparated(Init(spans));
      assert n > 0 ==> spans[n - 1].0 <= spans[n].0;
      JoinSeparated(Coalesced(Init(spans)), Last(spans));
    }
  }

  /** Every span lies within a merged one. */
  lemma {:induction false} CoalescedCovers(spans: seq<Span>, x: Span)
    requires ByStart(spans) && Proper(spans) && x in spans
    ensures Within(x.0, x.1, Coalesced(spans))
  {
    var n := |spans| - 1;
    CoalescedSeparated(Init(spans));
    assert n > 0 ==> spans[n - 1].0 <= spans[n].0;
    if x in Init(spans) { CoalescedCovers(Init(spans), x); }
    WithinJoin(Coalesced(Init(spans)), Last(spans), x);
  }

  /** At most GAP extra bytes are fetched for each request that coalescing saves. */
  lemma {:induction false} CoalescedTotal(spans: seq<Span>)
    requires Proper(spans)
    ensures |Coalesced(spans)| <= |spans|
    ensures Total(Coalesced(spans)) <= Total(spans) + 64 * 1024 * (|spans| - |Coalesced(spans)|)
  {
    if spans != [] {
      CoalescedTotal(Init(spans));
      JoinTotal(Coalesced(Init(spans)), Last(spans));
    }
  }

  predicate InSome(x: nat, s: seq<Span>) { exists i :: 0 <= i < |s| && s[i].0 <= x < s[i].1 }

  /** Less than GAP past the end of some span. */
  predicate JustPast(x: nat, s: seq<Span>) { exists i :: 0 <= i < |s| && s[i].1 <= x < s[i].1 + GAP }

  lemma InMore(x: nat, s: seq<Span>, more: seq<Span>)
    requires InSome(x, s) || JustPast(x, s)
    ensures InSome(x, s + more) || JustPast(x, s + more)
  {
    var t := s + more;
    if i :| 0 <= i < |s| && s[i].0 <= x < s[i].1 {
      assert t[i].0 <= x < t[i].1;
    } else {
      var i :| 0 <= i < |s| && s[i].1 <= x < s[i].1 + GAP;
      assert t[i].1 <= x < t[i].1 + GAP;
    }
  }

  /** Each merged span ends where some input span ends. */
  predicate EndsTogether(m: Span, s: seq<Span>) { exists i :: 0 <= i < |s| && s[i].1 == m.1 }

  lemma EndsMore(m: Span, s: seq<Span>, x: Span)
    requires EndsTogether(m, s) || m.1 == x.1
    ensures EndsTogether(m, s + [x])
  {
    var t := s + [x];
    if m.1 == x.1 {
      assert t[|s|].1 == m.1;
    } else {
      var i :| 0 <= i < |s| && s[i].1 == m.1;
      assert t[i].1 == m.1;
    }
  }

  /** A fetched byte is a kept group's, or one of a bridged gap. */
  lemma {:induction false} OnlyGapsExtra(spans: seq<Span>, k: nat, x: nat)
    requires k < |Coalesced(spans)| && Coalesced(spans)[k].0 <= x < Coalesced(spans)[k].1
    ensures InSome(x, spans) || JustPast(x, spans)
  {
    var before, s := Init(spans), Last(spans);
    var merged := Coalesced(before);
    InitLast(spans);
    if k < |merged| && x < merged[k].1 {
      OnlyGapsExtra(before, k, x);
      InMore(x, before, [s]);
    } else if s.0 <= x {
      assert spans[|spans| - 1].0 <= x < spans[|spans| - 1].1;
    } else {
      EndsAt(before, k);
      var i :| 0 <= i < |before| && before[i].1 == merged[k].1;
      assert spans[i].1 <= x < spans[i].1 + GAP;
    }
  }

  lemma JoinEnd(merged: seq<Span>, s: Span, k: nat)
    requires k < |Join(merged, s)|
    ensures Join(merged, s)[k].1 == s.1 || (k < |merged| && Join(merged, s)[k].1 == merged[k].1)
  {
  }

  lemma {:induction false} EndsAt(spans: seq<Span>, k: nat)
    requires k < |Coalesced(spans)|
    ensures EndsTogether(Coalesced(spans)[k], spans)
  {
    var merged, m := Coalesced(Init(spans)), Coalesced(spans)[k];
    JoinEnd(merged, Last(spans), k);
    if k < |merged| { EndsAt(Init(spans), k); }
    EndsMore(m, Init(spans), Last(spans));
    InitLast(spans);
  }

  lemma JoinTotal(merged: seq<Span>, s: Span)
    requires s.0 < s.1
    ensures |Join(merged, s)| == |merged| ==> Total(Join(merged, s)) <= Total(merged) + (s.1 - s.0) + GAP
    ensures |Join(merged, s)| != |merged| ==> Total(Join(merged, s)) == Total(merged) + (s.1 - s.0) && |Join(merged, s)| == |merged| + 1
  {
    TotalSnoc(merged, s);
    if merged != [] {
      InitLast(merged);
      TotalSnoc(Init(merged), Last(merged));
      TotalSnoc(Init(merged), (Last(merged).0, Max(Last(merged).1, s.1)));
    }
  }

  method Coalesce(spans: seq<Span>) returns (merged: seq<Span>)
    ensures merged == Coalesced(SortSpans(spans))
  {
    var sorted := SortSpans(spans);
    merged := [];
    for i := 0 to |sorted|
      invariant merged == Coalesced(sorted[..i])
    {
      assert Init(sorted[..i + 1]) == sorted[..i];
      if merged != [] && sorted[i].0 <= Last(merged).1 + GAP {
        merged := Init(merged) + [(Last(merged).0, Max(Last(merged).1, sorted[i].1))];
      } else {
        merged := merged + [sorted[i]];
      }
    }
    assert sorted[..|sorted|] == sorted;
  }

  // ----- the file

  type Block = (nat, seq<Byte>)

  /** A block holds the object's bytes from its start. */
  predicate Genuine(obj: seq<Byte>, b: Block) { b.1 == Range(obj, b.0, |b.1|) }

  predicate Covers(b: Block, start: nat) { b.0 <= start < b.0 + |b.1| }

  /** The first block containing `start`. */
  function Covering(blocks: seq<Block>, start: nat): (r: Option<nat>)
    ensures r.Some? ==> r.value < |blocks| && Covers(blocks[r.value], start)
    ensures r.None? ==> forall i :: 0 <= i < |blocks| ==> !Covers(blocks[i], start)
  {
    if blocks == [] then None
    else if Covers(blocks[0], start) then Some(0)
    else var r := Covering(blocks[1..], start); if r.None? then None else Some(r.value + 1)
  }

  function Fetched(obj: seq<Byte>, merged: seq<Span>): seq<Block> {
    if merged == [] then []
    else
      var m := Last(merged);
      Fetched(obj, Init(merged)) + [(m.0, Range(obj, m.0, if m.0 <= m.1 then m.1 - m.0 else 0))]
  }

  lemma {:induction false} FetchedAt(obj: seq<Byte>, merged: seq<Span>, i: nat)
    requires i < |merged| && Proper(merged)
    ensures |Fetched(obj, merged)| == |merged| && Fetched(obj, merged)[i] == (merged[i].0, Range(obj, merged[i].0, merged[i].1 - merged[i].0))
  {
    var n := |merged| - 1;
    if n > 0 { FetchedAt(obj, Init(merged), if i < n then i else 0); }
  }

  /** The block that serves a chunk's start holds the whole chunk. */
  predicate Serves(blocks: seq<Block>, start: nat, n: nat) {
    var i := Covering(blocks, start);
    i.Some? && start + n <= blocks[i.value].0 + |blocks[i.value].1|
  }

  /** The block of a span: it starts there and runs to the span's end or the object's. */
  predicate BlockOf(obj: seq<Byte>, m: Span, b: Block) {
    b.0 == m.0 && |b.1| == Max(0, Min(m.1, |obj|) - m.0)
  }

  lemma FetchedBlocks(obj: seq<Byte>, merged: seq<Span>)
    requires Proper(merged)
    ensures |Fetched(obj, merged)| == |merged|
    ensures forall i :: 0 <= i < |merged| ==> BlockOf(obj, merged[i], Fetched(obj, merged)[i])
  {
    if merged != [] { FetchedAt(obj, merged, 0); }
    forall i | 0 <= i < |merged| ensures BlockOf(obj, merged[i], Fetched(obj, merged)[i]) {
      FetchedAt(obj, merged, i);
      RangeIs(obj, merged[i].0, merged[i].1 - merged[i].0);
    }
  }

  lemma OnlyOne(merged: seq<Span>, i: nat, j: nat, x: nat)
    requires Separated(merged) && i < |merged| && j < |merged|
    requires merged[i].0 <= x < merged[i].1 && merged[j].0 <= x < merged[j].1
    ensures i == j
  {
  }

  lemma ServedBy(blocks: seq<Block>, i: nat, start: nat, n: nat)
    requires i < |blocks| && Covers(blocks[i], start) && start + n <= blocks[i].0 + |blocks[i].1|
    requires forall j :: 0 <= j < |blocks| && Covers(blocks[j], start) ==> j == i
    ensures Serves(blocks, start, n)
  {
  }

  lemma BlocksServe(obj: seq<Byte>, merged: seq<Span>, blocks: seq<Block>, start: nat, n: nat)
    requires |blocks| == |merged| && forall i :: 0 <= i < |merged| ==> BlockOf(obj, merged[i], blocks[i])
    requires Separated(merged) && n > 0 && start + n <= |obj| && Within(start, start + n, merged)
    ensures Serves(blocks, start, n)
  {
    var i :| 0 <= i < |merged| && merged[i].0 <= start && start + n <= merged[i].1;
    assert BlockOf(obj, merged[i], blocks[i]);
    forall j | 0 <= j < |blocks| && Covers(blocks[j], start) ensures j == i {
      assert BlockOf(obj, merged[j], blocks[j]);
      OnlyOne(merged, i, j, start);
    }
    ServedBy(blocks, i, start, n);
  }

  method Fetch(obj: seq<Byte>, merged: seq<Span>) returns (blocks: seq<Block>)
    requires Proper(merged)
    ensures blocks == Fetched(obj, merged)
  {
    blocks := [];
    for i := 0 to |merged|
      invariant blocks == Fetched(obj, merged[..i])
    {
      assert Init(merged[..i + 1]) == merged[..i];
      var (lo, hi) := merged[i];
      blocks := blocks + [(lo, Range(obj, lo, hi - lo))];
    }
    assert merged[..|merged|] == merged;
  }

  lemma FetchedGenuine(obj: seq<Byte>, merged: seq<Span>)
    requires Proper(merged)
    ensures forall i :: 0 <= i < |Fetched(obj, merged)| ==> Genuine(obj, Fetched(obj, merged)[i])
  {
    forall i | 0 <= i < |Fetched(obj, merged)| ensures Genuine(obj, Fetched(obj, merged)[i]) {
      if merged != [] { FetchedAt(obj, merged, 0); }
      FetchedAt(obj, merged, i);
      RangeExact(obj, merged[i].0, merged[i].1 - merged[i].0);
    }
  }

  predicate StartsBefore(a: Block, b: Block) { a.0 < b.0 }

  lemma SortGenuine(obj: seq<Byte>, blocks: seq<Block>)
    requires forall i :: 0 <= i < |blocks| ==> Genuine(obj, blocks[i])
    ensures forall i :: 0 <= i < |StableSort(StartsBefore, blocks)| ==> Genuine(obj, StableSort(StartsBefore, blocks)[i])
  {
    var t := StableSort(StartsBefore, blocks);
    SortBag(StartsBefore, blocks);
    forall i | 0 <= i < |t| ensures Genuine(obj, t[i]) {
      assert t[i] in t;
      var j :| 0 <= j < |blocks| && blocks[j] == t[i];
    }
  }

  /** What was fetched is in order already. */
  lemma FreshBlocks(obj: seq<Byte>, merged: seq<Span>, blocks: seq<Block>)
    requires Proper(merged) && Separated(merged) && blocks == Fetched(obj, merged)
    ensures StableSort(StartsBefore, blocks) == blocks
  {
    FetchedBlocks(obj, merged);
    forall i, j | 0 <= i < j < |blocks| ensures !StartsBefore(blocks[j], blocks[i]) {
      assert BlockOf(obj, merged[i], blocks[i]) && BlockOf(obj, merged[j], blocks[j]);
      assert merged[i].1 + GAP < merged[j].0;
    }
    SortIdle(StartsBefore, blocks);
  }

  /** Every chunk of the group is served whole. */
  predicate ServesGroup(obj: seq<Byte>, blocks: seq<Block>, chunks: seq<Span>) {
    forall k :: 0 <= k < |chunks| && chunks[k].1 > 0 && chunks[k].0 + chunks[k].1 <= |obj| ==>
      Serves(blocks, chunks[k].0, chunks[k].1)
  }

  lemma GroupServed(obj: seq<Byte>, spans: seq<Span>, merged: seq<Span>, chunks: seq<Span>)
    requires Proper(spans) && HasSpan(chunks, spans) && merged == Coalesced(SortSpans(spans))
    requires Proper(merged) && Separated(merged)
    ensures ServesGroup(obj, Fetched(obj, merged), chunks)
  {
    FetchedBlocks(obj, merged);
    forall k | 0 <= k < |chunks| && chunks[k].1 > 0 && chunks[k].0 + chunks[k].1 <= |obj|
      ensures Serves(Fetched(obj, merged), chunks[k].0, chunks[k].1)
    {
      ChunkCovered(spans, chunks[k].0, chunks[k].0 + chunks[k].1);
      BlocksServe(obj, merged, Fetched(obj, merged), chunks[k].0, chunks[k].1);
    }
  }

  class StoreFile {
    const obj: seq<Byte>
    const len: nat
    var blocks: seq<Block>

    ghost predicate Valid() reads this { forall i :: 0 <= i < |blocks| ==> Genuine(obj, blocks[i]) }

    constructor (obj: seq<Byte>, len: nat)
      ensures Valid() && blocks == [] && this.obj == obj && this.len == len
    {
      this.obj, this.len, blocks := obj, len, [];
    }

    /** Fetches the coalesced spans of the kept groups and nothing else, and files them with
     *  what is already there; on a fresh handle every chunk of theirs is then served whole. */
    method PrefetchRowGroups(groups: seq<seq<Span>>) returns (ghost spans: seq<Span>)
      requires Valid()
      modifies this
      ensures Valid()
      ensures blocks == StableSort(StartsBefore, old(blocks) + Fetched(obj, Coalesced(SortSpans(spans))))
      ensures |spans| <= |groups| && forall i :: 0 <= i < |spans| ==> SpansSome(spans[i], groups)
      ensures old(blocks) == [] ==> blocks == Fetched(obj, Coalesced(SortSpans(spans)))
      ensures old(blocks) == [] ==> forall g :: 0 <= g < |groups| ==> ServesGroup(obj, blocks, groups[g])
    {
      var exact := Spans(groups);
      spans := exact;
      var merged := Coalesce(exact);
      SortProper(spans);
      SortSpansIs(spans);
      CoalescedSeparated(SortSpans(spans));
      var fetched := Fetch(obj, merged);
      FetchedGenuine(obj, merged);
      SortGenuine(obj, blocks + fetched);
      if blocks == [] { FreshBlocks(obj, merged, blocks + fetched); }
      blocks := StableSort(StartsBefore, blocks + fetched);
      if old(blocks) == [] {
        forall g | 0 <= g < |groups| ensures ServesGroup(obj, blocks, groups[g]) { GroupServed(obj, spans, merged, groups[g]); }
      }
    }

    /** Always the object's own range. */
    method GetBytes(start: nat, length: nat) returns (r: seq<Byte>)
      requires Valid()
      ensures r == Range(obj, start, length)
    {
      var i := Covering(blocks, start);
      if i.Some? {
        var (s, b) := blocks[i.value];
        var off := start - s;
        if off + length <= |b| {
          assert Genuine(obj, blocks[i.value]);
          RangeSlice(obj, s, |b|, off, length);
          return b[off..off + length];
        }
      }
      r := Range(obj, start, length);
    }

    /** Reads on from `start`: a prefix of the rest of the file that holds any served chunk
     *  whole, and, away from the blocks, all of it up to the recorded length. */
    method GetRead(start: nat) returns (r: RangeReader)
      requires Valid()
      ensures fresh(r) && r.Valid()
      ensures r.Remaining() == Range(obj, start, |r.Remaining()|)
      ensures forall n :: n > 0 && Serves(blocks, start, n) ==> n <= |r.Remaining()|
      ensures Covering(blocks, start).None? ==> r.Remaining() == Range(obj, start, if start <= len then len - start else 0)
    {
      var i := Covering(blocks, start);
      if i.Some? {
        var (s, b) := blocks[i.value];
        assert Genuine(obj, blocks[i.value]);
        var rest := b[start - s..];
        RangeSlice(obj, s, |b|, start - s, |rest|);
        assert b[start - s..start - s + |rest|] == rest;
        r := new RangeReader.Cursor(obj, rest);
      } else {
        r := new RangeReader(obj, start, len);
        RangeExact(obj, start, if start <= len then len - start else 0);
      }
    }
  }

  /** Sequential reads of the object, fetched a chunk at a time. */
  class RangeReader {
    const obj: seq<Byte>
    var pos: nat
    var end: nat
    var buf: seq<Byte>
    var bufPos: nat

    ghost predicate Valid() reads this { bufPos <= |buf| }

    /** Everything still to be read. */
    ghost function Remaining(): seq<Byte>
      requires Valid()
      reads this
    {
      buf[bufPos..] + Range(obj, pos, if pos <= end then end - pos else 0)
    }

    constructor (obj: seq<Byte>, start: nat, end: nat)
      ensures Valid() && Remaining() == Range(obj, start, if start <= end then end - start else 0)
    {
      this.obj, pos, this.end, buf, bufPos := obj, start, end, [], 0;
    }

    /** A reader over bytes already in memory. */
    constructor Cursor(obj: seq<Byte>, bytes: seq<Byte>)
      ensures Valid() && Remaining() == bytes
    {
      this.obj, pos, end, buf, bufPos := obj, 0, 0, bytes, 0;
    }

    /** Up to `room` bytes: the next ones, and none only at the end. */
    method Read(room: nat) returns (out: seq<Byte>)
      requires Valid()
      modifies this
      ensures Valid() && |out| <= room && out + Remaining() == old(Remaining())
      ensures out == [] ==> room == 0 || old(Remaining()) == []
    {
      if bufPos >= |buf| {
        var more := Refill();
        if !more { return []; }
      }
      var n := Min(room, |buf| - bufPos);
      out := buf[bufPos..bufPos + n];
      TakeFrom(buf, bufPos, n, Range(obj, pos, if pos <= end then end - pos else 0));
      bufPos := bufPos + n;
    }

    /** The next chunk into an empty buffer; false at the end. */
    method Refill() returns (more: bool)
      requires Valid() && bufPos == |buf|
      modifies this
      ensures Valid() && Remaining() == old(Remaining())
      ensures if more then bufPos < |buf| else old(Remaining()) == []
    {
      if pos >= end { return false; }
      var want := Min(CHUNK, end - pos);
      var got := Range(obj, pos, want);
      RangeSplit(obj, pos, end - pos, want);
      RangeEmpty(obj, pos, want, end - pos);
      buf, bufPos := got, 0;
      pos := pos + |got|;
      more := got != [];
    }

    /** Reading until nothing comes back reproduces all that was left. */
    method ReadToEnd(room: nat) returns (all: seq<Byte>)
      requires Valid() && room > 0
      modifies this
      ensures Valid() && all == old(Remaining()) && Remaining() == []
    {
      all := [];
      while true
        invariant Valid() && all + Remaining() == old(Remaining())
        decreases |Remaining()|
      {
        var more := Read(room);
        if more == [] { return; }
        all := all + more;
      }
    }
  }

  // ----- spans of the kept groups

  /** Every chunk of the group lies in a span. */
  predicate HasSpan(chunks: seq<Span>, spans: seq<Span>) {
    forall k :: 0 <= k < |chunks| && chunks[k].1 > 0 ==> Within(chunks[k].0, chunks[k].0 + chunks[k].1, spans)
  }

  lemma WithinMore(lo: nat, hi: nat, s: seq<Span>, y: Span)
    requires Within(lo, hi, s) || (y.0 <= lo && hi <= y.1)
    ensures Within(lo, hi, s + [y])
  {
    var t := s + [y];
    if y.0 <= lo && hi <= y.1 {
      assert t[|s|] == y;
    } else {
      var i :| 0 <= i < |s| && s[i].0 <= lo && hi <= s[i].1;
      assert t[i] == s[i];
    }
  }

  lemma HasSpanMore(chunks: seq<Span>, spans: seq<Span>, y: Span)
    requires HasSpan(chunks, spans) || forall c :: c in chunks && c.1 > 0 ==> y.0 <= c.0 && c.0 + c.1 <= y.1
    ensures HasSpan(chunks, spans + [y])
  {
    forall k | 0 <= k < |chunks| && chunks[k].1 > 0 ensures Within(chunks[k].0, chunks[k].0 + chunks[k].1, spans + [y]) {
      assert chunks[k] in chunks;
      WithinMore(chunks[k].0, chunks[k].0 + chunks[k].1, spans, y);
    }
  }

  /** The span is exactly what some kept group occupies. */
  predicate SpansSome(s: Span, groups: seq<seq<Span>>) { exists g :: 0 <= g < |groups| && Edges(s, groups[g]) }

  method Spans(groups: seq<seq<Span>>) returns (spans: seq<Span>)
    ensures Proper(spans) && forall g :: 0 <= g < |groups| ==> HasSpan(groups[g], spans)
    ensures |spans| <= |groups| && forall i :: 0 <= i < |spans| ==> SpansSome(spans[i], groups)
  {
    spans := [];
    for i := 0 to |groups|
      invariant Proper(spans) && forall g :: 0 <= g < i ==> HasSpan(groups[g], spans)
      invariant |spans| <= i && forall j :: 0 <= j < |spans| ==> SpansSome(spans[j], groups)
    {
      var s := GroupSpan(groups[i]);
      if s.Some? {
        forall g | 0 <= g <= i ensures HasSpan(groups[g], spans + [s.value]) { HasSpanMore(groups[g], spans, s.value); }
        spans := spans + [s.value];
      } else {
        assert HasSpan(groups[i], spans);
      }
    }
  }

  lemma SortProper(spans: seq<Span>)
    requires Proper(spans)
    ensures Proper(SortSpans(spans))
  {
    SortSpansIs(spans);
    var t := SortSpans(spans);
    forall i | 0 <= i < |t| ensures t[i].0 < t[i].1 {
      assert t[i] in multiset(t);
      var j :| 0 <= j < |spans| && spans[j] == t[i];
    }
  }

  lemma ChunkCovered(spans: seq<Span>, lo: nat, hi: nat)
    requires Proper(spans) && Within(lo, hi, spans)
    ensures Within(lo, hi, Coalesced(SortSpans(spans)))
  {
    var i :| 0 <= i < |spans| && spans[i].0 <= lo && hi <= spans[i].1;
    var sorted := SortSpans(spans);
    SortSpansIs(spans);
    SortProper(spans);
    assert spans[i] in multiset(sorted);
    CoalescedCovers(sorted, spans[i]);
    Wider(spans[i].0, spans[i].1, lo, hi, Coalesced(sorted));
  }

  lemma Wider(a: nat, b: nat, lo: nat, hi: nat, s: seq<Span>)
    requires Within(a, b, s) && a <= lo && hi <= b
    ensures Within(lo, hi, s)
  {
  }
}
