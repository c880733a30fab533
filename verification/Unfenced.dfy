/** Replacements that bypass the fence: the tombstone rewrite pass swaps a file for its
 *  rewritten copy with a plain `commit`.  Exactly when that is harmless. */
module Unfenced {
  import opened Basics
  import opened Manifest
  import opened Lineage

  /** No live file other than `p` itself carries data of `p`. */
  ghost predicate SoleCarrier(files: FileIndex, lin: Ids, p: string) {
    forall k, g {:trigger g in FilesOf(files, k)} ::
      g in FilesOf(files, k) && g.path != p ==> IdsOf(lin, g.path) !! IdsOf(lin, p)
  }

  predicate IsSwap(c: Commit, p: string, out: FileMeta) {
    c.addFiles == [out] && c.removePaths == [p] && c.dropTables == []
  }

  /** Landing on a history that is otherwise well formed, a swap keeps the accounting exactly
   *  when no other live file carries data of its input. */
  lemma UnfencedSwapIff(h: seq<Commit>, c: Commit, p: string, out: FileMeta)
    requires WellFormed(h) && FreshPaths(Descent(h), c) && p in Descent(h) && IsSwap(c, p, out)
    ensures PairwiseDisjoint(Fold(h + [c]).files, Descent(h + [c])) <==> SoleCarrier(Fold(h).files, Descent(h), p)
  {
    WellFormedIsAccounted(h);
    FoldMoves(h, c);
    FoldShifts(h, c);
    var was, now, lin := Fold(h).files, Fold(h + [c]).files, Descent(h);
    if SoleCarrier(was, lin, p) {
      MoveRecorded(was, now, lin, c);
      MoveNoDuplicates(was, now, lin, c);
      SwapApart(was, now, lin, c, p, out);
      AccountedIsPairwise(now, Extend(lin, c));
    }
    if PairwiseDisjoint(now, Extend(lin, c)) {
      SwapNeedsSoleCarrier(was, now, lin, c, p, out);
    }
  }

  lemma SwapIds(lin: Ids, c: Commit, p: string, out: FileMeta)
    requires IsSwap(c, p, out)
    ensures IdsOf(Extend(lin, c), out.path) == IdsOf(lin, p)
  {
    assert Sources(lin, [p]) == IdsOf(lin, p);
  }

  lemma SwapApart(was: FileIndex, now: FileIndex, lin: Ids, c: Commit, p: string, out: FileMeta)
    requires Shifts(was, now, c) && Accounted(was, lin) && FreshPaths(lin, c) && IsSwap(c, p, out)
    requires SoleCarrier(was, lin, p)
    ensures Apart(now, Extend(lin, c))
  {
    SwapIds(lin, c, p, out);
    forall k, k', f, g | f in FilesOf(now, k) && g in FilesOf(now, k') && f.path != g.path
      ensures IdsOf(Extend(lin, c), f.path) !! IdsOf(Extend(lin, c), g.path)
    {
      if f != out { OldIds(lin, c, f.path); }
      if g != out { OldIds(lin, c, g.path); }
    }
  }

  lemma SwapNeedsSoleCarrier(was: FileIndex, now: FileIndex, lin: Ids, c: Commit, p: string, out: FileMeta)
    requires Shifts(was, now, c) && Accounted(was, lin) && FreshPaths(lin, c) && IsSwap(c, p, out)
    requires PairwiseDisjoint(now, Extend(lin, c))
    ensures SoleCarrier(was, lin, p)
  {
    SwapIds(lin, c, p, out);
    var there := FilesOf(now, out.Key());
    assert out in there;
    var j :| 0 <= j < |there| && there[j] == out;
    forall k, g | g in FilesOf(was, k) && g.path != p ensures IdsOf(lin, g.path) !! IdsOf(lin, p) {
      assert g in FilesOf(now, k);
      var i :| 0 <= i < |FilesOf(now, k)| && FilesOf(now, k)[i] == g;
      assert (k, i) != (out.Key(), j);
      OldIds(lin, c, g.path);
    }
  }

  // ----- what the missing fence would have asked

  ghost predicate Live(files: FileIndex, p: string) { exists k, f :: f in FilesOf(files, k) && f.path == p }

  ghost predicate NoneEmpty(lin: Ids) { forall p :: p in lin ==> lin[p] != {} }

  lemma InputsCarry(files: FileIndex, lin: Ids, c: Commit)
    requires Recorded(files, lin) && NoneEmpty(lin) && Admissible(files, lin, c) && c.addFiles != [] && c.removePaths != []
    ensures Sources(lin, c.removePaths) != {}
  {
    var p := c.removePaths[0];
    assert InTable(files, c.addFiles[0].Key(), p);
    var x :| x in lin[p];
    assert x in IdsOf(lin, p) && p in c.removePaths && x in Sources(lin, c.removePaths);
  }

  lemma NoneEmptyOn(files: FileIndex, lin: Ids, c: Commit)
    requires Recorded(files, lin) && NoneEmpty(lin) && Admissible(files, lin, c)
    ensures NoneEmpty(Extend(lin, c))
  {
    if c.addFiles != [] && c.removePaths != [] { InputsCarry(files, lin, c); }
  }

  /** Every committed path carries some flushed data. */
  lemma {:induction false} CarriesSomething(h: seq<Commit>)
    requires WellFormed(h)
    ensures NoneEmpty(Descent(h))
  {
    if h != [] {
      InitLast(h);
      FoldShifts(Init(h), Last(h));
      CarriesSomething(Init(h));
      WellFormedIsAccounted(Init(h));
      NoneEmptyOn(Fold(Init(h)).files, Descent(Init(h)), Last(h));
    }
  }

  /** A swap of a file that is still listed always keeps the accounting. */
  lemma LiveSwapKeeps(h: seq<Commit>, c: Commit, p: string, out: FileMeta)
    requires WellFormed(h) && FreshPaths(Descent(h), c) && p in Descent(h) && IsSwap(c, p, out) && Live(Fold(h).files, p)
    ensures PairwiseDisjoint(Fold(h + [c]).files, Descent(h + [c]))
  {
    WellFormedIsAccounted(h);
    var k, f :| f in FilesOf(Fold(h).files, k) && f.path == p;
    UnfencedSwapIff(h, c, p, out);
  }

  lemma CarriedElsewhere(h: seq<Commit>, p: string)
    requires WellFormed(h) && (forall c :: c in h ==> !Discards(c)) && p in Descent(h) && !Live(Fold(h).files, p)
    ensures !SoleCarrier(Fold(h).files, Descent(h), p)
  {
    CarriesSomething(h);
    var x :| x in Descent(h)[p];
    DescentFromFlushes(h, p, x);
    NothingLost(h, x);
    var k, g :| g in FilesOf(Fold(h).files, k) && x in IdsOf(Descent(h), g.path);
    assert g.path != p;
  }

  /** While nothing is discarded, an unfenced swap keeps the accounting exactly when its input
   *  is still listed, which is what the fence would have checked. */
  lemma UnfencedSwapLiveIff(h: seq<Commit>, c: Commit, p: string, out: FileMeta)
    requires WellFormed(h) && FreshPaths(Descent(h), c) && p in Descent(h) && IsSwap(c, p, out)
    requires forall d :: d in h ==> !Discards(d)
    ensures PairwiseDisjoint(Fold(h + [c]).files, Descent(h + [c])) <==> Live(Fold(h).files, p)
  {
    if Live(Fold(h).files, p) {
      LiveSwapKeeps(h, c, p, out);
    } else {
      CarriedElsewhere(h, p);
      UnfencedSwapIff(h, c, p, out);
    }
  }

  // ----- swaps after a drop

  predicate AddsTo(c: Commit, k: TableKey, p: string) { exists f :: f in c.addFiles && f.path == p && f.Key() == k }

  /** Some commit added path p to table k. */
  ghost predicate CommittedTo(h: seq<Commit>, k: TableKey, p: string) { exists n :: 0 <= n < |h| && AddsTo(h[n], k, p) }

  lemma CommittedToSnoc(h: seq<Commit>, c: Commit, k: TableKey, p: string)
    ensures CommittedTo(h + [c], k, p) <==> CommittedTo(h, k, p) || AddsTo(c, k, p)
  {
    var all := h + [c];
    if CommittedTo(h, k, p) {
      var n :| 0 <= n < |h| && AddsTo(h[n], k, p);
      assert AddsTo(all[n], k, p);
    }
    if AddsTo(c, k, p) { assert AddsTo(all[|h|], k, p); }
  }

  lemma {:induction false} CommittedIsRecorded(h: seq<Commit>, k: TableKey, p: string)
    requires CommittedTo(h, k, p)
    ensures p in Descent(h)
  {
    InitLast(h);
    CommittedToSnoc(Init(h), Last(h), k, p);
    DescentSnoc(Init(h), Last(h));
    ExtendKeys(Descent(Init(h)), Last(h));
    if CommittedTo(Init(h), k, p) {
      CommittedIsRecorded(Init(h), k, p);
    } else {
      var f :| f in Last(h).addFiles && f.path == p;
      assert p in PathsOf(Last(h).addFiles);
    }
  }

  lemma SourcesMiss(files: FileIndex, lin: Ids, c: Commit, k: TableKey, dead: set<string>)
    requires Purged(files, lin, k, dead) && c.addFiles != [] && c.addFiles[0].Key() == k && Admissible(files, lin, c)
    requires c.removePaths != []
    ensures Sources(lin, c.removePaths) !! dead
  {
    forall p, x | p in c.removePaths && x in IdsOf(lin, p) ensures x !in dead {
      assert InTable(files, k, p);
    }
  }

  /** What is committed to a table after its drop carries nothing the drop covered. */
  lemma {:induction false} AfterDrop(h: seq<Commit>, d: nat, k: TableKey, dead: set<string>, p: string)
    requires WellFormed(h) && d < |h| && k in h[d].dropTables && dead == Descent(h[..d + 1]).Keys
    requires CommittedTo(h, k, p) && p !in dead
    ensures IdsOf(Descent(h), p) !! dead
  {
    var h', c := Init(h), Last(h);
    if d < |h'| {
      InitLast(h);
      InitPrefix(h, d + 1);
      FoldShifts(h', c);
      CommittedToSnoc(h', c, k, p);
      if CommittedTo(h', k, p) {
        AfterDrop(h', d, k, dead, p);
        CommittedIsRecorded(h', k, p);
        OldIds(Descent(h'), c, p);
      } else {
        NoResurrection(h', d, k, dead);
        AddedAfterDrop(Fold(h').files, Descent(h'), c, k, dead, p);
      }
    } else {
      assert h[..d + 1] == h;
      CommittedIsRecorded(h, k, p);
    }
  }

  lemma AddedAfterDrop(files: FileIndex, lin: Ids, c: Commit, k: TableKey, dead: set<string>, p: string)
    requires Admissible(files, lin, c) && Purged(files, lin, k, dead) && AddsTo(c, k, p) && p !in dead
    ensures IdsOf(Extend(lin, c), p) !! dead
  {
    var f :| f in c.addFiles && f.path == p && f.Key() == k;
    NewIds(lin, c, f);
    if c.removePaths != [] { SourcesMiss(files, lin, c, k, dead); }
  }

  /** Ids never change once a path is committed. */
  lemma {:induction false} IdsStay(h: seq<Commit>, n: nat, p: string)
    requires WellFormed(h) && n <= |h| && p in Descent(h[..n])
    ensures IdsOf(Descent(h), p) == IdsOf(Descent(h[..n]), p)
  {
    if n < |h| {
      InitPrefix(h, n);
      InitLast(h);
      FoldShifts(Init(h), Last(h));
      IdsStay(Init(h), n, p);
      DescentGrows(Init(h), n);
      OldIds(Descent(Init(h)), Last(h), p);
    } else {
      assert h[..n] == h;
    }
  }

  /** What was committed by the time of the drop carries only what the drop covered. */
  lemma BeforeDrop(h: seq<Commit>, n: nat, p: string)
    requires WellFormed(h) && n <= |h| && p in Descent(h[..n])
    ensures !(IdsOf(Descent(h), p) !! Descent(h[..n]).Keys)
  {
    WellFormedPrefix(h, n);
    IdsStay(h, n, p);
    CarriesSomething(h[..n]);
    WellFormedIsAccounted(h[..n]);
    var x :| x in Descent(h[..n])[p];
    assert x in IdsOf(Descent(h[..n]), p);
    assert x in Descent(h[..n]);
  }

  lemma SwapPurgedIff(was: FileIndex, now: FileIndex, lin: Ids, c: Commit, p: string, out: FileMeta, dead: set<string>)
    requires Shifts(was, now, c) && Recorded(was, lin) && FreshPaths(lin, c) && IsSwap(c, p, out) && Purged(was, lin, out.Key(), dead)
    ensures Purged(now, Extend(lin, c), out.Key(), dead) <==> IdsOf(lin, p) !! dead
  {
    SwapIds(lin, c, p, out);
    var k := out.Key();
    assert out in FilesOf(now, k);
    if IdsOf(lin, p) !! dead {
      forall f | f in FilesOf(now, k) ensures IdsOf(Extend(lin, c), f.path) !! dead {
        if f != out { OldIds(lin, c, f.path); }
      }
    }
  }

  /** Landing after a drop of its table, an unfenced swap brings dropped data back exactly when
   *  its input was committed by the time the drop landed. */
  lemma UnfencedSwapResurrectsIff(h: seq<Commit>, d: nat, k: TableKey, c: Commit, p: string, out: FileMeta, dead: set<string>)
    requires WellFormed(h) && d < |h| && k in h[d].dropTables && dead == Descent(h[..d + 1]).Keys
    requires FreshPaths(Descent(h), c) && IsSwap(c, p, out) && out.Key() == k && CommittedTo(h, k, p)
    ensures Purged(Fold(h + [c]).files, Descent(h + [c]), k, dead) <==> p !in dead
  {
    NoResurrection(h, d, k, dead);
    WellFormedIsAccounted(h);
    FoldShifts(h, c);
    SwapPurgedIff(Fold(h).files, Fold(h + [c]).files, Descent(h), c, p, out, dead);
    if p in dead { BeforeDrop(h, d + 1, p); } else { AfterDrop(h, d, k, dead, p); }
  }

  // ----- histories in which they go wrong

  function Plain(adds: seq<FileMeta>, removes: seq<string>, fenced: bool): Commit {
    Commit(MANIFEST_FORMAT_VERSION, adds, removes, [], [], [], fenced)
  }

  lemma ExtendKeys(lin: Ids, c: Commit)
    ensures Extend(lin, c).Keys == lin.Keys + PathsOf(c.addFiles)
  {
  }

  lemma FlushedPair(h: seq<Commit>, a: FileMeta, b: FileMeta, c: Commit, h1: seq<Commit>)
    requires WellFormed(h) && a.path !in Descent(h) && b.path !in Descent(h) && h1 == h + [c]
    requires a.path != b.path && a.Key() == b.Key() && c == Plain([a, b], [], false)
    ensures WellFormed(h1)
    ensures a in FilesOf(Fold(h1).files, a.Key()) && b in FilesOf(Fold(h1).files, a.Key())
    ensures a.path in IdsOf(Descent(h1), a.path) && Descent(h1).Keys == Descent(h).Keys + {a.path, b.path}
  {
    FoldShifts(h, c);
    FlushAdmissible(Fold(h).files, Descent(h), a, b, c);
    FlushIds(Descent(h), a, b, c);
  }

  lemma FlushAdmissible(files: FileIndex, lin: Ids, a: FileMeta, b: FileMeta, c: Commit)
    requires a.path !in lin && b.path !in lin && a.path != b.path && c == Plain([a, b], [], false)
    ensures Admissible(files, lin, c) && a in c.addFiles && b in c.addFiles
  {
  }

  lemma FlushIds(lin: Ids, a: FileMeta, b: FileMeta, c: Commit)
    requires c == Plain([a, b], [], false)
    ensures a.path in IdsOf(Extend(lin, c), a.path) && Extend(lin, c).Keys == lin.Keys + {a.path, b.path}
  {
    assert a in c.addFiles;
    NewIds(lin, c, a);
    ExtendKeys(lin, c);
    assert PathsOf([a, b]) == {a.path, b.path};
  }

  lemma MergeAdmissible(files: FileIndex, lin: Ids, a: FileMeta, b: FileMeta, m: FileMeta, c: Commit)
    requires m.path !in lin && a in FilesOf(files, m.Key()) && b in FilesOf(files, m.Key())
    requires c == Plain([m], [a.path, b.path], true)
    ensures Admissible(files, lin, c)
  {
    assert InTable(files, m.Key(), a.path) && InTable(files, m.Key(), b.path);
  }

  lemma MergeIds(lin: Ids, a: FileMeta, b: FileMeta, m: FileMeta, c: Commit)
    requires c == Plain([m], [a.path, b.path], true) && a.path != m.path && a.path in IdsOf(lin, a.path)
    ensures a.path in IdsOf(Extend(lin, c), m.path) && a.path in IdsOf(Extend(lin, c), a.path)
    ensures Extend(lin, c).Keys == lin.Keys + {m.path}
  {
    NewIds(lin, c, m);
    assert a.path in c.removePaths;
    assert PathsOf([m]) == {m.path};
    OldIds(lin, c, a.path);
    ExtendKeys(lin, c);
  }

  /** m is live and carries the data of a, which is no longer live. */
  ghost predicate Merged(h: seq<Commit>, a: FileMeta, m: FileMeta) {
    && WellFormed(h) && m in FilesOf(Fold(h).files, m.Key()) && m.path != a.path && a.path in Descent(h)
    && a.path in IdsOf(Descent(h), a.path) && a.path in IdsOf(Descent(h), m.path)
  }

  lemma MergedPair(h: seq<Commit>, a: FileMeta, b: FileMeta, m: FileMeta, c: Commit, h1: seq<Commit>)
    requires WellFormed(h) && m.path !in Descent(h) && c == Plain([m], [a.path, b.path], true) && h1 == h + [c]
    requires a in FilesOf(Fold(h).files, m.Key()) && b in FilesOf(Fold(h).files, m.Key())
    requires a.path != m.path && a.path in IdsOf(Descent(h), a.path)
    ensures Merged(h1, a, m) && Descent(h1).Keys == Descent(h).Keys + {m.path}
  {
    FoldShifts(h, c);
    MergeAdmissible(Fold(h).files, Descent(h), a, b, m, c);
    MergeIds(Descent(h), a, b, m, c);
  }

  lemma FlushThenMerge(h: seq<Commit>, flush: Commit, merge: Commit, h1: seq<Commit>, h2: seq<Commit>,
                       a: FileMeta, b: FileMeta, m: FileMeta)
    requires WellFormed(h) && a.path !in Descent(h) && b.path !in Descent(h) && m.path !in Descent(h)
    requires a.path != b.path && m.path != a.path && m.path != b.path && a.Key() == b.Key() == m.Key()
    requires flush == Plain([a, b], [], false) && merge == Plain([m], [a.path, b.path], true)
    requires h1 == h + [flush] && h2 == h1 + [merge]
    ensures Merged(h2, a, m) && Descent(h2).Keys == Descent(h).Keys + {a.path, b.path} + {m.path}
  {
    FlushedPair(h, a, b, flush, h1);
    MergedPair(h1, a, b, m, merge, h2);
  }

  /** A lagging rewriter of a merged file a commits its copy t without the fence, and the
   *  rows of a are live twice. */
  lemma UnfencedSwapDuplicates(h: seq<Commit>, a: FileMeta, m: FileMeta, t: FileMeta, swap: Commit)
    requires Merged(h, a, m) && swap == Plain([t], [a.path], false) && t.path !in Descent(h)
    ensures !PairwiseDisjoint(Fold(h + [swap]).files, Descent(h + [swap]))
  {
    UnfencedSwapIff(h, swap, a.path, t);
  }

  function Drop(k: TableKey): Commit { Commit(MANIFEST_FORMAT_VERSION, [], [], [], [], [k], false) }

  /** A rewriter lags behind: it read file a, a's table is dropped, and its plain commit of the
   *  copy t puts the dropped rows back. */
  lemma UnfencedSwapResurrects(h: seq<Commit>, a: FileMeta, t: FileMeta, h1: seq<Commit>, h2: seq<Commit>, swap: Commit)
    requires WellFormed(h) && a.path !in Descent(h) && t.path !in Descent(h) && t.path != a.path && a.Key() == t.Key()
    requires h1 == h + [Plain([a], [], false)] && h2 == h1 + [Drop(a.Key())] && swap == Plain([t], [a.path], false)
    ensures WellFormed(h2) && !Purged(Fold(h2 + [swap]).files, Descent(h2 + [swap]), a.Key(), Descent(h2).Keys)
  {
    var d := |h1|;
    FlushedOne(h, a, h1);
    DroppedNext(h1, a.Key(), h2);
    assert h2[..d + 1] == h2 && h2[d] == Drop(a.Key());
    assert h2[|h|].addFiles == [a] && AddsTo(h2[|h|], a.Key(), a.path);
    UnfencedSwapResurrectsIff(h2, d, a.Key(), swap, a.path, t, Descent(h2).Keys);
  }

  lemma FlushedOne(h: seq<Commit>, a: FileMeta, h1: seq<Commit>)
    requires WellFormed(h) && a.path !in Descent(h) && h1 == h + [Plain([a], [], false)]
    ensures WellFormed(h1) && Descent(h1).Keys == Descent(h).Keys + {a.path}
  {
    var c := Plain([a], [], false);
    OneAdmissible(Fold(h).files, Descent(h), a, c);
    WellFormedSnoc(h, c);
    DescentSnoc(h, c);
  }

  lemma OneAdmissible(files: FileIndex, lin: Ids, a: FileMeta, c: Commit)
    requires a.path !in lin && c == Plain([a], [], false)
    ensures Admissible(files, lin, c) && Extend(lin, c).Keys == lin.Keys + {a.path}
  {
    ExtendKeys(lin, c);
    assert PathsOf([a]) == {a.path};
  }

  lemma DroppedNext(h1: seq<Commit>, k: TableKey, h2: seq<Commit>)
    requires WellFormed(h1) && h2 == h1 + [Drop(k)]
    ensures WellFormed(h2) && Descent(h2).Keys == Descent(h1).Keys
  {
    DropAdmissible(Fold(h1).files, Descent(h1), k, Drop(k));
    WellFormedSnoc(h1, Drop(k));
    DescentSnoc(h1, Drop(k));
  }

  lemma DropAdmissible(files: FileIndex, lin: Ids, k: TableKey, c: Commit)
    requires c == Drop(k)
    ensures Admissible(files, lin, c) && Extend(lin, c).Keys == lin.Keys
  {
    ExtendKeys(lin, c);
    assert PathsOf([]) == {};
  }
}
