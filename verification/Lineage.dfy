/** Exactly-once accounting of flushed data across compactions.
 *
 *  Every flushed file is its own id (its path); a merge output carries the ids of the
 *  files it replaced.  The results here are about commit histories; CatalogProtocol
 *  proves that every history the multi-writer protocol can produce is `WellFormed`.
 */
module Lineage {
  import opened Basics
  import opened Manifest

  type Ids = map<string, set<string>>

  function PathsOf(fs: seq<FileMeta>): set<string> { set f | f in fs :: f.path }

  function IdsOf(lin: Ids, path: string): set<string> {
    if path in lin then lin[path] else {}
  }

  function Sources(lin: Ids, paths: seq<string>): set<string> {
    set p, x | p in paths && x in IdsOf(lin, p) :: x
  }

  function Births(lin: Ids, c: Commit): Ids {
    map p | p in PathsOf(c.addFiles) :: if c.removePaths == [] then {p} else Sources(lin, c.removePaths)
  }

  function Extend(lin: Ids, c: Commit): Ids { lin + Births(lin, c) }

  lemma OldIds(lin: Ids, c: Commit, path: string)
    requires path !in PathsOf(c.addFiles)
    ensures IdsOf(Extend(lin, c), path) == IdsOf(lin, path)
  {
  }

  lemma NewIds(lin: Ids, c: Commit, f: FileMeta)
    requires f in c.addFiles
    ensures IdsOf(Extend(lin, c), f.path) == if c.removePaths == [] then {f.path} else Sources(lin, c.removePaths)
  {
    assert f.path in PathsOf(c.addFiles);
  }

  /** For every path ever committed, the flushed files its rows come from. */
  function Descent(h: seq<Commit>): Ids {
    if h == [] then map[] else Extend(Descent(Init(h)), Last(h))
  }

  /** Everything a flush ever committed. */
  function Flushed(h: seq<Commit>): set<string> {
    if h == [] then {}
    else Flushed(Init(h)) + (if Last(h).removePaths == [] then PathsOf(Last(h).addFiles) else {})
  }

  predicate DistinctPaths(fs: seq<FileMeta>) {
    forall i, j :: 0 <= i < j < |fs| ==> fs[i].path != fs[j].path
  }

  /** File paths are never reused. */
  predicate FreshPaths(lin: Ids, c: Commit) {
    DistinctPaths(c.addFiles) && forall f :: f in c.addFiles ==> f.path !in lin
  }

  /** Replacements go through `commit_replace` and produce one file. */
  predicate Disciplined(c: Commit) {
    c.addFiles != [] && c.removePaths != [] ==> c.fenced && |c.addFiles| == 1
  }

  ghost predicate InTable(files: FileIndex, k: TableKey, path: string) {
    exists f :: f in FilesOf(files, k) && f.path == path
  }

  /** A replacement lands only while every input is a live file of the output's table. */
  ghost predicate InputsLive(files: FileIndex, c: Commit) {
    c.fenced && c.addFiles != [] ==>
      forall p :: p in c.removePaths ==> InTable(files, c.addFiles[0].Key(), p)
  }

  ghost predicate Admissible(files: FileIndex, lin: Ids, c: Commit) {
    FreshPaths(lin, c) && Disciplined(c) && InputsLive(files, c)
  }

  ghost predicate AdmissibleAt(h: seq<Commit>, n: nat)
    requires n < |h|
  {
    Admissible(Fold(h[..n]).files, Descent(h[..n]), h[n])
  }

  /** Every commit was admissible where it landed. */
  ghost predicate WellFormed(h: seq<Commit>) {
    forall n {:trigger AdmissibleAt(h, n)} :: 0 <= n < |h| ==> AdmissibleAt(h, n)
  }

  lemma WellFormedSnoc(h: seq<Commit>, c: Commit)
    ensures WellFormed(h + [c]) <==> WellFormed(h) && Admissible(Fold(h).files, Descent(h), c)
  {
    var h' := h + [c];
    forall n | 0 <= n < |h| ensures AdmissibleAt(h', n) <==> AdmissibleAt(h, n) { assert h'[..n] == h[..n]; }
    assert h'[..|h|] == h;
    assert AdmissibleAt(h', |h|) <==> Admissible(Fold(h).files, Descent(h), c);
  }

  // ----- the invariant

  /** Files listed under a table belong to it and have a recorded descent. */
  ghost predicate Recorded(files: FileIndex, lin: Ids) {
    forall k, f {:trigger f in FilesOf(files, k)} :: f in FilesOf(files, k) ==> f.Key() == k && f.path in lin
  }

  ghost predicate NoDuplicates(files: FileIndex) {
    && (forall k :: DistinctPaths(FilesOf(files, k)))
    && (forall k, k', f, g {:trigger f in FilesOf(files, k), g in FilesOf(files, k')} ::
          f in FilesOf(files, k) && g in FilesOf(files, k') && k != k' ==> f.path != g.path)
  }

  ghost predicate Apart(files: FileIndex, lin: Ids) {
    forall k, k', f, g {:trigger f in FilesOf(files, k), g in FilesOf(files, k')} ::
      f in FilesOf(files, k) && g in FilesOf(files, k') && f.path != g.path ==> IdsOf(lin, f.path) !! IdsOf(lin, g.path)
  }

  /** Ids are paths that were themselves committed. */
  ghost predicate Grounded(lin: Ids) {
    forall p, x {:trigger x in IdsOf(lin, p)} :: x in IdsOf(lin, p) ==> x in lin
  }

  ghost predicate Accounted(files: FileIndex, lin: Ids) {
    Recorded(files, lin) && NoDuplicates(files) && Apart(files, lin) && Grounded(lin)
  }

  lemma {:induction false} WithoutDistinct(fs: seq<FileMeta>, paths: seq<string>)
    requires DistinctPaths(fs)
    ensures DistinctPaths(Without(fs, paths))
  {
    if fs != [] {
      WithoutDistinct(Init(fs), paths);
      var rest := Without(Init(fs), paths);
      assert forall i :: 0 <= i < |rest| ==> rest[i] in rest;
      assert forall f :: f in Init(fs) ==> f.path != Last(fs).path;
    }
  }

  lemma {:induction false} SelectDistinct(fs: seq<FileMeta>, k: TableKey)
    requires DistinctPaths(fs)
    ensures DistinctPaths(Select(fs, k))
  {
    if fs != [] {
      SelectDistinct(Init(fs), k);
      var rest := Select(Init(fs), k);
      assert forall i :: 0 <= i < |rest| ==> rest[i] in rest;
      assert forall f :: f in Init(fs) ==> f.path != Last(fs).path;
    }
  }

  /** The file index before and after a commit, table by table. */
  ghost predicate Moves(was: FileIndex, now: FileIndex, c: Commit) {
    forall k :: FilesOf(now, k) ==
                if k in c.dropTables then [] else Without(FilesOf(was, k), c.removePaths) + Select(c.addFiles, k)
  }

  /** The same, as membership. */
  ghost predicate Shifts(was: FileIndex, now: FileIndex, c: Commit) {
    forall k, f {:trigger f in FilesOf(now, k)} {:trigger f in FilesOf(was, k)} :: f in FilesOf(now, k) <==>
      k !in c.dropTables &&
      ((f in FilesOf(was, k) && f.path !in c.removePaths) || (f in c.addFiles && f.Key() == k))
  }

  lemma MovesShifts(was: FileIndex, now: FileIndex, c: Commit)
    requires Moves(was, now, c)
    ensures Shifts(was, now, c)
  {
  }

  lemma FoldMoves(h: seq<Commit>, c: Commit)
    ensures Moves(Fold(h).files, Fold(h + [c]).files, c)
  {
    FoldSnoc(h, c);
    forall k { ApplyAt(Fold(h), EntryOf(c, |h| + 1), k); }
  }

  lemma DescentSnoc(h: seq<Commit>, c: Commit)
    ensures Descent(h + [c]) == Extend(Descent(h), c)
  {
    assert Init(h + [c]) == h;
  }

  lemma FoldShifts(h: seq<Commit>, c: Commit)
    ensures Shifts(Fold(h).files, Fold(h + [c]).files, c)
    ensures Descent(h + [c]) == Extend(Descent(h), c)
    ensures WellFormed(h + [c]) <==> WellFormed(h) && Admissible(Fold(h).files, Descent(h), c)
  {
    FoldMoves(h, c);
    MovesShifts(Fold(h).files, Fold(h + [c]).files, c);
    DescentSnoc(h, c);
    WellFormedSnoc(h, c);
  }

  lemma MoveRecorded(was: FileIndex, now: FileIndex, lin: Ids, c: Commit)
    requires Shifts(was, now, c) && Recorded(was, lin) && Grounded(lin)
    ensures Recorded(now, Extend(lin, c)) && Grounded(Extend(lin, c))
  {
    var lin' := Extend(lin, c);
    forall p, x | x in IdsOf(lin', p) ensures x in lin' {
      if p in Births(lin, c) && c.removePaths != [] {
        var q :| q in c.removePaths && x in IdsOf(lin, q);
      } else if p !in Births(lin, c) {
        assert x in IdsOf(lin, p);
      }
    }
  }

  lemma MoveDistinct(was: FileIndex, now: FileIndex, lin: Ids, c: Commit, k: TableKey)
    requires Moves(was, now, c) && FreshPaths(lin, c) && Recorded(was, lin) && DistinctPaths(FilesOf(was, k))
    ensures DistinctPaths(FilesOf(now, k))
  {
    var kept, added := Without(FilesOf(was, k), c.removePaths), Select(c.addFiles, k);
    WithoutDistinct(FilesOf(was, k), c.removePaths);
    SelectDistinct(c.addFiles, k);
    assert forall i :: 0 <= i < |kept| ==> kept[i] in kept && kept[i] in FilesOf(was, k);
    assert forall i :: 0 <= i < |added| ==> added[i] in added && added[i] in c.addFiles;
  }

  lemma MoveNoDuplicates(was: FileIndex, now: FileIndex, lin: Ids, c: Commit)
    requires Moves(was, now, c) && Shifts(was, now, c) && FreshPaths(lin, c) && Recorded(was, lin) && NoDuplicates(was)
    ensures NoDuplicates(now)
  {
    forall k { MoveDistinct(was, now, lin, c, k); }
    forall k, k', f, g | f in FilesOf(now, k) && g in FilesOf(now, k') && k != k' ensures f.path != g.path {
      DistinctMembers(c.addFiles, f, g);
    }
  }

  lemma DistinctMembers(fs: seq<FileMeta>, f: FileMeta, g: FileMeta)
    requires DistinctPaths(fs)
    ensures f in fs && g in fs && f.path == g.path ==> f == g
  {
  }

  /** A surviving file shares no id with an input that is being replaced. */
  lemma SurvivorMissesInputs(files: FileIndex, lin: Ids, k: TableKey, g: FileMeta, inputs: seq<string>, k0: TableKey)
    requires Apart(files, lin) && g in FilesOf(files, k) && g.path !in inputs
    requires forall p :: p in inputs ==> InTable(files, k0, p)
    ensures IdsOf(lin, g.path) !! Sources(lin, inputs)
  {
    forall p, x | p in inputs && x in IdsOf(lin, p) ensures x !in IdsOf(lin, g.path) {
      var f :| f in FilesOf(files, k0) && f.path == p;
      assert IdsOf(lin, f.path) !! IdsOf(lin, g.path);
    }
  }

  lemma NewMissesSurvivor(was: FileIndex, lin: Ids, c: Commit, f: FileMeta, k: TableKey, g: FileMeta)
    requires Accounted(was, lin) && Admissible(was, lin, c)
    requires f in c.addFiles && g in FilesOf(was, k) && g.path !in c.removePaths
    ensures IdsOf(Extend(lin, c), f.path) !! IdsOf(Extend(lin, c), g.path)
  {
    assert IdsOf(Extend(lin, c), g.path) == IdsOf(lin, g.path);
    if c.removePaths != [] {
      SurvivorMissesInputs(was, lin, k, g, c.removePaths, c.addFiles[0].Key());
    }
  }

  lemma MoveApart(was: FileIndex, now: FileIndex, lin: Ids, c: Commit)
    requires Shifts(was, now, c) && Accounted(was, lin) && Admissible(was, lin, c)
    ensures Apart(now, Extend(lin, c))
  {
    var lin' := Extend(lin, c);
    forall k, k', f, g | f in FilesOf(now, k) && g in FilesOf(now, k') && f.path != g.path
      ensures IdsOf(lin', f.path) !! IdsOf(lin', g.path)
    {
      if f in c.addFiles && g !in c.addFiles {
        NewMissesSurvivor(was, lin, c, f, k', g);
      } else if g in c.addFiles && f !in c.addFiles {
        NewMissesSurvivor(was, lin, c, g, k, f);
      }
    }
  }

  lemma {:induction false} WellFormedIsAccounted(h: seq<Commit>)
    requires WellFormed(h)
    ensures Accounted(Fold(h).files, Descent(h))
  {
    if h != [] {
      var h', c := Init(h), Last(h);
      InitLast(h);
      FoldMoves(h', c);
      FoldShifts(h', c);
      WellFormedIsAccounted(h');
      MoveRecorded(Fold(h').files, Fold(h).files, Descent(h'), c);
      MoveNoDuplicates(Fold(h').files, Fold(h).files, Descent(h'), c);
      MoveApart(Fold(h').files, Fold(h).files, Descent(h'), c);
    }
  }

  // ----- the theorems

  /** No two live files, wherever they are listed, carry the same flushed data. */
  ghost predicate PairwiseDisjoint(files: FileIndex, lin: Ids) {
    forall k, i, k', i' {:trigger FilesOf(files, k)[i], FilesOf(files, k')[i']} ::
      0 <= i < |FilesOf(files, k)| && 0 <= i' < |FilesOf(files, k')| && (k, i) != (k', i') ==>
        IdsOf(lin, FilesOf(files, k)[i].path) !! IdsOf(lin, FilesOf(files, k')[i'].path)
  }

  lemma AccountedIsPairwise(files: FileIndex, lin: Ids)
    requires Accounted(files, lin)
    ensures PairwiseDisjoint(files, lin)
  {
    forall k, i, k', i' | 0 <= i < |FilesOf(files, k)| && 0 <= i' < |FilesOf(files, k')| && (k, i) != (k', i')
      ensures IdsOf(lin, FilesOf(files, k)[i].path) !! IdsOf(lin, FilesOf(files, k')[i'].path)
    {
      var f, g := FilesOf(files, k)[i], FilesOf(files, k')[i'];
      assert f in FilesOf(files, k) && g in FilesOf(files, k');
      if k == k' {
        assert DistinctPaths(FilesOf(files, k));
      }
      assert f.path != g.path;
    }
  }

  lemma ExactlyOnce(h: seq<Commit>)
    requires WellFormed(h)
    ensures PairwiseDisjoint(Fold(h).files, Descent(h))
  {
    WellFormedIsAccounted(h);
    AccountedIsPairwise(Fold(h).files, Descent(h));
  }

  ghost predicate Carries(files: FileIndex, lin: Ids, x: string) {
    exists k, f :: f in FilesOf(files, k) && x in IdsOf(lin, f.path)
  }

  /** A commit that takes files away without replacing them. */
  predicate Discards(c: Commit) {
    c.dropTables != [] || (c.removePaths != [] && c.addFiles == [])
  }

  lemma CarriedOn(was: FileIndex, now: FileIndex, lin: Ids, c: Commit, x: string)
    requires Shifts(was, now, c) && Recorded(was, lin) && FreshPaths(lin, c) && !Discards(c) && Carries(was, lin, x)
    ensures Carries(now, Extend(lin, c), x)
  {
    var k, f :| f in FilesOf(was, k) && x in IdsOf(lin, f.path);
    if f.path !in c.removePaths {
      assert f in FilesOf(now, k);
      assert x in IdsOf(Extend(lin, c), f.path) by { OldIds(lin, c, f.path); }
    } else {
      var out := c.addFiles[0];
      assert out in FilesOf(now, out.Key());
      assert x in IdsOf(Extend(lin, c), out.path) by { NewIds(lin, c, out); }
    }
  }

  lemma NewCarried(was: FileIndex, now: FileIndex, lin: Ids, c: Commit, x: string)
    requires Shifts(was, now, c) && !Discards(c) && c.removePaths == [] && x in PathsOf(c.addFiles)
    ensures Carries(now, Extend(lin, c), x)
  {
    var f :| f in c.addFiles && f.path == x;
    NewIds(lin, c, f);
    assert f in FilesOf(now, f.Key());
  }

  /** Without drops and plain removals, no flushed file is ever lost either. */
  lemma {:induction false} NothingLost(h: seq<Commit>, x: string)
    requires WellFormed(h) && (forall c :: c in h ==> !Discards(c)) && x in Flushed(h)
    ensures Carries(Fold(h).files, Descent(h), x)
  {
    var h', c := Init(h), Last(h);
    InitLast(h);
    assert !Discards(c);
    FoldShifts(h', c);
    if x in Flushed(h') {
      assert forall d :: d in h' ==> d in h;
      NothingLost(h', x);
      WellFormedIsAccounted(h');
      CarriedOn(Fold(h').files, Fold(h).files, Descent(h'), c, x);
    } else {
      NewCarried(Fold(h').files, Fold(h).files, Descent(h'), c, x);
    }
  }

  lemma {:induction false} DescentFromFlushes(h: seq<Commit>, p: string, x: string)
    requires x in IdsOf(Descent(h), p)
    ensures x in Flushed(h)
  {
    var h', c := Init(h), Last(h);
    if p in Births(Descent(h'), c) && c.removePaths != [] {
      var q :| q in c.removePaths && x in IdsOf(Descent(h'), q);
      DescentFromFlushes(h', q, x);
    } else if p !in Births(Descent(h'), c) {
      DescentFromFlushes(h', p, x);
    }
  }

  /** Conservation: the live files carry exactly the flushed data, each id once. */
  lemma Conservation(h: seq<Commit>, x: string)
    requires WellFormed(h) && forall c :: c in h ==> !Discards(c)
    ensures Carries(Fold(h).files, Descent(h), x) <==> x in Flushed(h)
  {
    if x in Flushed(h) {
      NothingLost(h, x);
    }
    if Carries(Fold(h).files, Descent(h), x) {
      var k, f :| f in FilesOf(Fold(h).files, k) && x in IdsOf(Descent(h), f.path);
      DescentFromFlushes(h, f.path, x);
    }
  }

  lemma {:induction false} DescentGrows(h: seq<Commit>, n: nat)
    requires n <= |h|
    ensures Descent(h[..n]).Keys <= Descent(h).Keys
  {
    if n < |h| {
      DescentGrows(Init(h), n);
      InitPrefix(h, n);
    } else {
      assert h[..n] == h;
    }
  }

  lemma WellFormedPrefix(h: seq<Commit>, n: nat)
    requires WellFormed(h) && n <= |h|
    ensures WellFormed(h[..n])
  {
    forall m | 0 <= m < n ensures AdmissibleAt(h[..n], m) {
      assert AdmissibleAt(h, m);
      assert h[..n][..m] == h[..m];
    }
  }

  /** A committed path that is no longer live. */
  ghost predicate Gone(files: FileIndex, lin: Ids, p: string) {
    p in lin && forall k, f {:trigger f in FilesOf(files, k)} :: f in FilesOf(files, k) ==> f.path != p
  }

  lemma GoneOn(h: seq<Commit>, c: Commit, p: string)
    requires WellFormed(h + [c]) && Gone(Fold(h).files, Descent(h), p)
    ensures Gone(Fold(h + [c]).files, Descent(h + [c]), p)
    ensures Avoids(c, p)
  {
    FoldShifts(h, c);
  }

  predicate Avoids(c: Commit, p: string) {
    c.fenced && c.addFiles != [] ==> p !in c.removePaths
  }

  /** Once gone, a path stays gone, so no replacement that names it can ever land. */
  lemma {:induction false} GoneForever(g: seq<Commit>, h: seq<Commit>, p: string)
    requires WellFormed(h) && g <= h && Gone(Fold(g).files, Descent(g), p)
    ensures Gone(Fold(h).files, Descent(h), p)
    ensures forall n :: |g| <= n < |h| ==> Avoids(h[n], p)
  {
    if |g| < |h| {
      InitLast(h);
      WellFormedSnoc(Init(h), Last(h));
      assert g <= Init(h);
      GoneForever(g, Init(h), p);
      GoneOn(Init(h), Last(h), p);
    } else {
      assert g == h;
    }
  }

  /** No live file of the table carries data in `dead`. */
  ghost predicate Purged(files: FileIndex, lin: Ids, k: TableKey, dead: set<string>) {
    forall f :: f in FilesOf(files, k) ==> IdsOf(lin, f.path) !! dead
  }

  lemma DeadStayDead(was: FileIndex, now: FileIndex, lin: Ids, c: Commit, k: TableKey, dead: set<string>)
    requires Shifts(was, now, c) && Recorded(was, lin) && Admissible(was, lin, c) && dead <= lin.Keys
    requires Purged(was, lin, k, dead)
    ensures Purged(now, Extend(lin, c), k, dead)
  {
    forall f | f in FilesOf(now, k) ensures IdsOf(Extend(lin, c), f.path) !! dead {
      if f in c.addFiles {
        NewIds(lin, c, f);
        forall p, x | p in c.removePaths && x in IdsOf(lin, p) ensures x !in dead {
          var g :| g in FilesOf(was, k) && g.path == p;
        }
      } else {
        OldIds(lin, c, f.path);
      }
    }
  }

  lemma DropPurges(was: FileIndex, now: FileIndex, lin: Ids, c: Commit, k: TableKey, dead: set<string>)
    requires Shifts(was, now, c) && k in c.dropTables
    ensures Purged(now, lin, k, dead)
  {
  }

  /** A purged table stays purged along any well-formed continuation. */
  lemma PurgedOn(h: seq<Commit>, c: Commit, k: TableKey, dead: set<string>)
    requires WellFormed(h + [c]) && Purged(Fold(h).files, Descent(h), k, dead) && dead <= Descent(h).Keys
    ensures Purged(Fold(h + [c]).files, Descent(h + [c]), k, dead)
  {
    FoldShifts(h, c);
    WellFormedIsAccounted(h);
    DeadStayDead(Fold(h).files, Fold(h + [c]).files, Descent(h), c, k, dead);
  }

  /** After a drop lands at index d, no later live file of the table carries data
   *  that was committed at or before the drop. */
  lemma {:induction false} NoResurrection(h: seq<Commit>, d: nat, k: TableKey, dead: set<string>)
    requires WellFormed(h) && d < |h| && k in h[d].dropTables && dead == Descent(h[..d + 1]).Keys
    ensures Purged(Fold(h).files, Descent(h), k, dead)
  {
    var h', c := Init(h), Last(h);
    InitLast(h);
    if d < |h'| {
      InitPrefix(h, d + 1);
      WellFormedSnoc(h', c);
      NoResurrection(h', d, k, dead);
      DescentGrows(h', d + 1);
      PurgedOn(h', c, k, dead);
    } else {
      FoldShifts(h', c);
      DropPurges(Fold(h').files, Fold(h).files, Descent(h), c, k, dead);
    }
  }
}
