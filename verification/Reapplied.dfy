/** Folding an entry in a second time: exactly when that changes nothing. */
module Reapplied {
  import opened Basics
  import opened Manifest

  // ----- files

  lemma WithoutSnoc(a: seq<FileMeta>, x: FileMeta, paths: seq<string>, all: seq<FileMeta>)
    requires all == a + [x]
    ensures Without(all, paths) == Without(a, paths) + (if x.path in paths then [] else [x])
  {
    assert Init(all) == a && Last(all) == x;
  }

  lemma {:induction false} WithoutAppend(a: seq<FileMeta>, b: seq<FileMeta>, paths: seq<string>)
    ensures Without(a + b, paths) == Without(a, paths) + Without(b, paths)
  {
    if b == [] {
      assert a + b == a;
    } else {
      var x, more := Last(b), if Last(b).path in paths then [] else [Last(b)];
      WithoutAppend(a, Init(b), paths);
      InitLast(b);
      ConcatAssoc(a, Init(b), [x]);
      WithoutSnoc(a + Init(b), x, paths, a + b);
      WithoutSnoc(Init(b), x, paths, b);
      ConcatAssoc(Without(a, paths), Without(Init(b), paths), more);
    }
  }

  lemma {:induction false} WithoutTwice(a: seq<FileMeta>, paths: seq<string>)
    ensures Without(Without(a, paths), paths) == Without(a, paths)
  {
    if a != [] {
      WithoutTwice(Init(a), paths);
      var rest := Without(Init(a), paths);
      assert Init(rest + [Last(a)]) == rest;
    }
  }

  lemma EmptyIff<T>(a: seq<T>)
    ensures a == [] <==> forall x :: x !in a
  {
    if a != [] { assert a[0] in a; }
  }

  /** A table's list is the same after a second application exactly when the entry removes
   *  everything it adds to the table. */
  lemma ListSettlesIff(was: seq<FileMeta>, adds: seq<FileMeta>, paths: seq<string>)
    ensures var once := Without(was, paths) + adds;
            Without(once, paths) + adds == once <==> forall f :: f in adds ==> f.path in paths
  {
    var kept, again := Without(was, paths), Without(adds, paths);
    WithoutAppend(kept, adds, paths);
    WithoutTwice(was, paths);
    EmptyIff(again);
    Between(kept, again, adds);
  }

  lemma Between<T>(a: seq<T>, b: seq<T>, c: seq<T>)
    ensures a + b + c == a + c <==> b == []
  {
    assert |a + b + c| == |a + c| + |b|;
    assert b == [] ==> a + b + c == a + c;
  }

  /** Every file the entry adds and leaves standing is one it also removes. */
  predicate FilesSettle(e: ManifestEntry) {
    forall f :: f in e.addFiles && f.Key() !in e.dropTables ==> f.path in e.removePaths
  }

  lemma TableSettlesIff(v: View, e: ManifestEntry, k: TableKey)
    ensures FilesOf(Apply(Apply(v, e), e).files, k) == FilesOf(Apply(v, e).files, k) <==>
            k in e.dropTables || forall f :: f in Select(e.addFiles, k) ==> f.path in e.removePaths
  {
    ApplyAt(v, e, k);
    ApplyAt(Apply(v, e), e, k);
    ListSettlesIff(FilesOf(v.files, k), Select(e.addFiles, k), e.removePaths);
  }

  function KeysOf(adds: seq<FileMeta>): set<TableKey> { set f | f in adds :: f.Key() }

  lemma {:induction false} AddAllKeys(files: FileIndex, adds: seq<FileMeta>)
    ensures AddAll(files, adds).Keys == files.Keys + KeysOf(adds)
  {
    if adds != [] {
      AddAllKeys(files, Init(adds));
      InitLast(adds);
    }
  }

  lemma FilesKeysSettle(v: View, e: ManifestEntry)
    ensures Apply(Apply(v, e), e).files.Keys == Apply(v, e).files.Keys
  {
    AddAllKeys(RemoveAll(v.files, e.removePaths), e.addFiles);
    AddAllKeys(RemoveAll(Apply(v, e).files, e.removePaths), e.addFiles);
  }

  lemma FilesSettleIff(v: View, e: ManifestEntry)
    ensures Apply(Apply(v, e), e).files == Apply(v, e).files <==> FilesSettle(e)
  {
    var once, twice := Apply(v, e).files, Apply(Apply(v, e), e).files;
    FilesKeysSettle(v, e);
    if FilesSettle(e) {
      forall k | k in once ensures twice[k] == once[k] { TableSettlesIff(v, e, k); }
    }
    if twice == once {
      forall f | f in e.addFiles && f.Key() !in e.dropTables ensures f.path in e.removePaths {
        TableSettlesIff(v, e, f.Key());
        assert f in Select(e.addFiles, f.Key());
      }
    }
  }

  // ----- declarations

  lemma {:induction false} DeclareKeys(declared: map<TableKey, TableSchema>, other: map<TableKey, TableSchema>, decls: seq<TableSchema>, k: TableKey)
    ensures k in Declare(declared, decls) <==> k in declared || exists s :: s in decls && s.Key() == k
    ensures (exists s :: s in decls && s.Key() == k) ==>
              k in Declare(declared, decls) && k in Declare(other, decls) && Declare(declared, decls)[k] == Declare(other, decls)[k]
    ensures (forall s :: s in decls ==> s.Key() != k) && k in declared ==> Declare(declared, decls)[k] == declared[k]
    decreases decls
  {
    if decls != [] {
      DeclareKeys(declared, other, Init(decls), k);
      DeclareKeys(other, declared, Init(decls), k);
      InitLast(decls);
      assert Last(decls) in decls;
    }
  }

  /** Declarations are idempotent. */
  lemma DeclaredSettle(v: View, e: ManifestEntry)
    ensures Apply(Apply(v, e), e).declared == Apply(v, e).declared
  {
    var once, twice := Apply(v, e).declared, Apply(Apply(v, e), e).declared;
    forall k ensures k in once <==> k in twice {
      DeclareKeys(v.declared, once, e.schemaDecls, k);
      DeclareKeys(once, v.declared, e.schemaDecls, k);
    }
    forall k | k in once ensures twice[k] == once[k] {
      DeclareKeys(v.declared, once, e.schemaDecls, k);
      DeclareKeys(once, v.declared, e.schemaDecls, k);
    }
  }

  // ----- tombstones

  /** The tombstones of `adds` that recording them after `ts` appends. */
  function News(ts: seq<Tombstone>, adds: seq<Tombstone>): seq<Tombstone> {
    if adds == [] then []
    else
      var t := Last(adds);
      News(ts, Init(adds)) + (if HasId(ts, t.id) || HasId(Init(adds), t.id) then [] else [t])
  }

  lemma {:induction false} AddIsNews(ts: seq<Tombstone>, adds: seq<Tombstone>)
    ensures AddTombstones(ts, adds) == ts + News(ts, adds)
    ensures forall id :: HasId(AddTombstones(ts, adds), id) <==> HasId(ts, id) || HasId(adds, id)
  {
    if adds == [] {
      assert ts + [] == ts;
    } else {
      AddIsNews(ts, Init(adds));
      InitLast(adds);
      ConcatAssoc(ts, News(ts, Init(adds)), [Last(adds)]);
      HasIdMore(Init(adds), Last(adds));
      HasIdMore(AddTombstones(ts, Init(adds)), Last(adds));
    }
  }

  lemma HasIdMore(ts: seq<Tombstone>, t: Tombstone)
    ensures forall id :: HasId(ts + [t], id) <==> HasId(ts, id) || t.id == id
  {
    forall id ensures HasId(ts + [t], id) <==> HasId(ts, id) || t.id == id {
      if HasId(ts, id) {
        var x :| x in ts && x.id == id;
        assert x in ts + [t];
      }
      if t.id == id { assert t in ts + [t]; }
    }
  }

  /** The first of its id in the entry. */
  predicate First(adds: seq<Tombstone>, i: nat) {
    i < |adds| && forall j :: 0 <= j < i ==> adds[j].id != adds[i].id
  }

  lemma FirstInit(adds: seq<Tombstone>, i: nat)
    requires i < |adds|
    ensures i < |adds| - 1 ==> (First(Init(adds), i) <==> First(adds, i))
    ensures i == |adds| - 1 ==> (First(adds, i) <==> !HasId(Init(adds), adds[i].id))
  {
    if i == |adds| - 1 && !First(adds, i) {
      var j :| 0 <= j < i && adds[j].id == adds[i].id;
      assert adds[j] in Init(adds);
    }
  }

  ghost predicate FirstIs(adds: seq<Tombstone>, x: Tombstone) { exists i: nat :: First(adds, i) && adds[i] == x }

  lemma FirstFromInit(adds: seq<Tombstone>, before: seq<Tombstone>, x: Tombstone)
    requires adds != [] && before == Init(adds) && FirstIs(before, x)
    ensures FirstIs(adds, x)
  {
    var i: nat :| First(before, i) && before[i] == x;
    FirstInit(adds, i);
    assert First(adds, i) && adds[i] == x;
  }

  lemma FirstToInit(adds: seq<Tombstone>, before: seq<Tombstone>, x: Tombstone)
    requires adds != [] && before == Init(adds) && FirstIs(adds, x)
    ensures FirstIs(before, x) || (x == Last(adds) && !HasId(before, x.id))
  {
    var i: nat :| First(adds, i) && adds[i] == x;
    FirstInit(adds, i);
    if i < |before| { assert First(before, i) && before[i] == x; }
  }

  lemma LastIsFirst(adds: seq<Tombstone>, before: seq<Tombstone>)
    requires adds != [] && before == Init(adds) && !HasId(before, Last(adds).id)
    ensures FirstIs(adds, Last(adds))
  {
    var n: nat := |adds| - 1;
    FirstInit(adds, n);
    assert First(adds, n) && adds[n] == Last(adds);
  }

  lemma FirstIsInit(adds: seq<Tombstone>, before: seq<Tombstone>, x: Tombstone)
    requires adds != [] && before == Init(adds)
    ensures FirstIs(adds, x) <==> FirstIs(before, x) || (x == Last(adds) && !HasId(before, x.id))
  {
    if FirstIs(before, x) { FirstFromInit(adds, before, x); }
    if FirstIs(adds, x) { FirstToInit(adds, before, x); }
    if !HasId(before, Last(adds).id) { LastIsFirst(adds, before); }
  }

  lemma {:induction false} NewsAre(ts: seq<Tombstone>, adds: seq<Tombstone>, x: Tombstone)
    ensures x in News(ts, adds) <==> FirstIs(adds, x) && !HasId(ts, x.id)
  {
    if adds != [] {
      NewsAre(ts, Init(adds), x);
      FirstIsInit(adds, Init(adds), x);
    }
  }

  lemma DropTombstonesSnoc(a: seq<Tombstone>, x: Tombstone, drops: seq<TableKey>, all: seq<Tombstone>)
    requires all == a + [x]
    ensures DropTombstones(all, drops) == DropTombstones(a, drops) + (if x.Key() in drops then [] else [x])
  {
    assert Init(all) == a && Last(all) == x;
  }

  lemma {:induction false} DropAppend(a: seq<Tombstone>, b: seq<Tombstone>, drops: seq<TableKey>)
    ensures DropTombstones(a + b, drops) == DropTombstones(a, drops) + DropTombstones(b, drops)
  {
    if b == [] {
      assert a + b == a;
    } else {
      var x, more := Last(b), if Last(b).Key() in drops then [] else [Last(b)];
      DropAppend(a, Init(b), drops);
      InitLast(b);
      ConcatAssoc(a, Init(b), [x]);
      DropTombstonesSnoc(a + Init(b), x, drops, a + b);
      DropTombstonesSnoc(Init(b), x, drops, b);
      ConcatAssoc(DropTombstones(a, drops), DropTombstones(Init(b), drops), more);
    }
  }

  lemma {:induction false} DropTwice(a: seq<Tombstone>, drops: seq<TableKey>)
    ensures DropTombstones(DropTombstones(a, drops), drops) == DropTombstones(a, drops)
  {
    if a != [] {
      DropTwice(Init(a), drops);
      var rest := DropTombstones(Init(a), drops);
      assert Init(rest + [Last(a)]) == rest;
    }
  }

  /** An id that a dropped table's tombstone held, and that the entry gives to another table. */
  ghost predicate IdFreed(ts: seq<Tombstone>, e: ManifestEntry) {
    exists x, u :: FirstIs(e.tombstones, x) && x.Key() !in e.dropTables && u in ts && u.id == x.id && u.Key() in e.dropTables
  }

  lemma KeptIdIff(ts: seq<Tombstone>, e: ManifestEntry, x: Tombstone)
    requires UniqueIds(ts) && FirstIs(e.tombstones, x) && x.Key() !in e.dropTables
    ensures HasId(DropTombstones(AddTombstones(ts, e.tombstones), e.dropTables), x.id) <==>
            forall u :: u in ts && u.id == x.id ==> u.Key() !in e.dropTables
  {
    var all := AddTombstones(ts, e.tombstones);
    AddIsNews(ts, e.tombstones);
    AddTombstonesUnique(ts, e.tombstones);
    NewsAre(ts, e.tombstones, x);
    var kept := DropTombstones(all, e.dropTables);
    if u :| u in ts && u.id == x.id {
      assert u in all;
      assert forall w :: w in all && w.id == x.id ==> w == u;
      assert u.Key() !in e.dropTables ==> u in kept;
    } else {
      assert !HasId(ts, x.id);
      assert x in all && x in kept;
    }
  }

  /** What a second recording adds after `once`. */
  lemma SecondAdds(ts: seq<Tombstone>, e: ManifestEntry, once: seq<Tombstone>, x: Tombstone)
    requires UniqueIds(ts) && once == DropTombstones(AddTombstones(ts, e.tombstones), e.dropTables)
    ensures x in DropTombstones(News(once, e.tombstones), e.dropTables) <==>
            FirstIs(e.tombstones, x) && x.Key() !in e.dropTables && exists u :: u in ts && u.id == x.id && u.Key() in e.dropTables
  {
    NewsAre(once, e.tombstones, x);
    if FirstIs(e.tombstones, x) && x.Key() !in e.dropTables { KeptIdIff(ts, e, x); }
  }

  lemma SecondIs(all: seq<Tombstone>, e: ManifestEntry, once: seq<Tombstone>, more: seq<Tombstone>)
    requires once == DropTombstones(all, e.dropTables) && more == DropTombstones(News(once, e.tombstones), e.dropTables)
    ensures DropTombstones(AddTombstones(once, e.tombstones), e.dropTables) == once + more
    ensures once + more == once <==> more == []
  {
    AddIsNews(once, e.tombstones);
    DropAppend(once, News(once, e.tombstones), e.dropTables);
    DropTwice(all, e.dropTables);
    assert |once + more| == |once| + |more|;
  }

  /** In a replayed view recording the tombstones again changes nothing, unless an id was freed. */
  lemma TombstonesSettleIff(v: View, e: ManifestEntry)
    requires UniqueIds(v.tombstones)
    ensures Apply(Apply(v, e), e).tombstones == Apply(v, e).tombstones <==> !IdFreed(v.tombstones, e)
  {
    var once := DropTombstones(AddTombstones(v.tombstones, e.tombstones), e.dropTables);
    var more := DropTombstones(News(once, e.tombstones), e.dropTables);
    SecondIs(AddTombstones(v.tombstones, e.tombstones), e, once, more);
    EmptyIff(more);
    forall x
      ensures x in more <==> FirstIs(e.tombstones, x) && x.Key() !in e.dropTables &&
                             exists u :: u in v.tombstones && u.id == x.id && u.Key() in e.dropTables
    {
      SecondAdds(v.tombstones, e, once, x);
    }
  }

  // ----- the whole view

  /** Folding an entry in again changes nothing exactly when the entry also removes every file it
   *  adds and frees no tombstone id. */
  lemma ReapplyIff(v: View, e: ManifestEntry)
    requires UniqueIds(v.tombstones)
    ensures Apply(Apply(v, e), e) == Apply(v, e) <==> FilesSettle(e) && !IdFreed(v.tombstones, e)
  {
    FilesSettleIff(v, e);
    DeclaredSettle(v, e);
    TombstonesSettleIff(v, e);
  }

  /** A flush's entry applied twice lists its file twice. */
  lemma FlushTwice(v: View, f: FileMeta, seqNo: nat, e: ManifestEntry)
    requires FilesOf(v.files, f.Key()) == [] && e == EntryOf(Commit(MANIFEST_FORMAT_VERSION, [f], [], [], [], [], false), seqNo)
    ensures FilesOf(Apply(Apply(v, e), e).files, f.Key()) == [f, f]
  {
    OneFile(f);
    ApplyAt(v, e, f.Key());
    assert FilesOf(Apply(v, e).files, f.Key()) == [f];
    ApplyAt(Apply(v, e), e, f.Key());
  }

  lemma OneFile(f: FileMeta)
    ensures Select([f], f.Key()) == [f] && Without([f], []) == [f] && Without([], []) == []
  {
    assert Init([f]) == [];
  }
}
