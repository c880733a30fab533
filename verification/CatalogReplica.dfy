/** One process's catalog: the imperative code that the protocol's steps abstract.
 *
 *  Other processes act between two accesses to the shared store.  What they do is an
 *  input here: a schedule of commits that land before each conditional put and before
 *  each listing of one `CommitGuarded` call.
 */
module CatalogReplica {
  import opened Basics
  import opened Names
  import opened Manifest
  import CatalogProtocol
  import Records

  // ----- the shared object store

  /** How manifest objects are named by sequence number; the source's is `ManifestPath`. */
  type Naming = nat -> string

  ghost predicate Injective(name: Naming) {
    forall a, b {:trigger name(a), name(b)} :: name(a) == name(b) ==> a == b
  }

  /** `catalog/manifest/` and the number in at least twelve digits. */
  lemma ManifestPathReads(n: nat) returns (d: string)
    ensures ManifestPath(n) == "catalog/manifest/" + d + ".json" && |d| >= 12 && (n < Pow10(12) ==> |d| == 12)
    ensures (forall i :: 0 <= i < |d| ==> IsDigit(d[i])) && DecimalValue(d) == n
  {
    d := NumberedReads("catalog/manifest/", n, 12, ".json");
  }

  lemma ManifestPathInjective()
    ensures Injective(ManifestPath)
  {
    forall a, b | ManifestPath(a) == ManifestPath(b) ensures a == b {
      NumberedInjective("catalog/manifest/", a, b, 12, ".json");
    }
  }

  /** The objects are exactly the log's entries, under their names. */
  ghost predicate Holds(name: Naming, objects: map<string, ManifestEntry>, log: seq<ManifestEntry>) {
    && (forall n {:trigger name(n)} :: 1 <= n <= |log| ==> EntryAt(name, objects, log, n))
    && (forall p :: p in objects ==> Named(name, |log|, p))
  }

  ghost predicate EntryAt(name: Naming, objects: map<string, ManifestEntry>, log: seq<ManifestEntry>, n: nat)
    requires 1 <= n <= |log|
  {
    name(n) in objects && objects[name(n)] == log[n - 1] && log[n - 1].seqNo == n
  }

  ghost predicate Named(name: Naming, count: nat, p: string) {
    exists n {:trigger name(n)} :: 1 <= n <= count && p == name(n)
  }

  lemma NextIsFree(name: Naming, objects: map<string, ManifestEntry>, log: seq<ManifestEntry>)
    requires Injective(name) && Holds(name, objects, log)
    ensures name(|log| + 1) !in objects
    ensures forall n: nat {:trigger name(n)} :: 1 <= n <= |log| ==> name(n) in objects
  {
    assert name(|log| + 1) in objects ==> Named(name, |log|, name(|log| + 1));
    forall n: nat | 1 <= n <= |log| ensures name(n) in objects { assert EntryAt(name, objects, log, n); }
  }

  lemma HoldsNext(name: Naming, objects: map<string, ManifestEntry>, log: seq<ManifestEntry>, e: ManifestEntry,
                  p: string, objects': map<string, ManifestEntry>, log': seq<ManifestEntry>)
    requires Injective(name) && Holds(name, objects, log) && e.seqNo == |log| + 1
    requires p == name(|log| + 1) && objects' == objects[p := e] && log' == log + [e]
    ensures Holds(name, objects', log')
  {
    forall n: nat | 1 <= n <= |log'| ensures EntryAt(name, objects', log', n) {
      if n <= |log| {
        assert EntryAt(name, objects, log, n);
        assert name(n) != p;
      }
    }
    forall q | q in objects' ensures Named(name, |log'|, q) {
      if q in objects {
        assert Named(name, |log|, q);
        var n: nat {:trigger name(n)} :| 1 <= n <= |log| && q == name(n);
        assert 1 <= n <= |log'| && q == name(n);
      } else {
        assert 1 <= |log'| && q == name(|log'|);
      }
    }
  }

  // ----- reading the log in sequence order

  predicate BySeq(es: seq<ManifestEntry>) {
    forall i, j :: 0 <= i < j < |es| ==> es[i].seqNo < es[j].seqNo
  }

  /** `newer.sort_by_key(|(seq, _)| *seq)`, one insertion at a time. */
  function InsertBySeq(es: seq<ManifestEntry>, e: ManifestEntry): (r: seq<ManifestEntry>)
    requires BySeq(es) && forall x :: x in es ==> x.seqNo != e.seqNo
    ensures BySeq(r) && forall x :: x in r <==> x in es || x == e
  {
    if es == [] then [e]
    else if Last(es).seqNo < e.seqNo then es + [e]
    else
      var r := InsertBySeq(Init(es), e);
      assert forall i :: 0 <= i < |r| ==> r[i] in r;
      assert forall x :: x in Init(es) ==> x.seqNo < Last(es).seqNo;
      r + [Last(es)]
  }

  lemma {:induction false} BySeqUnique(a: seq<ManifestEntry>, b: seq<ManifestEntry>)
    requires BySeq(a) && BySeq(b) && forall x :: x in a <==> x in b
    ensures a == b
  {
    assert a != [] ==> Last(a) in a;
    assert b != [] ==> Last(b) in b;
    if a != [] && b != [] {
      LastIsMax(a, Last(b));
      LastIsMax(b, Last(a));
      InitMembers(a);
      InitMembers(b);
      BySeqUnique(Init(a), Init(b));
      InitLast(a);
      InitLast(b);
    }
  }

  lemma LastIsMax(a: seq<ManifestEntry>, x: ManifestEntry)
    requires BySeq(a) && x in a
    ensures x.seqNo < Last(a).seqNo || x == Last(a)
  {
  }

  lemma InitMembers(a: seq<ManifestEntry>)
    requires BySeq(a) && a != []
    ensures forall x :: x in Init(a) <==> x in a && x != Last(a)
  {
  }

  predicate Readable(log: seq<ManifestEntry>) {
    forall e :: e in log ==> e.format <= MANIFEST_FORMAT_VERSION
  }

  class ManifestStore {
    const name: Naming
    var objects: map<string, ManifestEntry>
    var count: nat
    ghost var log: seq<ManifestEntry>

    ghost predicate Valid()
      reads this
    {
      Injective(name) && Holds(name, objects, log) && count == |log|
    }

    constructor (name: Naming)
      requires Injective(name)
      ensures Valid() && log == [] && this.name == name
    {
      this.name := name;
      objects, count, log := map[], 0, [];
    }

    /** Exactly one writer creates an object; the others are told it exists. */
    method PutIfAbsent(path: string, e: ManifestEntry) returns (created: bool)
      requires Valid() && 1 <= e.seqNo <= |log| + 1 && path == name(e.seqNo)
      modifies this
      ensures Valid() && (created <==> e.seqNo == |old(log)| + 1)
      ensures log == if created then old(log) + [e] else old(log)
    {
      NextIsFree(name, objects, log);
      if path in objects {
        created := false;
      } else {
        HoldsNext(name, objects, log, e, path, objects[path := e], log + [e]);
        created, objects, count, log := true, objects[path := e], count + 1, log + [e];
      }
    }

    /** Other writers land these commits, in this order. */
    method Interfere(others: seq<Commit>)
      requires Valid()
      modifies this
      ensures Valid() && log == old(log) + Entries(others, |old(log)|)
    {
      if others != [] {
        Interfere(Init(others));
        var _ := PutIfAbsent(name(count + 1), EntryOf(Last(others), count + 1));
      }
    }

    method List() returns (names: seq<string>)
      requires Valid()
      ensures StrictlySorted(names) && forall p :: p in names <==> p in objects
    {
      names := SortedNames(objects.Keys);
    }

    /** List, read every entry, refuse a newer format, and keep those past `head`. */
    method ReadNewer(head: nat) returns (ok: bool, newer: seq<ManifestEntry>)
      requires Valid() && head <= |log|
      ensures ok <==> Readable(log)
      ensures ok ==> newer == log[head..]
    {
      var names := List();
      ListingIsLog(name, objects, log, names);
      newer := [];
      for i := 0 to |names|
        invariant ReadSoFar(name, objects, log, head, names, i, newer)
      {
        var e := objects[names[i]];
        if e.format > MANIFEST_FORMAT_VERSION {
          assert e in log;
          return false, [];
        }
        ReadStep(name, objects, log, head, names, i, newer);
        if e.seqNo > head {
          newer := InsertBySeq(newer, e);
        }
      }
      ok := true;
      AllRead(name, objects, log, names, newer, head);
    }
  }

  /** After reading the first i listed objects, `newer` has those past `head`, in order. */
  ghost predicate ReadSoFar(name: Naming, objects: map<string, ManifestEntry>, log: seq<ManifestEntry>, head: nat,
                            names: seq<string>, i: nat, newer: seq<ManifestEntry>)
  {
    && i <= |names| && (forall j :: 0 <= j < |names| ==> names[j] in objects)
    && BySeq(newer)
    && (forall j :: 0 <= j < i ==> objects[names[j]].format <= MANIFEST_FORMAT_VERSION)
    && (forall e :: e in newer ==> e in log && e.seqNo > head && Listed(names[..i], name(e.seqNo)))
    && (forall j :: 0 <= j < i && objects[names[j]].seqNo > head ==> objects[names[j]] in newer)
  }

  lemma ReadStep(name: Naming, objects: map<string, ManifestEntry>, log: seq<ManifestEntry>, head: nat,
                 names: seq<string>, i: nat, newer: seq<ManifestEntry>)
    requires Injective(name) && Holds(name, objects, log) && StrictlySorted(names)
    requires forall p :: p in names <==> p in objects
    requires ReadSoFar(name, objects, log, head, names, i, newer) && i < |names|
    requires objects[names[i]].format <= MANIFEST_FORMAT_VERSION
    ensures var e := objects[names[i]];
            if e.seqNo > head then
              (forall x :: x in newer ==> x.seqNo != e.seqNo) &&
              ReadSoFar(name, objects, log, head, names, i + 1, InsertBySeq(newer, e))
            else ReadSoFar(name, objects, log, head, names, i + 1, newer)
  {
    ListingIsLog(name, objects, log, names);
    NotYetListed(names, i);
    ListedMore(names, i);
  }

  predicate Listed(names: seq<string>, p: string) { p in names }

  lemma NotYetListed(names: seq<string>, i: nat)
    requires StrictlySorted(names) && i < |names|
    ensures !Listed(names[..i], names[i])
  {
    LexIrreflexive(names[i]);
  }

  lemma ListedMore(names: seq<string>, i: nat)
    requires i < |names|
    ensures forall p :: Listed(names[..i], p) ==> Listed(names[..i + 1], p)
    ensures Listed(names[..i + 1], names[i])
  {
    TakeSnoc(names, i);
  }

  lemma AllRead(name: Naming, objects: map<string, ManifestEntry>, log: seq<ManifestEntry>,
                names: seq<string>, newer: seq<ManifestEntry>, head: nat)
    requires Injective(name) && Holds(name, objects, log) && (forall p :: p in names <==> p in objects)
    requires head <= |log| && BySeq(newer)
    requires forall j :: 0 <= j < |names| ==> objects[names[j]].format <= MANIFEST_FORMAT_VERSION
    requires forall e :: e in newer ==> e in log && e.seqNo > head
    requires forall j :: 0 <= j < |names| && objects[names[j]].seqNo > head ==> objects[names[j]] in newer
    ensures Readable(log) && newer == log[head..]
  {
    ListingIsLog(name, objects, log, names);
    forall e | e in log ensures e.format <= MANIFEST_FORMAT_VERSION && (e.seqNo > head ==> e in newer) {
      var j :| 0 <= j < |names| && names[j] == name(e.seqNo);
    }
    LogOrder(name, objects, log);
    forall e ensures e in log[head..] <==> e in log && e.seqNo > head {
      SuffixMembers(log, head, e);
    }
    BySeqUnique(newer, log[head..]);
  }

  lemma LogOrder(name: Naming, objects: map<string, ManifestEntry>, log: seq<ManifestEntry>)
    requires Holds(name, objects, log)
    ensures forall i :: 0 <= i < |log| ==> log[i].seqNo == i + 1
  {
    forall i | 0 <= i < |log| ensures log[i].seqNo == i + 1 { assert name(i + 1) in objects; }
  }

  lemma SuffixMembers(log: seq<ManifestEntry>, head: nat, e: ManifestEntry)
    requires head <= |log| && forall i :: 0 <= i < |log| ==> log[i].seqNo == i + 1
    ensures e in log[head..] <==> e in log && e.seqNo > head
  {
    if e in log && e.seqNo > head {
      var i :| 0 <= i < |log| && log[i] == e;
      assert log[head..][i - head] == e;
    }
  }

  /** A listing names the log's entries, each once. */
  lemma ListingIsLog(name: Naming, objects: map<string, ManifestEntry>, log: seq<ManifestEntry>, names: seq<string>)
    requires Injective(name) && Holds(name, objects, log) && forall p :: p in names <==> p in objects
    ensures forall i :: 0 <= i < |names| ==> names[i] in objects && objects[names[i]] in log &&
                                             names[i] == name(objects[names[i]].seqNo)
    ensures forall e :: e in log ==> name(e.seqNo) in names && objects[name(e.seqNo)] == e
  {
    forall i | 0 <= i < |names|
      ensures names[i] in objects && objects[names[i]] in log && names[i] == name(objects[names[i]].seqNo)
    {
      assert names[i] in names;
      assert Named(name, |log|, names[i]);
      var n {:trigger name(n)} :| 1 <= n <= |log| && names[i] == name(n);
      assert log[n - 1] in log;
    }
    forall e | e in log ensures name(e.seqNo) in names && objects[name(e.seqNo)] == e {
      var i :| 0 <= i < |log| && log[i] == e;
      assert name(i + 1) in objects;
    }
  }

  /** The same entries, each once, in some order. */
  ghost predicate SameEntries(listed: seq<ManifestEntry>, log: seq<ManifestEntry>) {
    && (forall e :: e in listed <==> e in log)
    && (forall i, j :: 0 <= i < j < |listed| ==> listed[i].seqNo != listed[j].seqNo)
  }

  /** What a sorted listing reads, object by object. */
  lemma ListedEntries(name: Naming, objects: map<string, ManifestEntry>, log: seq<ManifestEntry>, names: seq<string>)
    returns (listed: seq<ManifestEntry>)
    requires Injective(name) && Holds(name, objects, log) && StrictlySorted(names) && forall p :: p in names <==> p in objects
    ensures |listed| == |names| && forall i :: 0 <= i < |names| ==> names[i] in objects && objects[names[i]] == listed[i]
    ensures SameEntries(listed, log) && forall i :: 0 <= i < |log| ==> log[i].seqNo == i + 1
    ensures name == ManifestPath && |log| < Pow10(12) ==> listed == log
  {
    ListingIsLog(name, objects, log, names);
    LogOrder(name, objects, log);
    listed := seq(|names|, i requires 0 <= i < |names| => objects[names[i]]);
    ListedOnce(name, objects, log, names, listed);
    if name == ManifestPath && |log| < Pow10(12) {
      ManifestInOrderIff(|log|);
      ListingOrderIsLogOrder(name, objects, log, names);
      assert listed == log;
    }
  }

  lemma ListedOnce(name: Naming, objects: map<string, ManifestEntry>, log: seq<ManifestEntry>, names: seq<string>,
                   listed: seq<ManifestEntry>)
    requires StrictlySorted(names) && |listed| == |names|
    requires forall i :: 0 <= i < |names| ==> names[i] in objects && objects[names[i]] == listed[i]
    requires forall i :: 0 <= i < |names| ==> listed[i] in log && names[i] == name(listed[i].seqNo)
    requires forall e :: e in log ==> name(e.seqNo) in names && name(e.seqNo) in objects && objects[name(e.seqNo)] == e
    ensures SameEntries(listed, log)
  {
    forall e | e in log ensures e in listed {
      var i :| 0 <= i < |names| && names[i] == name(e.seqNo);
      assert listed[i] == e;
    }
    forall i, j | 0 <= i < j < |listed| ensures listed[i].seqNo != listed[j].seqNo {
      assert LexLess(names[i], names[j]);
      LexIrreflexive(names[i]);
    }
  }

  /** The largest sequence number, or zero if there is none. */
  function MaxSeq(es: seq<ManifestEntry>): nat { if es == [] then 0 else Max(MaxSeq(Init(es)), Last(es).seqNo) }

  lemma {:induction false} MaxSeqIs(es: seq<ManifestEntry>)
    ensures forall e :: e in es ==> e.seqNo <= MaxSeq(es)
    ensures MaxSeq(es) > 0 ==> exists e :: e in es && e.seqNo == MaxSeq(es)
  {
    if es != [] {
      MaxSeqIs(Init(es));
      InitLast(es);
      assert Last(es) in es && forall e :: e in Init(es) ==> e in es;
    }
  }

  lemma AllListed(log: seq<ManifestEntry>, listed: seq<ManifestEntry>)
    requires SameEntries(listed, log) && forall i :: 0 <= i < |log| ==> log[i].seqNo == i + 1
    ensures MaxSeq(listed) == |log| && (Readable(listed) <==> Readable(log))
  {
    MaxSeqIs(listed);
    if log != [] { assert log[|log| - 1] in log; }
  }

  // ----- facts about the pieces of apply_entry

  lemma {:induction false} WithoutNothing(list: seq<FileMeta>)
    ensures Without(list, []) == list
  {
    if list != [] {
      WithoutNothing(Init(list));
      InitLast(list);
    }
  }

  lemma RemoveNothing(files: FileIndex)
    ensures RemoveAll(files, []) == files
  {
    forall k | k in files { WithoutNothing(files[k]); }
  }

  lemma {:induction false} DropTombstonesTwice(ts: seq<Tombstone>, a: seq<TableKey>, d: TableKey)
    ensures DropTombstones(DropTombstones(ts, a), [d]) == DropTombstones(ts, a + [d])
  {
    if ts != [] {
      DropTombstonesTwice(Init(ts), a, d);
      if Last(ts).Key() !in a {
        var kept := DropTombstones(Init(ts), a);
        assert Init(kept + [Last(ts)]) == kept;
      }
    }
  }

  lemma {:induction false} DropNoTombstones(ts: seq<Tombstone>)
    ensures DropTombstones(ts, []) == ts
  {
    if ts != [] {
      DropNoTombstones(Init(ts));
      InitLast(ts);
    }
  }

  // ----- the replica

  datatype CommitError = Stale(missing: string) | Busy | Unreadable

  class Catalog {
    const store: ManifestStore
    var head: nat
    var files: FileIndex
    var tombstones: seq<Tombstone>
    var declared: map<TableKey, TableSchema>
    var conflicts: nat

    constructor (store: ManifestStore)
      ensures this.store == store && head == 0 && ViewNow() == EMPTY_VIEW && conflicts == 0
    {
      this.store := store;
      head, files, tombstones, declared, conflicts := 0, map[], [], map[], 0;
    }

    function ViewNow(): View
      reads this
    {
      View(files, tombstones, declared)
    }

    method ApplySchemas(decls: seq<TableSchema>)
      modifies this`declared
      ensures declared == Declare(old(declared), decls)
    {
      for i := 0 to |decls|
        invariant declared == Declare(old(declared), decls[..i])
      {
        declared := declared[decls[i].Key() := decls[i]];
        assert Init(decls[..i + 1]) == decls[..i];
      }
      assert decls[..|decls|] == decls;
    }

    method ApplyRemovals(paths: seq<string>)
      modifies this`files
      ensures files == RemoveAll(old(files), paths)
    {
      RemoveNothing(files);
      if paths != [] {
        var todo := files.Keys;
        while todo != {}
          invariant files.Keys == old(files).Keys && todo <= files.Keys
          invariant forall k :: k in files ==>
                      files[k] == if k in todo then old(files)[k] else Without(old(files)[k], paths)
        {
          var k :| k in todo;
          files := files[k := Without(files[k], paths)];
          todo := todo - {k};
        }
      }
    }

    method ApplyAdds(adds: seq<FileMeta>)
      modifies this`files
      ensures files == AddAll(old(files), adds)
    {
      for i := 0 to |adds|
        invariant files == AddAll(old(files), adds[..i])
      {
        var list := if adds[i].Key() in files then files[adds[i].Key()] else [];
        files := files[adds[i].Key() := list + [adds[i]]];
        assert Init(adds[..i + 1]) == adds[..i];
      }
      assert adds[..|adds|] == adds;
    }

    method ApplyTombstones(adds: seq<Tombstone>)
      modifies this`tombstones
      ensures tombstones == AddTombstones(old(tombstones), adds)
    {
      for i := 0 to |adds|
        invariant tombstones == AddTombstones(old(tombstones), adds[..i])
      {
        assert Init(adds[..i + 1]) == adds[..i];
        if !HasId(tombstones, adds[i].id) {
          tombstones := tombstones + [adds[i]];
        }
      }
      assert adds[..|adds|] == adds;
    }

    method ApplyDrops(drops: seq<TableKey>)
      modifies this`files, this`tombstones, this`declared
      ensures files == WithoutKeys(old(files), drops) && declared == WithoutKeys(old(declared), drops)
      ensures tombstones == DropTombstones(old(tombstones), drops)
    {
      DropNoTombstones(tombstones);
      for i := 0 to |drops|
        invariant files == WithoutKeys(old(files), drops[..i]) && declared == WithoutKeys(old(declared), drops[..i])
        invariant tombstones == DropTombstones(old(tombstones), drops[..i])
      {
        TakeSnoc(drops, i);
        DropTombstonesTwice(old(tombstones), drops[..i], drops[i]);
        files, declared := files - {drops[i]}, declared - {drops[i]};
        tombstones := DropTombstones(tombstones, [drops[i]]);
      }
      assert drops[..|drops|] == drops;
    }

    /** `apply_entry`: schemas, removals, additions, tombstones, and drops last. */
    method ApplyEntry(e: ManifestEntry)
      modifies this`files, this`tombstones, this`declared
      ensures ViewNow() == Apply(old(ViewNow()), e)
    {
      ApplySchemas(e.schemaDecls);
      ApplyRemovals(e.removePaths);
      ApplyAdds(e.addFiles);
      ApplyTombstones(e.tombstones);
      ApplyDrops(e.dropTables);
    }

    /** The first named path that is in no table, if any. */
    method FirstAbsent(paths: seq<string>) returns (missing: Option<string>)
      ensures missing.None? <==> forall p :: p in paths ==> HasPath(files, p)
      ensures missing.Some? ==> exists i :: 0 <= i < |paths| && paths[i] == missing.value && !HasPath(files, paths[i])
                                            && forall j :: 0 <= j < i ==> HasPath(files, paths[j])
    {
      for i := 0 to |paths|
        invariant forall j :: 0 <= j < i ==> HasPath(files, paths[j])
      {
        if !HasPath(files, paths[i]) {
          return Some(paths[i]);
        }
      }
      return None;
    }

    /** The view is the fold of the first `head` entries of the log. */
    ghost predicate Valid()
      reads this, store
    {
      store.Valid() && head <= |store.log| && ViewNow() == FoldEntries(EMPTY_VIEW, store.log[..head])
    }

    method ApplyAll(es: seq<ManifestEntry>)
      modifies this`files, this`tombstones, this`declared
      ensures ViewNow() == FoldEntries(old(ViewNow()), es)
    {
      for i := 0 to |es|
        invariant ViewNow() == FoldEntries(old(ViewNow()), es[..i])
      {
        ApplyNext(old(ViewNow()), es, i, es[i]);
      }
      assert es[..|es|] == es;
    }

    method ApplyNext(ghost v: View, ghost es: seq<ManifestEntry>, ghost i: nat, e: ManifestEntry)
      requires i < |es| && e == es[i] && ViewNow() == FoldEntries(v, es[..i])
      modifies this`files, this`tombstones, this`declared
      ensures ViewNow() == FoldEntries(v, es[..i + 1])
    {
      TakeSnoc(es, i);
      FoldLeftAppend(Apply, v, es[..i], [e]);
      ApplyEntry(e);
    }

    /** `catch_up_locked`: fold in everything newer than the head.  Listing or reading
     *  problems surface before anything is applied. */
    method CatchUpLocked() returns (ok: bool)
      requires Valid()
      modifies this`head, this`files, this`tombstones, this`declared
      ensures Valid()
      ensures ok <==> Readable(store.log)
      ensures if ok then head == |store.log| else head == old(head) && ViewNow() == old(ViewNow())
    {
      var newer;
      ok, newer := store.ReadNewer(head);
      if ok {
        FoldLeftSlice(Apply, EMPTY_VIEW, store.log, head, |store.log|);
        assert store.log[head..|store.log|] == store.log[head..];
        ApplyAll(newer);
        head := head + |newer|;
      }
    }

    /** `load`: replay the listing in name order, without sorting it.  Below 10^12 entries that
     *  is the log's own order. */
    method Load() returns (ok: bool, ghost listed: seq<ManifestEntry>)
      requires store.Valid() && head == 0 && ViewNow() == EMPTY_VIEW
      modifies this`head, this`files, this`tombstones, this`declared
      ensures ok <==> Readable(store.log)
      ensures SameEntries(listed, store.log)
      ensures ok ==> ViewNow() == FoldEntries(EMPTY_VIEW, listed) && head == |store.log|
      ensures store.name == ManifestPath && |store.log| < Pow10(12) ==> listed == store.log && (ok ==> Valid())
    {
      var names := store.List();
      listed := ListedEntries(store.name, store.objects, store.log, names);
      ok := Replay(names, listed);
      AllListed(store.log, listed);
      assert store.log[..|store.log|] == store.log;
    }

    /** Applies the listed objects one by one. */
    method Replay(names: seq<string>, ghost listed: seq<ManifestEntry>) returns (ok: bool)
      requires head == 0 && |listed| == |names|
      requires forall i :: 0 <= i < |names| ==> names[i] in store.objects && store.objects[names[i]] == listed[i]
      modifies this`head, this`files, this`tombstones, this`declared
      ensures ok <==> Readable(listed)
      ensures ok ==> ViewNow() == FoldEntries(old(ViewNow()), listed) && head == MaxSeq(listed)
    {
      for i := 0 to |names|
        invariant ViewNow() == FoldEntries(old(ViewNow()), listed[..i]) && head == MaxSeq(listed[..i])
        invariant Readable(listed[..i])
      {
        var e := store.objects[names[i]];
        assert e == listed[i] && e in listed;
        if e.format > MANIFEST_FORMAT_VERSION { return false; }
        assert Init(listed[..i + 1]) == listed[..i] && Last(listed[..i + 1]) == e;
        TakeSnoc(listed, i);
        head := Max(head, e.seqNo);
        ApplyNext(old(ViewNow()), listed, i, e);
      }
      assert listed[..|names|] == listed;
      ok := true;
    }

    method LetOthersLand(others: seq<Commit>)
      requires Valid()
      modifies store
      ensures Valid() && store.log == old(store.log) + Entries(others, |old(store.log)|)
    {
      store.Interfere(others);
      StillCurrent(old(store.log), store.log, head);
    }

    /** The winner advances its head over its own entry and applies it. */
    method Publish(e: ManifestEntry)
      requires Valid() && head < |store.log| && store.log[head] == e
      modifies this`head, this`files, this`tombstones, this`declared
      ensures Valid() && head == old(head) + 1
    {
      TakeSnoc(store.log, head);
      FoldLeftAppend(Apply, EMPTY_VIEW, store.log[..head], [e]);
      head := head + 1;
      ApplyEntry(e);
    }

    method TryPut(c: Commit, beforePut: seq<Commit>) returns (won: bool)
      requires Valid()
      modifies this, store
      ensures Valid() && conflicts == old(conflicts)
      ensures won <==> old(head) == |old(store.log)| && beforePut == []
      ensures won ==> store.log == old(store.log) + [EntryOf(c, head)] && head == |store.log|
      ensures !won ==> store.log == old(store.log) + Entries(beforePut, |old(store.log)|) &&
                       head == old(head) && ViewNow() == old(ViewNow())
    {
      LetOthersLand(beforePut);
      ghost var log := store.log;
      won := store.PutIfAbsent(store.name(head + 1), EntryOf(c, head + 1));
      StillCurrent(log, store.log, head);
      if won {
        EntriesEmpty(old(store.log), beforePut);
        Publish(EntryOf(c, head + 1));
      }
    }

    /** One round of the commit loop: fence, conditional put, and catch-up on a loss. */
    method Attempt(c: Commit, rivals: Rivals) returns (o: Outcome)
      requires Valid()
      modifies this, store
      ensures Valid()
      ensures RoundSpec(c, old(head), old(store.log), rivals, o, head, store.log)
    {
      if c.fenced {
        var missing := FirstAbsent(c.removePaths);
        if missing.Some? { return Refused(missing.value); }
      }
      o := PutRound(c, rivals);
    }

    /** The round past the fence. */
    method PutRound(c: Commit, rivals: Rivals) returns (o: Outcome)
      requires Valid() && FenceAt(c, store.log, head)
      modifies this, store
      ensures Valid() && !o.Refused? && RoundSpec(c, old(head), old(store.log), rivals, o, head, store.log)
    {
      var won := TryPut(c, rivals.beforePut);
      if won { return Landed(head); }
      conflicts := conflicts + 1;
      LetOthersLand(rivals.beforeList);
      MoreLanded(old(store.log), rivals.beforePut, rivals.beforeList);
      var ok := CatchUpLocked();
      o := if ok then LostRace else Broken;
    }
  
    /** `commit_guarded`.  `schedule` is what other writers land, round by round; `foreign`
     *  is what they had landed when the call returned, after `rounds` lost rounds. */
    method CommitGuarded(c: Commit, schedule: seq<Rivals>)
      returns (r: Result<nat, CommitError>, ghost foreign: seq<Commit>, ghost rounds: nat)
      requires Valid() && |schedule| == MAX_COMMIT_ATTEMPTS
      modifies this, store
      ensures Valid()
      ensures store.log == old(store.log) + Entries(foreign, |old(store.log)|) +
                           (if r.Ok? then [EntryOf(c, |store.log|)] else [])
      ensures r.Ok? ==> r.value == head == |store.log|
      ensures r.Ok? ==> FenceVerdict(c, old(store.log) + Entries(foreign, |old(store.log)|))
      ensures r.Err? && r.error.Stale? ==>
                c.fenced && r.error.missing in c.removePaths && !HasPath(files, r.error.missing)
      ensures r.Err? && r.error.Unreadable? ==> !Readable(store.log)
      ensures r == Err(Busy) ==> LosesEvery(schedule, old(head) < |old(store.log)|)
      ensures r.Ok? ==> !LosesEvery(schedule, old(head) < |old(store.log)|)
      ensures r == Err(Busy) ==> foreign == AllRivals(schedule)
      ensures Called(c, schedule, old(head), old(store.log), rounds, r, head, store.log)
      ensures r.Ok? ==> 1 <= r.value <= |store.log| && Records.RecordedAs(store.log[r.value - 1], c, r.value)
      ensures r.Ok? ==> Records.TakesHold(c, r.value, FoldEntries(EMPTY_VIEW, store.log[..r.value - 1]), ViewNow())
    {
      ghost var log0, head0 := store.log, head;
      r, rounds := Rounds(c, schedule, log0, head0);
      foreign := CallMeans(c, schedule, head0, log0, rounds, r, head, store.log);
      if r.Ok? { Records.LandedLast(log0 + Entries(foreign, |log0|), c, store.log, |store.log|); }
    }

    /** The rounds of a call, up to the first that does not lose. */
    method Rounds(c: Commit, schedule: seq<Rivals>, ghost log0: seq<ManifestEntry>, ghost head0: nat)
      returns (r: Result<nat, CommitError>, ghost rounds: nat)
      requires Valid() && |schedule| == MAX_COMMIT_ATTEMPTS && head == head0 && store.log == log0
      modifies this, store
      ensures Valid() && Called(c, schedule, head0, log0, rounds, r, head, store.log)
    {
      NoRounds(log0, schedule);
      for k := 0 to MAX_COMMIT_ATTEMPTS
        invariant Valid() && LostRounds(c, log0, head0, store.log, head, schedule, k)
      {
        var o := Round(c, schedule, k, log0, head0);
        match o {
          case Landed(seqNo) => return Ok(seqNo), k;
          case Refused(missing) => return Err(Stale(missing)), k;
          case Broken => return Err(Unreadable), k;
          case LostRace =>
        }
      }
      return Err(Busy), MAX_COMMIT_ATTEMPTS;
    }

    /** Round k of a call that has lost the rounds before it. */
    method Round(c: Commit, schedule: seq<Rivals>, k: nat, ghost log0: seq<ManifestEntry>, ghost head0: nat) returns (o: Outcome)
      requires Valid() && k < |schedule| && LostRounds(c, log0, head0, store.log, head, schedule, k)
      modifies this, store
      ensures Valid()
      ensures o.LostRace? ==> LostRounds(c, log0, head0, store.log, head, schedule, k + 1)
      ensures !o.LostRace? ==> Called(c, schedule, head0, log0, k, Answer(o), head, store.log)
    {
      ghost var log, at := store.log, head;
      o := Attempt(c, schedule[k]);
      RoundEnds(c, schedule, head0, log0, k, at, log, o, head, store.log);
    }
  }

  function Answer(o: Outcome): Result<nat, CommitError> {
    match o
    case Landed(seqNo) => Ok(seqNo)
    case Refused(missing) => Err(Stale(missing))
    case LostRace => Err(Busy)
    case Broken => Err(Unreadable)
  }

  // ----- what a call does, as a function of what the others do

  function LogAfter(log0: seq<ManifestEntry>, schedule: seq<Rivals>, k: nat): seq<ManifestEntry>
    requires k <= |schedule|
  {
    log0 + Entries(AllRivals(schedule[..k]), |log0|)
  }

  function HeadAfter(log0: seq<ManifestEntry>, head0: nat, schedule: seq<Rivals>, k: nat): nat
    requires k <= |schedule|
  {
    if k == 0 then head0 else |LogAfter(log0, schedule, k)|
  }

  /** Round j passed the fence, and its put found the key taken. */
  ghost predicate LostRound(c: Commit, log0: seq<ManifestEntry>, head0: nat, schedule: seq<Rivals>, j: nat)
    requires j < |schedule|
  {
    LosesAt(schedule, head0 < |log0|, j) && PassesAt(c, log0, head0, schedule, j)
  }

  ghost predicate PassesAt(c: Commit, log0: seq<ManifestEntry>, head0: nat, schedule: seq<Rivals>, j: nat)
    requires j <= |schedule|
  {
    FenceAt(c, LogAfter(log0, schedule, j), HeadAfter(log0, head0, schedule, j))
  }

  /** The state of a call that has lost its first k rounds. */
  ghost predicate LostRounds(c: Commit, log0: seq<ManifestEntry>, head0: nat, log: seq<ManifestEntry>, head: nat,
                             schedule: seq<Rivals>, k: nat)
  {
    && k <= |schedule| && log == LogAfter(log0, schedule, k) && head == HeadAfter(log0, head0, schedule, k)
    && forall j :: 0 <= j < k ==> LostRound(c, log0, head0, schedule, j)
  }

  /** How a call ends that lost `rounds` rounds. */
  ghost predicate Called(c: Commit, schedule: seq<Rivals>, head0: nat, log0: seq<ManifestEntry>, rounds: nat,
                         r: Result<nat, CommitError>, head: nat, log: seq<ManifestEntry>) {
    && rounds <= |schedule| && head <= |log|
    && (forall j :: 0 <= j < rounds ==> LostRound(c, log0, head0, schedule, j))
    && match r
       case Ok(n) =>
         && rounds < |schedule| && !LosesAt(schedule, head0 < |log0|, rounds) && FenceVerdict(c, LogAfter(log0, schedule, rounds))
         && log == LogAfter(log0, schedule, rounds) + [EntryOf(c, n)] && n == head == |log|
       case Err(Stale(p)) =>
         && rounds < |schedule| && log == LogAfter(log0, schedule, rounds) && head == HeadAfter(log0, head0, schedule, rounds)
         && c.fenced && p in c.removePaths && !HasPath(FoldEntries(EMPTY_VIEW, log[..head]).files, p)
       case Err(Busy) =>
         rounds == |schedule| && log == LogAfter(log0, schedule, rounds) && head == HeadAfter(log0, head0, schedule, rounds)
       case Err(Unreadable) =>
         && rounds < |schedule| && LostRound(c, log0, head0, schedule, rounds) && !Readable(log)
         && log == LogAfter(log0, schedule, rounds + 1) && head == HeadAfter(log0, head0, schedule, rounds)
  }

  lemma NoRounds(log0: seq<ManifestEntry>, schedule: seq<Rivals>)
    ensures LogAfter(log0, schedule, 0) == log0
  {
    EntriesEmpty(log0, []);
  }

  lemma OneMoreRound(log0: seq<ManifestEntry>, schedule: seq<Rivals>, k: nat)
    requires k < |schedule|
    ensures var log := LogAfter(log0, schedule, k); LogAfter(log0, schedule, k + 1) == log + Entries(schedule[k].All(), |log|)
  {
    MoreLanded(log0, AllRivals(schedule[..k]), schedule[k].All());
    TakeSnoc(schedule, k);
    AllRivalsSnoc(schedule[..k], schedule[k]);
  }

  lemma LostMeans(log0: seq<ManifestEntry>, head0: nat, schedule: seq<Rivals>, k: nat, log: seq<ManifestEntry>, head: nat)
    requires k < |schedule| && log == LogAfter(log0, schedule, k) && head == HeadAfter(log0, head0, schedule, k)
    ensures Lost(head, |log|, schedule[k]) <==> LosesAt(schedule, head0 < |log0|, k)
  {
    if k == 0 { NoRounds(log0, schedule); }
  }

  lemma RoundEnds(c: Commit, schedule: seq<Rivals>, head0: nat, log0: seq<ManifestEntry>, k: nat,
                  head: nat, log: seq<ManifestEntry>, o: Outcome, head': nat, log': seq<ManifestEntry>)
    requires k < |schedule| && LostRounds(c, log0, head0, log, head, schedule, k) && head <= |log|
    requires RoundSpec(c, head, log, schedule[k], o, head', log')
    ensures o.LostRace? ==> LostRounds(c, log0, head0, log', head', schedule, k + 1)
    ensures !o.LostRace? ==> Called(c, schedule, head0, log0, k, Answer(o), head', log')
  {
    LostMeans(log0, head0, schedule, k, log, head);
    match o
    case Landed(_) => assert log[..|log|] == log;
    case Refused(_) =>
    case LostRace => RoundLost(c, schedule, head0, log0, k, head, log, log');
    case Broken => RoundLost(c, schedule, head0, log0, k, head, log, log');
  }

  lemma RoundLost(c: Commit, schedule: seq<Rivals>, head0: nat, log0: seq<ManifestEntry>, k: nat,
                  head: nat, log: seq<ManifestEntry>, log': seq<ManifestEntry>)
    requires k < |schedule| && LostRounds(c, log0, head0, log, head, schedule, k) && FenceAt(c, log, head)
    requires LosesAt(schedule, head0 < |log0|, k) && log' == log + Entries(schedule[k].All(), |log|)
    ensures LostRound(c, log0, head0, schedule, k) && LostRounds(c, log0, head0, log', |log'|, schedule, k + 1)
  {
    OneMoreRound(log0, schedule, k);
    assert LostRound(c, log0, head0, schedule, k);
  }

  /** A call that does not give up ends with a round that does not lose. */
  lemma LastOutcome(c: Commit, schedule: seq<Rivals>, head0: nat, log0: seq<ManifestEntry>, k: nat, r: Result<nat, CommitError>,
                    head: nat, log: seq<ManifestEntry>, head': nat, log': seq<ManifestEntry>) returns (o: Outcome)
    requires Called(c, schedule, head0, log0, k, r, head', log') && r != Err(Busy)
    requires log == LogAfter(log0, schedule, k) && head == HeadAfter(log0, head0, schedule, k) && head <= |log|
    ensures k < |schedule| && !o.LostRace? && Answer(o) == r && RoundSpec(c, head, log, schedule[k], o, head', log')
  {
    LostMeans(log0, head0, schedule, k, log, head);
    match r
    case Ok(n) =>
      o := Landed(n);
      assert log[..|log|] == log;
    case Err(Stale(p)) => o := Refused(p);
    case Err(Unreadable) =>
      o := Broken;
      OneMoreRound(log0, schedule, k);
  }

  lemma CallMeans(c: Commit, schedule: seq<Rivals>, head0: nat, log0: seq<ManifestEntry>, rounds: nat,
                  r: Result<nat, CommitError>, head: nat, log: seq<ManifestEntry>) returns (foreign: seq<Commit>)
    requires Called(c, schedule, head0, log0, rounds, r, head, log)
    ensures log == log0 + Entries(foreign, |log0|) + (if r.Ok? then [EntryOf(c, |log|)] else [])
    ensures r.Ok? ==> r.value == head == |log| && FenceVerdict(c, log0 + Entries(foreign, |log0|))
    ensures r == Err(Busy) ==> LosesEvery(schedule, head0 < |log0|) && foreign == AllRivals(schedule)
    ensures r.Ok? ==> !LosesEvery(schedule, head0 < |log0|)
  {
    var n := if r == Err(Unreadable) then rounds + 1 else rounds;
    foreign := AllRivals(schedule[..n]);
    CallLog(c, schedule, head0, log0, rounds, r, head, log, n, log0 + Entries(foreign, |log0|));
    if r == Err(Busy) { LostAll(c, schedule, head0, log0, head0 < |log0|); }
  }

  lemma CallLog(c: Commit, schedule: seq<Rivals>, head0: nat, log0: seq<ManifestEntry>, rounds: nat, r: Result<nat, CommitError>,
                head: nat, log: seq<ManifestEntry>, n: nat, others: seq<ManifestEntry>)
    requires Called(c, schedule, head0, log0, rounds, r, head, log)
    requires n == (if r == Err(Unreadable) then rounds + 1 else rounds) && others == LogAfter(log0, schedule, n)
    ensures log == others + (if r.Ok? then [EntryOf(c, |log|)] else [])
    ensures r.Ok? ==> r.value == head == |log| && FenceVerdict(c, others) && !LosesEvery(schedule, head0 < |log0|)
  {
    AddNothing(others);
  }

  lemma LostAll(c: Commit, schedule: seq<Rivals>, head0: nat, log0: seq<ManifestEntry>, stale: bool)
    requires stale == (head0 < |log0|) && forall j :: 0 <= j < |schedule| ==> LostRound(c, log0, head0, schedule, j)
    ensures LosesEvery(schedule, stale) && AllRivals(schedule[..|schedule|]) == AllRivals(schedule)
  {
    assert schedule[..|schedule|] == schedule;
    forall j | 0 <= j < |schedule| ensures LosesAt(schedule, stale, j) { assert LostRound(c, log0, head0, schedule, j); }
  }

  lemma AddNothing<T>(s: seq<T>)
    ensures s + [] == s
  {
  }

  /** How one attempt leaves the log and the replica. */
  ghost predicate RoundSpec(c: Commit, head: nat, log: seq<ManifestEntry>, rivals: Rivals, o: Outcome,
                            head': nat, log': seq<ManifestEntry>) {
    && head <= |log| && head' <= |log'| && (!o.Refused? ==> FenceAt(c, log, head))
    && match o
       case Landed(n) => !Lost(head, |log|, rivals) && log' == log + [EntryOf(c, n)] && n == head' == |log'|
       case Refused(p) => log' == log && head' == head &&
         c.fenced && p in c.removePaths && !HasPath(FoldEntries(EMPTY_VIEW, log[..head]).files, p)
       case LostRace => Lost(head, |log|, rivals) && log' == log + Entries(rivals.All(), |log|) && head' == |log'|
       case Broken => Lost(head, |log|, rivals) && log' == log + Entries(rivals.All(), |log|) && head' == head && !Readable(log')
  }

  /** The fence's verdict, against the log a commit lands on. */
  ghost predicate FenceVerdict(c: Commit, log: seq<ManifestEntry>) {
    CatalogProtocol.FenceHolds(FoldEntries(EMPTY_VIEW, log).files, c)
  }

  ghost predicate FenceAt(c: Commit, log: seq<ManifestEntry>, head: nat) {
    head <= |log| && FenceVerdict(c, log[..head])
  }

  /** Losing every round takes a landing per round, except that staleness pays for the first. */
  lemma {:induction false} LossesAreLandings(schedule: seq<Rivals>, stale: bool)
    requires LosesEvery(schedule, stale)
    ensures |AllRivals(schedule)| + (if stale then 1 else 0) >= |schedule|
  {
    if schedule != [] {
      var n := |schedule| - 1;
      assert LosesAt(schedule, stale, n);
      forall j | 0 <= j < n ensures LosesAt(Init(schedule), stale, j) { assert LosesAt(schedule, stale, j); }
      LossesAreLandings(Init(schedule), stale);
    }
  }

  /** The bound is met: a stale replica loses 100 rounds to 99 commits of other writers. */
  lemma StaleCallLosesToNinetyNine(c: Commit)
    ensures var quiet, busy := Rivals([], []), Rivals([c], []);
            var schedule := [quiet] + seq(99, _ => busy);
            |schedule| == MAX_COMMIT_ATTEMPTS == 100 && LosesEvery(schedule, true) && !LosesEvery(schedule, false)
            && |AllRivals(schedule)| == 99
  {
    var quiet, busy := Rivals([], []), Rivals([c], []);
    QuietThenBusy(quiet, busy, 99);
    assert !LosesAt([quiet] + seq(99, _ => busy), false, 0);
  }

  /** So giving up proves a hundred commits of other writers if and only if the replica was not
   *  already behind. */
  lemma HundredIff(stale: bool, c: Commit)
    ensures (forall schedule :: |schedule| == MAX_COMMIT_ATTEMPTS && LosesEvery(schedule, stale) ==>
               |AllRivals(schedule)| >= 100) <==> !stale
  {
    forall schedule | |schedule| == MAX_COMMIT_ATTEMPTS && LosesEvery(schedule, stale)
      ensures |AllRivals(schedule)| + (if stale then 1 else 0) >= 100
    {
      LossesAreLandings(schedule, stale);
    }
    if stale { StaleCallLosesToNinetyNine(c); }
  }

  lemma {:induction false} QuietThenBusy(quiet: Rivals, busy: Rivals, n: nat)
    requires quiet.All() == [] && |busy.All()| == 1
    ensures |AllRivals([quiet] + seq(n, _ => busy))| == n
  {
    var s := [quiet] + seq(n, _ => busy);
    if n == 0 {
      assert s == [quiet] && Init(s) == [];
    } else {
      QuietThenBusy(quiet, busy, n - 1);
      assert Init(s) == [quiet] + seq(n - 1, _ => busy);
    }
  }

  /** Round j is lost: somebody landed before its put, or (first round) before the call. */
  predicate LosesAt(schedule: seq<Rivals>, stale: bool, j: nat)
    requires j < |schedule|
  {
    (j == 0 && stale) || schedule[j].beforePut != []
  }

  predicate LosesEvery(schedule: seq<Rivals>, stale: bool) {
    forall j :: 0 <= j < |schedule| ==> LosesAt(schedule, stale, j)
  }

  function AllRivals(schedule: seq<Rivals>): seq<Commit> {
    if schedule == [] then [] else AllRivals(Init(schedule)) + Last(schedule).All()
  }

  lemma AllRivalsSnoc(schedule: seq<Rivals>, x: Rivals)
    ensures AllRivals(schedule + [x]) == AllRivals(schedule) + x.All()
  {
    assert Init(schedule + [x]) == schedule;
  }

  lemma MoreLanded(log: seq<ManifestEntry>, foreign: seq<Commit>, more: seq<Commit>)
    ensures var log1 := log + Entries(foreign, |log|);
            log1 + Entries(more, |log1|) == log + Entries(foreign + more, |log|)
  {
    EntriesAppend(foreign, more, |log|);
    ConcatAssoc(log, Entries(foreign, |log|), Entries(more, |log| + |foreign|));
  }

  /** What other writers land during one round: before the put, and before the listing. */
  datatype Rivals = Rivals(beforePut: seq<Commit>, beforeList: seq<Commit>)
  {
    function All(): seq<Commit> { beforePut + beforeList }
  }

  datatype Outcome = Landed(seqNo: nat) | Refused(missing: string) | LostRace | Broken

  /** The put finds its key taken exactly when the log has moved past the head. */
  predicate Lost(head: nat, logLength: nat, rivals: Rivals) {
    head < logLength || rivals.beforePut != []
  }

  lemma StillCurrent(log: seq<ManifestEntry>, log': seq<ManifestEntry>, n: nat)
    requires log <= log' && n <= |log|
    ensures log'[..n] == log[..n]
  {
  }

  lemma EntriesEmpty(log: seq<ManifestEntry>, cs: seq<Commit>)
    ensures cs == [] ==> log + Entries(cs, |log|) == log
  {
  }

  lemma {:induction false} EntriesAppend(a: seq<Commit>, b: seq<Commit>, from: nat)
    ensures Entries(a + b, from) == Entries(a, from) + Entries(b, from + |a|)
  {
    if b == [] {
      assert a + b == a;
    } else {
      EntriesAppend(a, Init(b), from);
      assert Init(a + b) == a + Init(b) && Last(a + b) == Last(b);
      ConcatAssoc(Entries(a, from), Entries(Init(b), from + |a|), [EntryOf(Last(b), from + |a| + |b|)]);
    }
  }

  /** Names in listing order are names in log order. */
  ghost predicate InOrder(name: Naming, count: nat) {
    forall i: nat, j: nat {:trigger name(i), name(j)} :: 1 <= i < j <= count ==> LexLess(name(i), name(j))
  }

  /** Zero padding to twelve digits orders the log exactly while it is below 10^12 entries. */
  lemma ManifestInOrderIff(count: nat)
    ensures InOrder(ManifestPath, count) <==> count < Pow10(12)
  {
    var p, s := "catalog/manifest/", ".json";
    NumberedOrderIff(p, count, 12, s);
    if InOrder(ManifestPath, count) {
      forall i, j | 1 <= i < j <= count ensures LexLess(Numbered(p, i, 12, s), Numbered(p, j, 12, s)) {
        assert LexLess(ManifestPath(i), ManifestPath(j));
      }
    }
  }

  lemma ListingOrderIsLogOrder(name: Naming, objects: map<string, ManifestEntry>, log: seq<ManifestEntry>, names: seq<string>)
    requires Injective(name) && Holds(name, objects, log) && InOrder(name, |log|)
    requires StrictlySorted(names) && forall p :: p in names <==> p in objects
    ensures |names| == |log|
    ensures forall i :: 0 <= i < |log| ==> names[i] in objects && objects[names[i]] == log[i] && log[i].seqNo == i + 1
  {
    var inOrder := seq(|log|, i requires 0 <= i < |log| => name(i + 1));
    ListedExactly(name, objects, log, inOrder);
    SortedListingUnique(names, inOrder);
    forall i | 0 <= i < |log| ensures names[i] in objects && objects[names[i]] == log[i] && log[i].seqNo == i + 1 {
      assert names[i] == name(i + 1) && EntryAt(name, objects, log, i + 1);
    }
  }

  lemma ListedExactly(name: Naming, objects: map<string, ManifestEntry>, log: seq<ManifestEntry>, inOrder: seq<string>)
    requires Injective(name) && Holds(name, objects, log)
    requires |inOrder| == |log| && forall i :: 0 <= i < |log| ==> inOrder[i] == name(i + 1)
    ensures forall p :: p in inOrder <==> p in objects
  {
    NextIsFree(name, objects, log);
    forall p | p in objects ensures p in inOrder {
      assert Named(name, |log|, p);
      var n: nat {:trigger name(n)} :| 1 <= n <= |log| && p == name(n);
      assert inOrder[n - 1] == p;
    }
  }
}
