/** Manifest entries and the fold that turns a log of them into a catalog view. */
module Manifest {
  import opened Basics
  import opened Names

  /** (database, table) */
  type TableKey = (string, string)

  datatype FileMeta = FileMeta(db: string, table: string, partition: string, path: string,
                               rows: nat, sizeBytes: nat, minTs: int, maxTs: int)
  {
    function Key(): TableKey { (db, table) }
  }

  datatype Tombstone = Tombstone(id: string, db: string, table: string,
                                 tagEquals: seq<(string, string)>,
                                 minTs: Option<int>, maxTs: Option<int>, createdSeq: nat)
  {
    function Key(): TableKey { (db, table) }
  }

  datatype ColumnType = Float | Integer | Unsigned | Boolean | String

  datatype TableColumn = TableColumn(name: string, ty: ColumnType, tag: bool)

  datatype TableSchema = TableSchema(db: string, table: string, columns: seq<TableColumn>)
  {
    function Key(): TableKey { (db, table) }
  }

  /** What a caller asks the catalog to record.  `fenced` is `require_removals_present`;
   *  `format` is the manifest version the committing binary stamps. */
  datatype Commit = Commit(format: nat, addFiles: seq<FileMeta>, removePaths: seq<string>,
                           tombstones: seq<Tombstone>, schemaDecls: seq<TableSchema>,
                           dropTables: seq<TableKey>, fenced: bool)

  datatype ManifestEntry = ManifestEntry(format: nat, seqNo: nat, addFiles: seq<FileMeta>,
                                         removePaths: seq<string>, tombstones: seq<Tombstone>,
                                         schemaDecls: seq<TableSchema>, dropTables: seq<TableKey>)

  const MAX_COMMIT_ATTEMPTS: nat := 100

  const MANIFEST_FORMAT_VERSION: nat := 1

  type FileIndex = map<TableKey, seq<FileMeta>>

  datatype View = View(files: FileIndex, tombstones: seq<Tombstone>, declared: map<TableKey, TableSchema>)

  const EMPTY_VIEW := View(map[], [], map[])

  // ----- the pieces of apply_entry

  function Declare(declared: map<TableKey, TableSchema>, decls: seq<TableSchema>): map<TableKey, TableSchema> {
    if decls == [] then declared else Declare(declared, Init(decls))[Last(decls).Key() := Last(decls)]
  }

  /** `list.retain(|f| !paths.contains(&f.path))` */
  function Without(list: seq<FileMeta>, paths: seq<string>): (r: seq<FileMeta>)
    ensures forall f :: f in r <==> f in list && f.path !in paths
  {
    if list == [] then []
    else if Last(list).path in paths then Without(Init(list), paths)
    else Without(Init(list), paths) + [Last(list)]
  }

  function RemoveAll(files: FileIndex, paths: seq<string>): FileIndex {
    map k | k in files :: Without(files[k], paths)
  }

  function FilesOf(files: FileIndex, k: TableKey): seq<FileMeta> {
    if k in files then files[k] else []
  }

  function AddAll(files: FileIndex, adds: seq<FileMeta>): FileIndex {
    if adds == [] then files
    else
      var before := AddAll(files, Init(adds));
      before[Last(adds).Key() := FilesOf(before, Last(adds).Key()) + [Last(adds)]]
  }

  predicate HasId(ts: seq<Tombstone>, id: string) { exists t :: t in ts && t.id == id }

  function AddTombstones(ts: seq<Tombstone>, adds: seq<Tombstone>): seq<Tombstone> {
    if adds == [] then ts
    else
      var before := AddTombstones(ts, Init(adds));
      if HasId(before, Last(adds).id) then before else before + [Last(adds)]
  }

  function DropTombstones(ts: seq<Tombstone>, drops: seq<TableKey>): (r: seq<Tombstone>)
    ensures forall t :: t in r <==> t in ts && t.Key() !in drops
  {
    if ts == [] then []
    else if Last(ts).Key() in drops then DropTombstones(Init(ts), drops)
    else DropTombstones(Init(ts), drops) + [Last(ts)]
  }

  function WithoutKeys<V>(m: map<TableKey, V>, drops: seq<TableKey>): map<TableKey, V> {
    map k | k in m && k !in drops :: m[k]
  }

  /** `apply_entry` as a function of the old view. */
  function Apply(v: View, e: ManifestEntry): View {
    View(WithoutKeys(AddAll(RemoveAll(v.files, e.removePaths), e.addFiles), e.dropTables),
         DropTombstones(AddTombstones(v.tombstones, e.tombstones), e.dropTables),
         WithoutKeys(Declare(v.declared, e.schemaDecls), e.dropTables))
  }

  // ----- the log

  function StampAll(ts: seq<Tombstone>, seqNo: nat): (r: seq<Tombstone>)
    ensures |r| == |ts| && forall i :: 0 <= i < |ts| ==> r[i] == ts[i].(createdSeq := seqNo)
  {
    if ts == [] then [] else StampAll(Init(ts), seqNo) + [Last(ts).(createdSeq := seqNo)]
  }

  /** The entry a commit writes when it lands at `seqNo`. */
  function EntryOf(c: Commit, seqNo: nat): ManifestEntry {
    ManifestEntry(c.format, seqNo, c.addFiles, c.removePaths,
                  StampAll(c.tombstones, seqNo), c.schemaDecls, c.dropTables)
  }

  /** A history of commits as the log it leaves: commit i lands at seq i + 1. */
  function Log(h: seq<Commit>): (es: seq<ManifestEntry>)
    ensures |es| == |h| && forall i :: 0 <= i < |h| ==> es[i] == EntryOf(h[i], i + 1)
  {
    seq(|h|, i requires 0 <= i < |h| => EntryOf(h[i], i + 1))
  }

  function FoldLeft<S, E>(step: (S, E) -> S, s: S, es: seq<E>): S {
    if es == [] then s else step(FoldLeft(step, s, Init(es)), Last(es))
  }

  lemma {:induction false} FoldLeftAppend<S, E>(step: (S, E) -> S, s: S, a: seq<E>, b: seq<E>)
    ensures FoldLeft(step, s, a + b) == FoldLeft(step, FoldLeft(step, s, a), b)
  {
    if b == [] {
      assert a + b == a;
    } else {
      FoldLeftAppend(step, s, a, Init(b));
      assert Init(a + b) == a + Init(b);
    }
  }

  lemma FoldLeftSlice<S, E>(step: (S, E) -> S, s: S, es: seq<E>, a: nat, b: nat)
    requires a <= b <= |es|
    ensures FoldLeft(step, FoldLeft(step, s, es[..a]), es[a..b]) == FoldLeft(step, s, es[..b])
  {
    FoldLeftAppend(step, s, es[..a], es[a..b]);
    SliceJoin(es, a, b);
  }

  function FoldEntries(v: View, es: seq<ManifestEntry>): View { FoldLeft(Apply, v, es) }

  /** The entries a run of commits leaves when the log already has `from` entries. */
  function Entries(cs: seq<Commit>, from: nat): (es: seq<ManifestEntry>)
    ensures |es| == |cs|
  {
    if cs == [] then [] else Entries(Init(cs), from) + [EntryOf(Last(cs), from + |cs|)]
  }

  lemma {:induction false} LogAppend(h: seq<Commit>, cs: seq<Commit>)
    ensures Log(h + cs) == Log(h) + Entries(cs, |h|)
  {
    if cs == [] {
      assert h + cs == h && Log(h) + [] == Log(h);
    } else {
      LogAppend(h, Init(cs));
      var all := h + cs;
      assert Init(all) == h + Init(cs) && Last(all) == Last(cs);
      assert Log(all) == Log(Init(all)) + [EntryOf(Last(all), |all|)];
      ConcatAssoc(Log(h), Entries(Init(cs), |h|), [EntryOf(Last(cs), |h| + |cs|)]);
    }
  }

  /** The view that replaying a history from nothing produces. */
  function Fold(h: seq<Commit>): View { FoldEntries(EMPTY_VIEW, Log(h)) }

  lemma FoldSnoc(h: seq<Commit>, c: Commit)
    ensures Fold(h + [c]) == Apply(Fold(h), EntryOf(c, |h| + 1))
  {
    var es, e := Log(h), EntryOf(c, |h| + 1);
    assert Log(h + [c]) == es + [e];
    assert Init(es + [e]) == es;
  }

  lemma FoldPrefix(h: seq<Commit>, n: nat)
    requires n <= |h|
    ensures FoldEntries(EMPTY_VIEW, Log(h)[..n]) == Fold(h[..n])
  {
    assert Log(h)[..n] == Log(h[..n]);
  }

  // ----- what apply_entry does to one table

  function Select(adds: seq<FileMeta>, k: TableKey): (r: seq<FileMeta>)
    ensures forall f :: f in r <==> f in adds && f.Key() == k
  {
    if adds == [] then []
    else if Last(adds).Key() == k then Select(Init(adds), k) + [Last(adds)]
    else Select(Init(adds), k)
  }

  lemma {:induction false} AddAllAt(files: FileIndex, adds: seq<FileMeta>, k: TableKey)
    ensures FilesOf(AddAll(files, adds), k) == FilesOf(files, k) + Select(adds, k)
  {
    if adds == [] {
      assert FilesOf(files, k) + [] == FilesOf(files, k);
    } else {
      AddAllAt(files, Init(adds), k);
      assert forall x :: (FilesOf(files, k) + Select(Init(adds), k)) + [x] == FilesOf(files, k) + (Select(Init(adds), k) + [x]);
    }
  }

  /** The files of one table after an entry: a dropped table is empty; any other keeps
   *  what was not removed, in order, followed by its own additions, in order. */
  lemma ApplyAt(v: View, e: ManifestEntry, k: TableKey)
    ensures FilesOf(Apply(v, e).files, k) ==
            if k in e.dropTables then [] else Without(FilesOf(v.files, k), e.removePaths) + Select(e.addFiles, k)
  {
    var kept := RemoveAll(v.files, e.removePaths);
    AddAllAt(kept, e.addFiles, k);
    assert FilesOf(kept, k) == Without(FilesOf(v.files, k), e.removePaths);
  }

  /** Tombstone ids are unique in every view, however often an id is recorded. */
  predicate UniqueIds(ts: seq<Tombstone>) {
    forall i, j :: 0 <= i < j < |ts| ==> ts[i].id != ts[j].id
  }

  lemma {:induction false} AddTombstonesUnique(ts: seq<Tombstone>, adds: seq<Tombstone>)
    requires UniqueIds(ts)
    ensures UniqueIds(AddTombstones(ts, adds))
  {
    if adds != [] { AddTombstonesUnique(ts, Init(adds)); }
  }

  lemma {:induction false} DropTombstonesUnique(ts: seq<Tombstone>, drops: seq<TableKey>)
    requires UniqueIds(ts)
    ensures UniqueIds(DropTombstones(ts, drops))
  {
    if ts != [] {
      DropTombstonesUnique(Init(ts), drops);
      var rest := DropTombstones(Init(ts), drops);
      assert forall i :: 0 <= i < |rest| ==> rest[i] in rest;
    }
  }

  lemma {:induction false} FoldUniqueIds(h: seq<Commit>)
    ensures UniqueIds(Fold(h).tombstones)
  {
    if h != [] {
      FoldUniqueIds(Init(h));
      FoldSnoc(Init(h), Last(h));
      assert h == Init(h) + [Last(h)];
      var e := EntryOf(Last(h), |h|);
      AddTombstonesUnique(Fold(Init(h)).tombstones, e.tombstones);
      DropTombstonesUnique(AddTombstones(Fold(Init(h)).tombstones, e.tombstones), e.dropTables);
    }
  }

  // ----- the fence

  predicate HasPath(files: FileIndex, path: string) {
    exists k, f :: k in files && f in files[k] && f.path == path
  }

  /** Object names: `catalog/manifest/{seq:012}.json` */
  function ManifestPath(seqNo: nat): string {
    Numbered("catalog/manifest/", seqNo, 12, ".json")
  }
}
