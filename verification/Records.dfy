/** What a landed commit records: the entry's contents, field by field, and what they do to every
 *  later view. */
module Records {
  import opened Basics
  import opened Manifest
  import Reapplied

  /** The entry says what the caller asked for, under its number, with every tombstone stamped. */
  ghost predicate RecordedAs(e: ManifestEntry, c: Commit, n: nat) {
    && e.seqNo == n && e.format == c.format && e.addFiles == c.addFiles && e.removePaths == c.removePaths
    && e.schemaDecls == c.schemaDecls && e.dropTables == c.dropTables && |e.tombstones| == |c.tombstones|
    && forall i :: 0 <= i < |c.tombstones| ==>
         var t, u := c.tombstones[i], e.tombstones[i];
         && u.id == t.id && u.db == t.db && u.table == t.table && u.tagEquals == t.tagEquals
         && u.minTs == t.minTs && u.maxTs == t.maxTs && u.createdSeq == n
  }

  lemma EntryRecords(c: Commit, n: nat)
    ensures RecordedAs(EntryOf(c, n), c, n)
  {
  }

  /** Every entry of a log records its commit under its place. */
  lemma LogRecords(h: seq<Commit>, i: nat)
    requires i < |h|
    ensures |Log(h)| == |h| && RecordedAs(Log(h)[i], h[i], i + 1)
  {
    EntryRecords(h[i], i + 1);
  }

  // ----- tombstones

  /** A view's tombstones after an entry: those of tables it does not drop, that were there or are
   *  the entry's first with an id not there yet. */
  lemma TombstonesAt(v: View, e: ManifestEntry, t: Tombstone)
    ensures t in Apply(v, e).tombstones <==>
            t.Key() !in e.dropTables &&
            (t in v.tombstones || (!HasId(v.tombstones, t.id) && exists i: nat :: Reapplied.First(e.tombstones, i) && e.tombstones[i] == t))
  {
    Reapplied.AddIsNews(v.tombstones, e.tombstones);
    Reapplied.NewsAre(v.tombstones, e.tombstones, t);
  }

  /** One more entry, by what it records. */
  lemma NextEntry(h: seq<Commit>, m: nat, c: Commit) returns (v: View, e: ManifestEntry, v': View)
    requires m < |h| && c == h[m]
    ensures v == Fold(h[..m]) && RecordedAs(e, c, m + 1) && v' == Fold(h[..m + 1]) == Apply(v, e)
  {
    v, e, v' := Fold(h[..m]), EntryOf(c, m + 1), Fold(h[..m + 1]);
    TakeSnoc(h, m);
    FoldSnoc(h[..m], c);
    EntryRecords(c, m + 1);
  }

  lemma DeleteLands(v: View, e: ManifestEntry, c: Commit, n: nat, i: nat, t: Tombstone)
    requires RecordedAs(e, c, n) && i < |c.tombstones| && t == c.tombstones[i].(createdSeq := n) && !HasId(v.tombstones, t.id)
    requires forall j :: 0 <= j < i ==> c.tombstones[j].id != t.id
    ensures t in Apply(v, e).tombstones <==> t.Key() !in c.dropTables
  {
    TombstonesAt(v, e, t);
    assert e.tombstones[i] == t && forall j :: 0 <= j < i ==> e.tombstones[j].id == c.tombstones[j].id;
    assert Reapplied.First(e.tombstones, i);
  }

  lemma DeleteStays(v: View, e: ManifestEntry, c: Commit, m: nat, t: Tombstone)
    requires RecordedAs(e, c, m) && t.createdSeq != m
    ensures t in Apply(v, e).tombstones <==> t in v.tombstones && t.Key() !in c.dropTables
  {
    TombstonesAt(v, e, t);
  }

  /** Delete i of the commit has an id of its own and is not of a table the commit drops. */
  predicate FreshDelete(c: Commit, i: nat, v: View) {
    && i < |c.tombstones| && c.tombstones[i].Key() !in c.dropTables && !HasId(v.tombstones, c.tombstones[i].id)
    && forall j :: 0 <= j < i ==> c.tombstones[j].id != c.tombstones[i].id
  }

  /** Every such delete is in the view, stamped n. */
  ghost predicate TakesHold(c: Commit, n: nat, before: View, now: View) {
    forall i: nat :: FreshDelete(c, i, before) ==> c.tombstones[i].(createdSeq := n) in now.tombstones
  }

  lemma RecordedTakesHold(v: View, e: ManifestEntry, c: Commit, n: nat, now: View)
    requires RecordedAs(e, c, n) && now == Apply(v, e)
    ensures TakesHold(c, n, v, now)
  {
    forall i: nat | FreshDelete(c, i, v) ensures c.tombstones[i].(createdSeq := n) in now.tombstones {
      DeleteLands(v, e, c, n, i, c.tombstones[i].(createdSeq := n));
    }
  }

  /** A commit that landed last. */
  lemma LandedLast(before: seq<ManifestEntry>, c: Commit, log: seq<ManifestEntry>, n: nat)
    requires log == before + [EntryOf(c, n)] && n == |log|
    ensures RecordedAs(log[n - 1], c, n)
    ensures TakesHold(c, n, FoldEntries(EMPTY_VIEW, log[..n - 1]), FoldEntries(EMPTY_VIEW, log[..n]))
  {
    var e := EntryOf(c, n);
    EntryRecords(c, n);
    assert log[..n - 1] == before && log[..n] == log && Init(log) == before && Last(log) == e;
    RecordedTakesHold(FoldEntries(EMPTY_VIEW, before), e, c, n, FoldEntries(EMPTY_VIEW, log));
  }

  /** Is the tombstone in the view after j commits? */
  function Present(h: seq<Commit>, t: Tombstone): nat -> bool { (j: nat) => j <= |h| && t in Fold(h[..j]).tombstones }

  lemma PresentIs(h: seq<Commit>, t: Tombstone, j: nat, v: View)
    requires j <= |h| && v == Fold(h[..j])
    ensures Present(h, t)(j) <==> t in v.tombstones
  {
  }

  /** Does commit j drop its table? */
  function Drops(h: seq<Commit>, k: TableKey): nat -> bool { (j: nat) => j < |h| && k in h[j].dropTables }

  lemma LandsAt(h: seq<Commit>, n: nat, c: Commit, i: nat, t: Tombstone)
    requires 1 <= n <= |h| && c == h[n - 1] && i < |c.tombstones| && t == c.tombstones[i].(createdSeq := n)
    requires !HasId(Fold(h[..n - 1]).tombstones, t.id) && forall j :: 0 <= j < i ==> c.tombstones[j].id != t.id
    ensures Present(h, t)(n) <==> t.Key() !in c.dropTables
  {
    var v, e, v' := NextEntry(h, n - 1, c);
    DeleteLands(v, e, c, n, i, t);
  }

  lemma StaysAt(h: seq<Commit>, m: nat, c: Commit, t: Tombstone)
    requires m < |h| && c == h[m] && t.createdSeq != m + 1
    ensures Present(h, t)(m + 1) <==> Present(h, t)(m) && !Drops(h, t.Key())(m)
  {
    var v, e, v' := NextEntry(h, m, c);
    DeleteStays(v, e, c, m + 1, t);
  }

  /** Something there at n, and from then on until the first time it is ended. */
  lemma {:induction false} Until(there: nat -> bool, ended: nat -> bool, n: nat, m: nat)
    requires n <= m && there(n) && forall j: nat :: n <= j < m ==> (there(j + 1) <==> there(j) && !ended(j))
    ensures there(m) <==> forall j: nat :: n <= j < m ==> !ended(j)
  {
    if n < m { Until(there, ended, n, m - 1); }
  }

  lemma PresentUntil(h: seq<Commit>, n: nat, m: nat, t: Tombstone, there: nat -> bool, ended: nat -> bool)
    requires n <= m <= |h| && t.createdSeq <= n && there == Present(h, t) && ended == Drops(h, t.Key()) && there(n)
    ensures there(m) <==> forall j: nat :: n <= j < m ==> !ended(j)
  {
    forall j: nat | n <= j < m ensures there(j + 1) <==> there(j) && !ended(j) { StaysAt(h, j, h[j], t); }
    Until(there, ended, n, m);
  }

  /** A delete of a table the commit does not drop, recorded at n under an id not in use, is in every
   *  view from then on exactly until a drop of its table lands. */
  lemma DeleteHoldsUntilDropped(h: seq<Commit>, n: nat, c: Commit, i: nat, m: nat, t: Tombstone)
    requires 1 <= n <= m <= |h| && c == h[n - 1] && i < |c.tombstones| && t == c.tombstones[i].(createdSeq := n)
    requires !HasId(Fold(h[..n - 1]).tombstones, t.id) && (forall j :: 0 <= j < i ==> c.tombstones[j].id != t.id) && t.Key() !in c.dropTables
    ensures Present(h, t)(m) <==> forall j: nat :: n <= j < m ==> !Drops(h, t.Key())(j)
  {
    LandsAt(h, n, c, i, t);
    PresentUntil(h, n, m, t, Present(h, t), Drops(h, t.Key()));
  }

  // ----- declarations

  /** The last declaration of table k. */
  ghost predicate LastDecl(decls: seq<TableSchema>, k: TableKey, i: nat) {
    i < |decls| && decls[i].Key() == k && forall j :: i < j < |decls| ==> decls[j].Key() != k
  }

  lemma {:induction false} DeclareIs(declared: map<TableKey, TableSchema>, decls: seq<TableSchema>, k: TableKey)
    ensures (forall i: nat :: !LastDecl(decls, k, i)) ==>
              (k in Declare(declared, decls) <==> k in declared) && (k in declared ==> Declare(declared, decls)[k] == declared[k])
    ensures forall i: nat :: LastDecl(decls, k, i) ==> k in Declare(declared, decls) && Declare(declared, decls)[k] == decls[i]
  {
    if decls != [] {
      var n, before := |decls| - 1, Init(decls);
      DeclareIs(declared, before, k);
      if decls[n].Key() == k {
        assert LastDecl(decls, k, n);
      } else {
        forall i: nat ensures LastDecl(decls, k, i) <==> LastDecl(before, k, i) {
          assert i < n ==> before[i] == decls[i];
          assert forall j :: 0 <= j < n ==> before[j] == decls[j];
        }
      }
    }
  }

  /** A table's declaration after an entry: gone if the entry drops the table, else the entry's last
   *  one for it, columns and all, else the one before. */
  lemma DeclaredAt(v: View, e: ManifestEntry, k: TableKey)
    ensures k in e.dropTables ==> k !in Apply(v, e).declared
    ensures k !in e.dropTables ==>
              forall i: nat :: LastDecl(e.schemaDecls, k, i) ==> k in Apply(v, e).declared && Apply(v, e).declared[k] == e.schemaDecls[i]
    ensures k !in e.dropTables && (forall i: nat :: !LastDecl(e.schemaDecls, k, i)) ==>
              (k in Apply(v, e).declared <==> k in v.declared) && (k in v.declared ==> Apply(v, e).declared[k] == v.declared[k])
  {
    DeclareIs(v.declared, e.schemaDecls, k);
  }
}
