/** A session's query from end to end: load concurrently with pruning, restrict by the session's
 *  authorizations and the table's deletes, project, and filter what comes back. */
module Sessions {
  import opened Basics
  import opened Batches
  import opened Pruning
  import opened Scan
  import opened Loader
  import opened Restrictions
  import opened Projection
  import opened ScanRuns
  import Visibility
  import Labels

  // ----- filtering after the projection

  lemma {:induction false} ProjectedGet(target: seq<Column>, cols: seq<Column>, row: Cells, name: string)
    requires name in NamesOf(target)
    ensures Get(target, AlignRow(target, cols, row), name) == Get(cols, row, name)
  {
    var r, last := AlignRow(target, cols, row), Last(target);
    if last.name != name {
      assert Init(r) == AlignRow(Init(target), cols, row);
      var c :| c in target && c.name == name;
      assert c in Init(target);
      ProjectedGet(Init(target), cols, row, name);
    }
  }

  lemma ProjectedPasses(env: Env, fs: seq<Expr>, target: seq<Column>, cols: seq<Column>, row: Cells)
    requires Within(env, fs, NamesOf(target))
    ensures Passing(env, target, fs)(AlignRow(target, cols, row)) == Passing(env, cols, fs)(row)
  {
    var get, get' := Getter(target, AlignRow(target, cols, row)), Getter(cols, row);
    forall n | n in NamesOf(target) ensures get(n) == get'(n) { ProjectedGet(target, cols, row, n); }
    assert Passes(env, get, fs) <==> Passes(env, get', fs);
  }

  function Aligning(target: seq<Column>): seq<Column> -> Cells -> Cells {
    (cols: seq<Column>) => (row: Cells) => AlignRow(target, cols, row)
  }

  /** What the engine keeps of one batch that the scan hands it. */
  function Returned(env: Env, fs: seq<Expr>, rs: seq<Restriction>, target: seq<Column>): Batch -> seq<Cells> {
    (b: Batch) => Filter(Let(rs, b, target).rows, Passing(env, target, fs))
  }

  lemma ReturnedIs(env: Env, fs: seq<Expr>, rs: seq<Restriction>, target: seq<Column>, b: Batch)
    requires Within(env, fs, NamesOf(target))
    ensures Returned(env, fs, rs, target)(b) == Answering(env, fs, rs, Aligning(target))(b)
  {
    var let, align := Filter(b.rows, AllLet(rs, b.cols)), Aligning(target)(b.cols);
    forall row | row in let ensures Passing(env, target, fs)(align(row)) == Passing(env, b.cols, fs)(row) {
      ProjectedPasses(env, fs, target, b.cols, row);
    }
    FilterMap(let, align, Passing(env, b.cols, fs), Passing(env, target, fs));
    assert Let(rs, b, target).rows == Map(let, align);
  }

  lemma {:induction false} OverSame<B, R>(f: B -> seq<R>, g: B -> seq<R>, bs: seq<B>)
    requires forall b :: b in bs ==> f(b) == g(b)
    ensures Over(f, bs) == Over(g, bs)
  {
    if bs != [] { OverSame(f, g, Init(bs)); }
  }

  lemma ReturnedOver(env: Env, fs: seq<Expr>, rs: seq<Restriction>, target: seq<Column>, bs: seq<Batch>)
    requires Within(env, fs, NamesOf(target))
    ensures Over(Returned(env, fs, rs, target), bs) == Over(Answering(env, fs, rs, Aligning(target)), bs)
  {
    forall b | b in bs ensures Returned(env, fs, rs, target)(b) == Answering(env, fs, rs, Aligning(target))(b) {
      ReturnedIs(env, fs, rs, target, b);
    }
    OverSame(Returned(env, fs, rs, target), Answering(env, fs, rs, Aligning(target)), bs);
  }

  // ----- the query

  ghost predicate NoneBlocked(rs: seq<Restriction>, bs: seq<Batch>) { forall b :: b in bs ==> !Blocked(rs, b) }

  /** Restrict and project what was loaded, then filter it. */
  method Query(env: Env, fs: seq<Expr>, rs: seq<Restriction>, schema: seq<Column>, wanted: Wanted, loaded: seq<Batch>)
    returns (r: Result<seq<Cells>, Failure>)
    requires WantedIn(wanted, schema) && AllBatches(loaded)
    ensures r.Ok? <==> NoneBlocked(rs, loaded)
    ensures r.Ok? ==> r.value == Over(Returned(env, fs, rs, Projection.Target(wanted, schema)), loaded)
  {
    var out := ScanTable(loaded, schema, wanted, rs);
    NoneBlockedIff(rs, loaded);
    if out.Err? { return Err(out.error); }
    var target := Projection.Target(wanted, schema);
    var rows := Refilter(env, fs, target, out.value);
    OverEach(Refiltered(env, fs, target), Returned(env, fs, rs, target), out.value, loaded);
    r := Ok(rows);
  }

  function Refiltered(env: Env, fs: seq<Expr>, target: seq<Column>): Batch -> seq<Cells> {
    (b: Batch) => Filter(b.rows, Passing(env, target, fs))
  }

  method Refilter(env: Env, fs: seq<Expr>, target: seq<Column>, scanned: seq<Batch>) returns (rows: seq<Cells>)
    ensures rows == Over(Refiltered(env, fs, target), scanned)
  {
    rows := [];
    for i := 0 to |scanned|
      invariant rows == Over(Refiltered(env, fs, target), scanned[..i])
    {
      assert Init(scanned[..i + 1]) == scanned[..i] && Last(scanned[..i + 1]) == scanned[i];
      rows := rows + Filter(scanned[i].rows, Passing(env, target, fs));
    }
    assert scanned[..|scanned|] == scanned;
  }

  lemma {:induction false} OverEach<A, B, R>(f: A -> seq<R>, g: B -> seq<R>, a: seq<A>, b: seq<B>)
    requires |a| == |b| && forall i :: 0 <= i < |a| ==> f(a[i]) == g(b[i])
    ensures Over(f, a) == Over(g, b)
  {
    if a != [] { OverEach(f, g, Init(a), Init(b)); }
  }

  lemma NoneBlockedIff(rs: seq<Restriction>, bs: seq<Batch>)
    requires AllBatches(bs)
    ensures NoneBlocked(rs, bs) <==> forall i :: 0 <= i < |bs| ==> AppliedAll(rs, bs[i]).Ok?
  {
    forall i | 0 <= i < |bs| ensures AppliedAll(rs, bs[i]).Ok? <==> !Blocked(rs, bs[i]) {
      assert IsBatch(bs[i]);
      AppliedFailsIff(rs, bs[i]);
    }
    assert forall i :: 0 <= i < |bs| ==> bs[i] in bs;
  }

  // ----- what pruning does to it

  lemma {:induction false} RowsInHas(groups: seq<RowGroup>, g: nat, row: Cells)
    requires g < |groups| && row in groups[g].rows
    ensures row in RowsIn(groups)
  {
    if g < |groups| - 1 { RowsInHas(Init(groups), g, row); }
  }

  lemma WholeIsBatch(f: DataFile)
    requires FileOk(f)
    ensures IsBatch(Whole(f))
  {
    forall i | 0 <= i < |Whole(f).rows| ensures RowFits(f.cols, Whole(f).rows[i]) {
      var row := Whole(f).rows[i];
      assert row in RowsIn(f.groups);
      var g := RowsInMembers(f.groups, row);
      var r :| 0 <= r < |f.groups[g].rows| && f.groups[g].rows[r] == row;
      assert GroupOk(f, f.groups[g]);
    }
  }

  lemma LoadedFewer(f: DataFile, p: Pruning, row: Cells)
    requires LoadOneFile(f, p).Ok? && row in LoadedRows(LoadOneFile(f, p).value)
    ensures row in RowsIn(f.groups)
  {
    var keep := Kept(f, p.tags);
    DecodedAre(f.cols, p.tags, Gather(f.groups, keep), row);
    var g := GatherMembers(f.groups, keep, row);
    RowsInHas(f.groups, g, row);
  }

  /** A loaded batch is a well-formed part of its file, and no worse to restrict. */
  lemma LoadedBatch(f: DataFile, p: Pruning, rs: seq<Restriction>, b: Batch)
    requires FileOk(f) && LoadOneFile(f, p).Ok? && b == Batch(f.cols, LoadedRows(LoadOneFile(f, p).value))
    ensures IsBatch(b) && (Blocked(rs, b) ==> Blocked(rs, Whole(f)))
  {
    WholeIsBatch(f);
    forall row | row in b.rows ensures row in Whole(f).rows { LoadedFewer(f, p, row); }
    KeptBatch(Whole(f), b);
    AppliedFailsIff(rs, b);
    AppliedFailsIff(rs, Whole(f));
    FewerFail(rs, b, Whole(f));
  }

  lemma {:induction false} InOrderMembers<B>(slots: seq<Option<seq<B>>>, b: B) returns (i: nat)
    requires b in InOrder(slots)
    ensures i < |slots| && slots[i].Some? && b in slots[i].value
  {
    var n := |slots| - 1;
    if slots[n].Some? && b in slots[n].value { i := n; } else { i := InOrderMembers(Init(slots), b); }
  }

  lemma LoadedOne(f: DataFile, p: Pruning, rs: seq<Restriction>, slot: Option<seq<Batch>>, b: Batch)
    requires FileOk(f) && FileJob(f, p).content == Ok(slot) && slot.Some? && b in slot.value
    ensures IsBatch(b) && (Blocked(rs, b) ==> Blocked(rs, Whole(f)))
  {
    LoadedBatch(f, p, rs, b);
  }

  /** Whatever the interleaving, the loaded batches are well formed, and restricting them fails
   *  only if restricting the whole table would. */
  lemma LoadedBlocks(rs: seq<Restriction>, p: Pruning, buffer: seq<Batch>, files: seq<DataFile>, loaded: seq<Batch>)
    requires AllBatches(buffer) && forall i :: 0 <= i < |files| ==> FileOk(files[i])
    requires AllLoad(ScanJob(buffer, files, p)) && loaded == Serial(ScanJob(buffer, files, p))
    ensures AllBatches(loaded) && (NoneBlocked(rs, buffer + WholeAll(files)) ==> NoneBlocked(rs, loaded))
  {
    var job, all := ScanJob(buffer, files, p), buffer + WholeAll(files);
    forall b | b in loaded ensures IsBatch(b) && (Blocked(rs, b) ==> exists w :: w in all && Blocked(rs, w)) {
      if b in buffer {
        assert b in all;
      } else {
        var i := InOrderMembers(Contents(job), b);
        LoadedOne(files[i], p, rs, Contents(job)[i], b);
        assert WholeAll(files)[i] == Whole(files[i]) && Whole(files[i]) in all;
      }
    }
  }

  /** The whole query, in every interleaving that loads without a failure: it fails only if the
   *  unpruned query would, and otherwise gives, in order and for every projection that has the
   *  filters' columns, the rows that every restriction lets through and that pass the filters. */
  lemma QueryAnswers(env: Env, fs: seq<Expr>, rs: seq<Restriction>, target: seq<Column>, buffer: seq<Batch>, files: seq<DataFile>,
                     n: nat, ss: seq<State<Batch, ScanError>>, ts: seq<Step<ScanError>>, k: nat)
    requires Prunable(env, fs) && Within(env, fs, NamesOf(target))
    requires AllBatches(buffer) && forall i :: 0 <= i < |files| ==> FileOk(files[i])
    requires IsRun(ScanJob(buffer, files, Extracted(fs)), n, ss, ts) && k < |ss| && n > 0 && AllExited(ss[k])
    ensures var loaded, query := Outcome(ScanJob(buffer, files, Extracted(fs)), ss[k]), Returned(env, fs, rs, target);
            ss[k].failure.None? ==>
              && loaded.Ok? && AllBatches(loaded.value)
              && (NoneBlocked(rs, buffer + WholeAll(files)) ==> NoneBlocked(rs, loaded.value))
              && Over(query, loaded.value) == Over(query, buffer + WholeAll(files))
  {
    var job := ScanJob(buffer, files, Extracted(fs));
    ScanAnswers(env, fs, rs, Aligning(target), buffer, files, n, ss, ts, k);
    var loaded := Outcome(job, ss[k]);
    if ss[k].failure.None? {
      ReturnedOver(env, fs, rs, target, loaded.value);
      RefinesSerial(job, n, ss, ts, k);
      LoadedBlocks(rs, Extracted(fs), buffer, files, loaded.value);
    }
    ReturnedOver(env, fs, rs, target, buffer + WholeAll(files));
  }

  // ----- authorizations

  /** Labels as a session with these authorizations reads them. */
  function Sees(auths: set<string>): string -> bool { (text: string) => Visibility.IsVisible(text, auths) }

  function SessionRestrictions(schema: seq<Column>, deletes: seq<Tombstone>, auths: set<string>): seq<Restriction> {
    Mandatory(schema, Sees(auths), deletes)
  }

  /** What hides a row from a session.  One whose label is missing, null or blank is hidden by a
   *  delete alone; one labelled with a plain token also from every session without it. */
  lemma LabelledRowIff(schema: seq<Column>, deletes: seq<Tombstone>, auths: set<string>, cols: seq<Column>, row: Cells)
    requires Carries(schema, cols)
    ensures var tag, shown := Get(cols, row, "_visibility"), AllLet(SessionRestrictions(schema, deletes, auths), cols)(row);
            var deleted := exists k :: 0 <= k < |deletes| && Deleted(deletes[k], Getter(cols, row));
            && (!tag.Text? || (forall i :: 0 <= i < |tag.s| ==> IsSpace(tag.s[i])) ==> (shown <==> !deleted))
            && (tag.Text? && Labels.IsName(tag.s) ==> (shown <==> tag.s in auths && !deleted))
  {
    var tag := Get(cols, row, VISIBILITY_COLUMN);
    MandatoryExact(schema, cols, Sees(auths), deletes, row);
    if tag.Text? && forall i :: 0 <= i < |tag.s| ==> IsSpace(tag.s[i]) { Labels.BlankIsPublic(tag.s, auths); }
    if tag.Text? && Labels.IsName(tag.s) {
      Labels.NameGrantsIff([], tag.s, [], auths);
      assert [] + (tag.s + []) == tag.s;
    }
  }

  /** `a` is `b` with some elements left out. */
  predicate Thins<T(==)>(a: seq<T>, b: seq<T>) {
    a == [] || (b != [] && ((a[0] == b[0] && Thins(a[1..], b[1..])) || Thins(a, b[1..])))
  }

  lemma {:induction false} ThinsAppend<T>(a: seq<T>, b: seq<T>, c: seq<T>, d: seq<T>)
    requires Thins(a, b) && Thins(c, d)
    ensures Thins(a + c, b + d)
    decreases |b|
  {
    if b == [] {
      assert a + c == c && b + d == d;
    } else {
      assert (b + d)[1..] == b[1..] + d && (b + d)[0] == b[0];
      if a != [] && a[0] == b[0] && Thins(a[1..], b[1..]) {
        ThinsAppend(a[1..], b[1..], c, d);
        assert (a + c)[1..] == a[1..] + c && (a + c)[0] == a[0];
      } else {
        ThinsAppend(a, b[1..], c, d);
      }
    }
  }

  lemma {:induction false} ThinsFilter<A(!new), T>(s: seq<A>, p: A -> bool, q: A -> bool, f: A -> T)
    requires forall x :: x in s && p(x) ==> q(x)
    ensures Thins(Map(Filter(s, p), f), Map(Filter(s, q), f))
  {
    if s != [] {
      ThinsFilter(s[1..], p, q, f);
      var a, b := Map(Filter(s[1..], p), f), Map(Filter(s[1..], q), f);
      assert p(s[0]) ==> Map(Filter(s, p), f) == [f(s[0])] + a;
      assert q(s[0]) ==> Map(Filter(s, q), f) == [f(s[0])] + b && ([f(s[0])] + b)[1..] == b;
      assert p(s[0]) ==> ([f(s[0])] + a)[1..] == a;
    }
  }

  lemma {:induction false} ThinsOver<B, T>(f: B -> seq<T>, g: B -> seq<T>, bs: seq<B>)
    requires forall b :: b in bs ==> Thins(f(b), g(b))
    ensures Thins(Over(f, bs), Over(g, bs))
  {
    if bs != [] {
      ThinsOver(f, g, Init(bs));
      ThinsAppend(Over(f, Init(bs)), Over(g, Init(bs)), f(Last(bs)), g(Last(bs)));
    }
  }

  lemma LetsMore(schema: seq<Column>, deletes: seq<Tombstone>, a: set<string>, b: set<string>, cols: seq<Column>, row: Cells)
    requires a <= b && AllLet(SessionRestrictions(schema, deletes, a), cols)(row)
    ensures AllLet(SessionRestrictions(schema, deletes, b), cols)(row)
  {
    var ra, rb, get := SessionRestrictions(schema, deletes, a), SessionRestrictions(schema, deletes, b), Getter(cols, row);
    forall k | 0 <= k < |rb| ensures Lets(rb[k], get) {
      assert Lets(ra[k], get);
      LetsEach(schema, deletes, a, b, k, get);
    }
  }

  lemma SeesMore(env: Env, fs: seq<Expr>, schema: seq<Column>, deletes: seq<Tombstone>, a: set<string>, b: set<string>,
                 target: seq<Column>, batch: Batch)
    requires a <= b
    ensures var ra, rb := SessionRestrictions(schema, deletes, a), SessionRestrictions(schema, deletes, b);
            Thins(Answering(env, fs, ra, Aligning(target))(batch), Answering(env, fs, rb, Aligning(target))(batch))
  {
    var ra, rb, pass := SessionRestrictions(schema, deletes, a), SessionRestrictions(schema, deletes, b), Passing(env, batch.cols, fs);
    var la, lb := AllLet(ra, batch.cols), AllLet(rb, batch.cols);
    var both := (rs: seq<Restriction>) => (row: Cells) => AllLet(rs, batch.cols)(row) && pass(row);
    FilterTwice(batch.rows, la, pass, both(ra));
    FilterTwice(batch.rows, lb, pass, both(rb));
    forall row | row in batch.rows && both(ra)(row) ensures both(rb)(row) { LetsMore(schema, deletes, a, b, batch.cols, row); }
    ThinsFilter(batch.rows, both(ra), both(rb), Aligning(target)(batch.cols));
  }

  /** Nor do fewer authorizations make a restriction fail. */
  lemma BlockedMore(schema: seq<Column>, deletes: seq<Tombstone>, a: set<string>, b: set<string>, batch: Batch)
    requires a <= b && Blocked(SessionRestrictions(schema, deletes, a), batch)
    ensures Blocked(SessionRestrictions(schema, deletes, b), batch)
  {
    var ra, rb := SessionRestrictions(schema, deletes, a), SessionRestrictions(schema, deletes, b);
    var k :| 0 <= k < |ra| && BlockedAt(ra, batch, k);
    if ra[k].Deletes? {
      var row :| row in batch.rows && AllLet(ra[..k], batch.cols)(row);
      var get := Getter(batch.cols, row);
      forall j | 0 <= j < |rb[..k]| ensures Lets(rb[..k][j], get) {
        assert Lets(ra[..k][j], get);
        LetsEach(schema, deletes, a, b, j, get);
      }
      assert AllLet(rb[..k], batch.cols)(row);
    }
    assert BlockedAt(rb, batch, k);
  }

  lemma LetsEach(schema: seq<Column>, deletes: seq<Tombstone>, a: set<string>, b: set<string>, k: nat, get: string -> Cell)
    requires a <= b && k < |SessionRestrictions(schema, deletes, a)| && Lets(SessionRestrictions(schema, deletes, a)[k], get)
    ensures k < |SessionRestrictions(schema, deletes, b)| && Lets(SessionRestrictions(schema, deletes, b)[k], get)
  {
    if SessionRestrictions(schema, deletes, a)[k].Visibility? && get(VISIBILITY_COLUMN).Text? {
      Visibility.VisibilityLaws(get(VISIBILITY_COLUMN).s, a, b);
    }
  }

  /** Authorizations only ever reveal rows: of two sessions running the same query, each in any
   *  interleaving, the one with fewer authorizations succeeds if the other does, and gets the
   *  other's rows with some left out. */
  lemma AuthorizationsOnlyReveal(env: Env, fs: seq<Expr>, schema: seq<Column>, deletes: seq<Tombstone>, a: set<string>, b: set<string>,
                                 target: seq<Column>, buffer: seq<Batch>, files: seq<DataFile>,
                                 na: nat, sa: seq<State<Batch, ScanError>>, ta: seq<Step<ScanError>>, ka: nat,
                                 nb: nat, sb: seq<State<Batch, ScanError>>, tb: seq<Step<ScanError>>, kb: nat)
    requires a <= b && Within(env, fs, NamesOf(target))
    requires IsRun(ScanJob(buffer, files, Extracted(fs)), na, sa, ta) && ka < |sa| && na > 0 && AllExited(sa[ka]) && sa[ka].failure.None?
    requires IsRun(ScanJob(buffer, files, Extracted(fs)), nb, sb, tb) && kb < |sb| && nb > 0 && AllExited(sb[kb]) && sb[kb].failure.None?
    ensures var job := ScanJob(buffer, files, Extracted(fs));
            var la, lb := Outcome(job, sa[ka]), Outcome(job, sb[kb]);
            && la.Ok? && lb.Ok?
            && (NoneBlocked(SessionRestrictions(schema, deletes, b), lb.value) ==>
                  NoneBlocked(SessionRestrictions(schema, deletes, a), la.value))
            && Thins(Over(Returned(env, fs, SessionRestrictions(schema, deletes, a), target), la.value),
                     Over(Returned(env, fs, SessionRestrictions(schema, deletes, b), target), lb.value))
  {
    SameLoad(ScanJob(buffer, files, Extracted(fs)), na, sa, ta, ka, nb, sb, tb, kb);
    var loaded := Outcome(ScanJob(buffer, files, Extracted(fs)), sa[ka]).value;
    BlocksFewer(schema, deletes, a, b, loaded);
    RevealsMore(env, fs, schema, deletes, a, b, target, loaded);
  }

  /** Any two interleavings that do not fail load the same. */
  lemma SameLoad<B, E>(job: Job<B, E>, na: nat, sa: seq<State<B, E>>, ta: seq<Step<E>>, ka: nat,
                       nb: nat, sb: seq<State<B, E>>, tb: seq<Step<E>>, kb: nat)
    requires IsRun(job, na, sa, ta) && ka < |sa| && na > 0 && AllExited(sa[ka]) && sa[ka].failure.None?
    requires IsRun(job, nb, sb, tb) && kb < |sb| && nb > 0 && AllExited(sb[kb]) && sb[kb].failure.None?
    ensures Outcome(job, sa[ka]).Ok? && Outcome(job, sa[ka]) == Outcome(job, sb[kb])
  {
    RefinesSerial(job, na, sa, ta, ka);
    RefinesSerial(job, nb, sb, tb, kb);
  }

  lemma BlocksFewer(schema: seq<Column>, deletes: seq<Tombstone>, a: set<string>, b: set<string>, bs: seq<Batch>)
    requires a <= b
    ensures NoneBlocked(SessionRestrictions(schema, deletes, b), bs) ==> NoneBlocked(SessionRestrictions(schema, deletes, a), bs)
  {
    var ra, rb := SessionRestrictions(schema, deletes, a), SessionRestrictions(schema, deletes, b);
    forall batch | batch in bs && Blocked(ra, batch) ensures Blocked(rb, batch) { BlockedMore(schema, deletes, a, b, batch); }
  }

  lemma RevealsMore(env: Env, fs: seq<Expr>, schema: seq<Column>, deletes: seq<Tombstone>, a: set<string>, b: set<string>,
                    target: seq<Column>, bs: seq<Batch>)
    requires a <= b && Within(env, fs, NamesOf(target))
    ensures Thins(Over(Returned(env, fs, SessionRestrictions(schema, deletes, a), target), bs),
                  Over(Returned(env, fs, SessionRestrictions(schema, deletes, b), target), bs))
  {
    var ra, rb := SessionRestrictions(schema, deletes, a), SessionRestrictions(schema, deletes, b);
    ReturnedOver(env, fs, ra, target, bs);
    ReturnedOver(env, fs, rb, target, bs);
    forall batch | batch in bs
      ensures Thins(Answering(env, fs, ra, Aligning(target))(batch), Answering(env, fs, rb, Aligning(target))(batch))
    {
      SeesMore(env, fs, schema, deletes, a, b, target, batch);
    }
    ThinsOver(Answering(env, fs, ra, Aligning(target)), Answering(env, fs, rb, Aligning(target)), bs);
  }
}
