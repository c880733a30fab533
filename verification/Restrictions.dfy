/** Mandatory restrictions: row visibility and targeted deletes, enforced on every batch of a
 *  scan whatever the query projects. */
module Restrictions {
  import opened Basics
  import opened Batches
  import opened Scan
  import Manifest

  type Tombstone = Manifest.Tombstone

  /** `visible` decides a label for the session's authorizations. */
  datatype Restriction = Visibility(column: string, visible: string -> bool) | Deletes(deletes: seq<Tombstone>)

  datatype Failure = LabelNotText(column: string) | DeleteTagNotText(column: string)

  // ----- one row

  /** A null label, like a missing one, is public. */
  predicate Shows(visible: string -> bool, tag: Cell) { tag.Text? ==> visible(tag.s) }

  predicate Bounded(t: Tombstone) { t.minTs.Some? || t.maxTs.Some? }

  /** The window is inclusive at both ends. */
  predicate InWindow(t: Tombstone, ns: int) {
    (t.minTs.Some? ==> t.minTs.value <= ns) && (t.maxTs.Some? ==> ns <= t.maxTs.value)
  }

  predicate TagsMatch(tags: seq<(string, string)>, get: string -> Cell) {
    forall k :: 0 <= k < |tags| ==> get(tags[k].0) == Text(tags[k].1)
  }

  predicate Deleted(t: Tombstone, get: string -> Cell) {
    TagsMatch(t.tagEquals, get) && (Bounded(t) ==> get("time").Stamp? && InWindow(t, get("time").ns))
  }

  /** What a restriction lets through, said of a row alone: a missing column reads as null. */
  predicate Lets(r: Restriction, get: string -> Cell) {
    match r
    case Visibility(column, visible) => Shows(visible, get(column))
    case Deletes(deletes) => forall k :: 0 <= k < |deletes| ==> !Deleted(deletes[k], get)
  }

  // ----- one batch, column by column

  function KindOf(cols: seq<Column>, name: string): Option<Kind> {
    var i := FindCol(cols, name);
    if i.None? then None else Some(cols[i.value].kind)
  }

  /** `read_ts_nanos` at one row: a null time reads as the smallest instant. */
  function ReadTs(kind: Option<Kind>, time: Cell): Option<int> {
    match kind
    case Some(Time) => Some(if time.Stamp? then time.ns else I64_MIN)
    case Some(Field(1)) => Some(if time.Value? then time.v else I64_MIN)
    case _ => None
  }

  /** A delete's tags against a batch's columns: all text, one missing first, or one that is
   *  not text first. */
  datatype Fit = Fits | Missing | Unfit(column: string)

  function TagFit(cols: seq<Column>, tags: seq<(string, string)>): Fit {
    if tags == [] then Fits
    else
      var before, kind := TagFit(cols, Init(tags)), KindOf(cols, Last(tags).0);
      if !before.Fits? then before
      else if kind.None? then Missing
      else if !IsText(kind.value) then Unfit(Last(tags).0)
      else Fits
  }

  predicate WithinIn(cols: seq<Column>, t: Tombstone, row: Cells) {
    var ns := ReadTs(KindOf(cols, "time"), Get(cols, row, "time"));
    Bounded(t) ==> ns.Some? && InWindow(t, ns.value)
  }

  predicate DeletedIn(cols: seq<Column>, t: Tombstone, row: Cells) {
    TagFit(cols, t.tagEquals).Fits? && TagsMatch(t.tagEquals, Getter(cols, row)) && WithinIn(cols, t, row)
  }

  /** The first delete whose tags name a column that is not text. */
  function FirstBad(cols: seq<Column>, deletes: seq<Tombstone>): Option<string> {
    if deletes == [] then None
    else
      var before, fit := FirstBad(cols, Init(deletes)), TagFit(cols, Last(deletes).tagEquals);
      if before.Some? then before else if fit.Unfit? then Some(fit.column) else None
  }

  predicate Survives(cols: seq<Column>, deletes: seq<Tombstone>, row: Cells) {
    forall k :: 0 <= k < |deletes| ==> !DeletedIn(cols, deletes[k], row)
  }

  function Surviving(cols: seq<Column>, deletes: seq<Tombstone>): Cells -> bool {
    (row: Cells) => Survives(cols, deletes, row)
  }

  function Showing(cols: seq<Column>, column: string, visible: string -> bool): Cells -> bool {
    (row: Cells) => Shows(visible, Get(cols, row, column))
  }

  /** One restriction on one batch. */
  function Applied(r: Restriction, b: Batch): Result<Batch, Failure> {
    match r
    case Visibility(column, visible) =>
      var kind := KindOf(b.cols, column);
      if kind.None? then Ok(b)
      else if !IsText(kind.value) then Err(LabelNotText(column))
      else Ok(Batch(b.cols, Filter(b.rows, Showing(b.cols, column, visible))))
    case Deletes(deletes) =>
      var bad := FirstBad(b.cols, deletes);
      if b.rows == [] || deletes == [] then Ok(b)
      else if bad.Some? then Err(DeleteTagNotText(bad.value))
      else Ok(Batch(b.cols, Filter(b.rows, Surviving(b.cols, deletes))))
  }

  function AppliedAll(rs: seq<Restriction>, b: Batch): Result<Batch, Failure> {
    if rs == [] then Ok(b)
    else
      var before := AppliedAll(rs[..|rs| - 1], b);
      if before.Err? then before else Applied(rs[|rs| - 1], before.value)
  }

  // ----- the loops that compute it

  /** The rows whose mask is set. */
  function Masked(rows: seq<Cells>, mask: seq<bool>): seq<Cells>
    requires |mask| == |rows|
  {
    if rows == [] then [] else (if mask[0] then [rows[0]] else []) + Masked(rows[1..], mask[1..])
  }

  lemma {:induction false} MaskedIsFilter(rows: seq<Cells>, mask: seq<bool>, keep: Cells -> bool)
    requires |mask| == |rows| && forall i :: 0 <= i < |rows| ==> mask[i] == keep(rows[i])
    ensures Masked(rows, mask) == Filter(rows, keep)
  {
    if rows != [] {
      assert forall i :: 0 <= i < |rows[1..]| ==> mask[1..][i] == keep(rows[1..][i]);
      MaskedIsFilter(rows[1..], mask[1..], keep);
    }
  }

  /** `apply_visibility`: each distinct label is decided once. */
  method ApplyVisibility(column: string, visible: string -> bool, b: Batch) returns (r: Result<Batch, Failure>)
    ensures r == Applied(Visibility(column, visible), b)
  {
    var i := FindCol(b.cols, column);
    if i.None? { return Ok(b); }
    if !IsText(b.cols[i.value].kind) { return Err(LabelNotText(column)); }
    var memo: map<string, bool> := map[];
    var mask: seq<bool> := [];
    for k := 0 to |b.rows|
      invariant forall s :: s in memo ==> memo[s] == visible(s)
      invariant |mask| == k && forall j :: 0 <= j < k ==> mask[j] == Showing(b.cols, column, visible)(b.rows[j])
    {
      var c := Get(b.cols, b.rows[k], column);
      if c.Text? {
        if c.s !in memo { memo := memo[c.s := visible(c.s)]; }
        mask := mask + [memo[c.s]];
      } else {
        mask := mask + [true];
      }
    }
    MaskedIsFilter(b.rows, mask, Showing(b.cols, column, visible));
    r := Ok(Batch(b.cols, Masked(b.rows, mask)));
  }

  /** Folds one delete's tag equalities into `matches`. */
  method MatchTags(b: Batch, tags: seq<(string, string)>, matches: array<bool>) returns (fit: Fit)
    requires matches.Length == |b.rows| && forall i :: 0 <= i < |b.rows| ==> matches[i]
    modifies matches
    ensures fit == TagFit(b.cols, tags)
    ensures fit.Fits? ==> forall i :: 0 <= i < |b.rows| ==> matches[i] == TagsMatch(tags, Getter(b.cols, b.rows[i]))
  {
    for k := 0 to |tags|
      invariant TagFit(b.cols, tags[..k]).Fits?
      invariant forall i :: 0 <= i < |b.rows| ==> matches[i] == TagsMatch(tags[..k], Getter(b.cols, b.rows[i]))
    {
      assert Init(tags[..k + 1]) == tags[..k];
      var kind := KindOf(b.cols, tags[k].0);
      if kind.None? || !IsText(kind.value) {
        FitStops(b.cols, tags, k + 1);
        return if kind.None? then Missing else Unfit(tags[k].0);
      }
      MatchTag(b, tags, k, matches);
    }
    assert tags[..|tags|] == tags;
    fit := Fits;
  }

  method MatchTag(b: Batch, tags: seq<(string, string)>, k: nat, matches: array<bool>)
    requires k < |tags| && matches.Length == |b.rows|
    requires forall i :: 0 <= i < |b.rows| ==> matches[i] == TagsMatch(tags[..k], Getter(b.cols, b.rows[i]))
    modifies matches
    ensures forall i :: 0 <= i < |b.rows| ==> matches[i] == TagsMatch(tags[..k + 1], Getter(b.cols, b.rows[i]))
  {
    for i := 0 to |b.rows|
      invariant forall j :: i <= j < |b.rows| ==> matches[j] == TagsMatch(tags[..k], Getter(b.cols, b.rows[j]))
      invariant forall j :: 0 <= j < i ==> matches[j] == TagsMatch(tags[..k + 1], Getter(b.cols, b.rows[j]))
    {
      MatchMore(tags, k, Getter(b.cols, b.rows[i]));
      matches[i] := matches[i] && Get(b.cols, b.rows[i], tags[k].0) == Text(tags[k].1);
    }
  }

  lemma MatchMore(tags: seq<(string, string)>, k: nat, get: string -> Cell)
    requires k < |tags|
    ensures TagsMatch(tags[..k + 1], get) <==> TagsMatch(tags[..k], get) && get(tags[k].0) == Text(tags[k].1)
  {
    var a, b := tags[..k], tags[..k + 1];
    assert b == a + [tags[k]];
    if TagsMatch(b, get) {
      assert get(b[k].0) == Text(b[k].1);
      forall j | 0 <= j < k ensures get(a[j].0) == Text(a[j].1) { assert a[j] == b[j]; }
    }
  }

  lemma {:induction false} FitStops(cols: seq<Column>, tags: seq<(string, string)>, k: nat)
    requires k <= |tags| && !TagFit(cols, tags[..k]).Fits?
    ensures TagFit(cols, tags) == TagFit(cols, tags[..k])
  {
    if k < |tags| {
      InitPrefix(tags, k);
      FitStops(cols, Init(tags), k);
    } else {
      assert tags[..k] == tags;
    }
  }

  /** Narrows `matches` to the rows inside the delete's window; false when there is no usable
   *  time column to confirm it. */
  method MatchWindow(b: Batch, t: Tombstone, matches: array<bool>) returns (usable: bool)
    requires matches.Length == |b.rows|
    modifies matches
    ensures usable ==> forall i :: 0 <= i < |b.rows| ==> matches[i] == (old(matches[i]) && WithinIn(b.cols, t, b.rows[i]))
    ensures !usable ==> forall i :: 0 <= i < |b.rows| ==> !WithinIn(b.cols, t, b.rows[i])
  {
    if !Bounded(t) { return true; }
    var kind := KindOf(b.cols, "time");
    usable := kind == Some(Time) || kind == Some(Field(1));
    if usable {
      for i := 0 to |b.rows|
        invariant forall j :: i <= j < |b.rows| ==> matches[j] == old(matches[j])
        invariant forall j :: 0 <= j < i ==> matches[j] == (old(matches[j]) && WithinIn(b.cols, t, b.rows[j]))
      {
        var ns := ReadTs(kind, Get(b.cols, b.rows[i], "time")).value;
        matches[i] := matches[i] && (t.minTs.Some? ==> ns >= t.minTs.value) && (t.maxTs.Some? ==> ns <= t.maxTs.value);
      }
    }
  }

  /** Rows one delete matches; None when it cannot match in this batch. */
  method Matches(b: Batch, t: Tombstone) returns (r: Result<Option<array<bool>>, Failure>)
    ensures r.Err? <==> TagFit(b.cols, t.tagEquals).Unfit?
    ensures r.Err? ==> r.error == DeleteTagNotText(TagFit(b.cols, t.tagEquals).column)
    ensures r == Ok(None) ==> forall i :: 0 <= i < |b.rows| ==> !DeletedIn(b.cols, t, b.rows[i])
    ensures r.Ok? && r.value.Some? ==> fresh(r.value.value) && r.value.value.Length == |b.rows|
    ensures r.Ok? && r.value.Some? ==>
              forall i :: 0 <= i < |b.rows| ==> r.value.value[i] == DeletedIn(b.cols, t, b.rows[i])
  {
    var matches := new bool[|b.rows|](_ => true);
    var fit := MatchTags(b, t.tagEquals, matches);
    if fit.Unfit? { return Err(DeleteTagNotText(fit.column)); }
    if fit.Missing? { return Ok(None); }
    var usable := MatchWindow(b, t, matches);
    r := Ok(if usable then Some(matches) else None);
  }

  /** `apply_tombstone`: a row goes when any delete matches it. */
  method ApplyTombstone(deletes: seq<Tombstone>, b: Batch) returns (r: Result<Batch, Failure>)
    ensures r == Applied(Deletes(deletes), b)
  {
    if b.rows == [] || deletes == [] { return Ok(b); }
    var keep := new bool[|b.rows|](_ => true);
    for d := 0 to |deletes|
      invariant FirstBad(b.cols, deletes[..d]).None?
      invariant fresh(keep) && keep.Length == |b.rows|
      invariant forall i :: 0 <= i < |b.rows| ==> keep[i] == Survives(b.cols, deletes[..d], b.rows[i])
    {
      assert Init(deletes[..d + 1]) == deletes[..d];
      var m := Matches(b, deletes[d]);
      if m.Err? {
        BadStops(b.cols, deletes, d + 1);
        return Err(m.error);
      }
      Drop(b, deletes, d, m.value, keep);
    }
    assert deletes[..|deletes|] == deletes;
    MaskedIsFilter(b.rows, keep[..], Surviving(b.cols, deletes));
    r := Ok(Batch(b.cols, Masked(b.rows, keep[..])));
  }

  method Drop(b: Batch, deletes: seq<Tombstone>, d: nat, matches: Option<array<bool>>, keep: array<bool>)
    requires d < |deletes| && keep.Length == |b.rows|
    requires forall i :: 0 <= i < |b.rows| ==> keep[i] == Survives(b.cols, deletes[..d], b.rows[i])
    requires matches.Some? ==> matches.value != keep && matches.value.Length == |b.rows|
    requires forall i :: 0 <= i < |b.rows| ==>
               DeletedIn(b.cols, deletes[d], b.rows[i]) == (matches.Some? && matches.value[i])
    modifies keep
    ensures forall i :: 0 <= i < |b.rows| ==> keep[i] == Survives(b.cols, deletes[..d + 1], b.rows[i])
  {
    for i := 0 to |b.rows|
      invariant forall j :: i <= j < |b.rows| ==> keep[j] == Survives(b.cols, deletes[..d], b.rows[j])
      invariant forall j :: 0 <= j < i ==> keep[j] == Survives(b.cols, deletes[..d + 1], b.rows[j])
    {
      SurvivesMore(b.cols, deletes, d, b.rows[i]);
      if matches.Some? && matches.value[i] { keep[i] := false; }
    }
  }

  lemma SurvivesMore(cols: seq<Column>, deletes: seq<Tombstone>, d: nat, row: Cells)
    requires d < |deletes|
    ensures Survives(cols, deletes[..d + 1], row) <==> Survives(cols, deletes[..d], row) && !DeletedIn(cols, deletes[d], row)
  {
    var a, b := deletes[..d], deletes[..d + 1];
    assert b == a + [deletes[d]];
    if Survives(cols, b, row) {
      assert !DeletedIn(cols, b[d], row);
      forall j | 0 <= j < d ensures !DeletedIn(cols, a[j], row) { assert a[j] == b[j]; }
    }
  }

  lemma {:induction false} BadStops(cols: seq<Column>, deletes: seq<Tombstone>, d: nat)
    requires d <= |deletes| && FirstBad(cols, deletes[..d]).Some?
    ensures FirstBad(cols, deletes) == FirstBad(cols, deletes[..d])
  {
    if d < |deletes| {
      InitPrefix(deletes, d);
      BadStops(cols, Init(deletes), d);
    } else {
      assert deletes[..d] == deletes;
    }
  }
}
