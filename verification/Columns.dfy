/** Named columns that grow one row at a time: what appending a row does to a table kept as
 *  columns, whatever the columns are made of. */
module Columns {
  import opened Basics

  /** The value a row gives a key: the last one, if it repeats. */
  function LastOf<V>(row: seq<(string, V)>, k: string): Option<V> {
    if row == [] then None else if Last(row).0 == k then Some(Last(row).1) else LastOf(Init(row), k)
  }

  /** How to read a column of type C: its length, its cells, and whether it is sound. */
  datatype Reading<!C, V> = Reading(len: C -> nat, at: (C, nat) -> Option<V>, ok: C -> bool)

  /** Every column is sound and n rows long. */
  ghost predicate Even<C, V>(r: Reading<C, V>, cols: map<string, C>, n: nat) {
    forall k :: k in cols ==> r.ok(cols[k]) && r.len(cols[k]) == n
  }

  /** Row i as a map from the columns that have a value there. */
  ghost function RowAt<C, V>(r: Reading<C, V>, cols: map<string, C>, i: nat): map<string, V> {
    map k | k in cols && r.at(cols[k], i).Some? :: r.at(cols[k], i).value
  }

  /** The column behind k before the row came, empty if there was none. */
  ghost function Was<C, V>(r: Reading<C, V>, before: map<string, C>, k: string, i: nat): Option<V> {
    if k in before then r.at(before[k], i) else None
  }

  /** Column c of key k midway: the first n rows as they were, and the row's value for k once
   *  it has been pushed. */
  ghost predicate Midway<C, V>(r: Reading<C, V>, before: map<string, C>, c: C, n: nat, k: string, value: Option<V>) {
    && r.ok(c) && r.len(c) == (if value.None? then n else n + 1)
    && (forall i :: 0 <= i < n ==> r.at(c, i) == Was(r, before, k, i))
    && (value.Some? ==> r.at(c, n) == value)
  }

  /** Part of a row has been pushed. */
  ghost predicate Pushed<C, V>(r: Reading<C, V>, before: map<string, C>, cols: map<string, C>, n: nat, done: seq<(string, V)>) {
    && (forall k :: k in cols <==> k in before || LastOf(done, k).Some?)
    && (forall k :: k in cols ==> Midway(r, before, cols[k], n, k, LastOf(done, k)))
  }

  lemma PushedNone<C, V>(r: Reading<C, V>, before: map<string, C>, n: nat)
    requires Even(r, before, n)
    ensures Pushed(r, before, before, n, [])
  {
  }

  lemma LastOfSnoc<V>(done: seq<(string, V)>, k: string, v: V, j: string)
    ensures LastOf(done + [(k, v)], j) == if j == k then Some(v) else LastOf(done, j)
  {
    assert Init(done + [(k, v)]) == done;
  }

  /** Pushing one more key. */
  lemma PushedMore<C, V>(r: Reading<C, V>, before: map<string, C>, cols: map<string, C>, n: nat, done: seq<(string, V)>,
                         k: string, v: V, c: C)
    requires Pushed(r, before, cols, n, done) && Midway(r, before, c, n, k, Some(v))
    ensures Pushed(r, before, cols[k := c], n, done + [(k, v)])
  {
    forall j ensures LastOf(done + [(k, v)], j) == if j == k then Some(v) else LastOf(done, j) { LastOfSnoc(done, k, v, j); }
  }

  /** Column c of key k when the row is done. */
  ghost predicate Finished<C, V>(r: Reading<C, V>, before: map<string, C>, c: C, n: nat, k: string, value: Option<V>) {
    && r.ok(c) && r.len(c) == n + 1
    && (forall i :: 0 <= i < n ==> r.at(c, i) == Was(r, before, k, i))
    && r.at(c, n) == value
  }

  /** Every column is one longer, old rows read as before, and the new row is the last value
   *  of each of its keys. */
  lemma AppendedRow<C, V>(r: Reading<C, V>, before: map<string, C>, cols: map<string, C>, n: nat, row: seq<(string, V)>)
    requires forall k :: k in cols <==> k in before || LastOf(row, k).Some?
    requires forall k :: k in cols ==> Finished(r, before, cols[k], n, k, LastOf(row, k))
    ensures Even(r, cols, n + 1)
    ensures forall i :: 0 <= i < n ==> RowAt(r, cols, i) == RowAt(r, before, i)
    ensures RowAt(r, cols, n) == LastMap(row) && cols.Keys == before.Keys + LastMap(row).Keys
  {
    forall i | 0 <= i < n ensures RowAt(r, cols, i) == RowAt(r, before, i) { OldRow(r, before, cols, n, row, i); }
    forall k ensures k in LastMap(row) <==> LastOf(row, k).Some? { LastMapIs(row, k); }
    forall k | k in LastMap(row) ensures LastOf(row, k) == Some(LastMap(row)[k]) { LastMapIs(row, k); }
  }

  lemma OldRow<C, V>(r: Reading<C, V>, before: map<string, C>, cols: map<string, C>, n: nat, row: seq<(string, V)>, i: nat)
    requires forall k :: k in cols <==> k in before || LastOf(row, k).Some?
    requires (forall k :: k in cols ==> Finished(r, before, cols[k], n, k, LastOf(row, k))) && i < n
    ensures RowAt(r, cols, i) == RowAt(r, before, i)
  {
    forall k | k in cols ensures r.at(cols[k], i) == Was(r, before, k, i) {
      assert Finished(r, before, cols[k], n, k, LastOf(row, k));
    }
  }

  /** A row's keys with their last values. */
  function LastMap<V>(row: seq<(string, V)>): map<string, V> {
    if row == [] then map[] else LastMap(Init(row))[Last(row).0 := Last(row).1]
  }

  lemma {:induction false} LastMapIs<V>(row: seq<(string, V)>, k: string)
    ensures LastOf(row, k) == if k in LastMap(row) then Some(LastMap(row)[k]) else None
  {
    if row != [] { LastMapIs(Init(row), k); }
  }

  /** v is the last value the row gives k. */
  ghost predicate IsLast<V>(row: seq<(string, V)>, k: string, v: V) {
    exists i :: 0 <= i < |row| && row[i] == (k, v) && forall j :: i < j < |row| ==> row[j].0 != k
  }

  lemma IsLastSnoc<V>(row: seq<(string, V)>, before: seq<(string, V)>, k: string, v: V)
    requires row != [] && before == Init(row)
    ensures IsLast(row, k, v) <==> (if Last(row).0 == k then Last(row).1 == v else IsLast(before, k, v))
  {
    var n := |row| - 1;
    assert forall i :: 0 <= i < n ==> before[i] == row[i];
    if Last(row) == (k, v) { assert row[n] == (k, v); }
    if IsLast(before, k, v) && Last(row).0 != k {
      var i :| 0 <= i < |before| && before[i] == (k, v) && forall j :: i < j < |before| ==> before[j].0 != k;
      assert row[i] == (k, v);
    }
    if IsLast(row, k, v) {
      var i :| 0 <= i < |row| && row[i] == (k, v) && forall j :: i < j < |row| ==> row[j].0 != k;
      if i < n { assert row[n].0 != k && before[i] == (k, v); }
    }
  }

  lemma {:induction false} LastMapSays<V>(row: seq<(string, V)>, k: string, v: V)
    ensures k in LastMap(row) && LastMap(row)[k] == v <==> IsLast(row, k, v)
  {
    if row != [] {
      LastMapSays(Init(row), k, v);
      IsLastSnoc(row, Init(row), k, v);
    }
  }

  // ----- names in order of appearance

  function Appear<V>(names: seq<string>, row: seq<(string, V)>): seq<string> {
    if row == [] then names
    else
      var before := Appear(names, Init(row));
      if Last(row).0 in before then before else before + [Last(row).0]
  }

  /** Where the row first mentions k; its length if it does not. */
  function FirstIndex<V>(row: seq<(string, V)>, k: string): (i: nat)
    ensures i <= |row| && (i < |row| ==> row[i].0 == k) && forall j :: 0 <= j < i ==> row[j].0 != k
  {
    if row == [] then 0
    else
      var before := FirstIndex(Init(row), k);
      if before < |row| - 1 then before else if Last(row).0 == k then |row| - 1 else |row|
  }

  /** Known names stay in front; new ones follow in the order the row first mentions them. */
  ghost predicate InOrderOfAppearance<V>(names: seq<string>, row: seq<(string, V)>, now: seq<string>) {
    && names <= now && (forall k :: k in now <==> k in names || FirstIndex(row, k) < |row|)
    && (forall i :: |names| <= i < |now| ==> now[i] !in names)
    && (forall i, j :: |names| <= i < j < |now| ==> FirstIndex(row, now[i]) < FirstIndex(row, now[j]))
  }

  lemma FirstIndexInit<V>(row: seq<(string, V)>, before: seq<(string, V)>, k: string)
    requires row != [] && before == Init(row)
    ensures FirstIndex(before, k) < |before| ==> FirstIndex(row, k) == FirstIndex(before, k)
    ensures FirstIndex(before, k) == |before| ==> FirstIndex(row, k) == if Last(row).0 == k then |row| - 1 else |row|
  {
  }

  lemma {:induction false} AppearIs<V>(names: seq<string>, row: seq<(string, V)>)
    ensures InOrderOfAppearance(names, row, Appear(names, row))
  {
    if row != [] {
      var before, was := Init(row), Appear(names, Init(row));
      AppearIs(names, before);
      forall k
        ensures FirstIndex(before, k) < |before| ==> FirstIndex(row, k) == FirstIndex(before, k)
        ensures FirstIndex(before, k) == |before| ==> FirstIndex(row, k) == if Last(row).0 == k then |row| - 1 else |row|
      {
        FirstIndexInit(row, before, k);
      }
      AppearNext(names, row, before, was, Appear(names, row));
    }
  }

  lemma FirstSame<V>(names: seq<string>, row: seq<(string, V)>, before: seq<(string, V)>, was: seq<string>, i: nat)
    requires row != [] && before == Init(row) && InOrderOfAppearance(names, before, was) && |names| <= i < |was|
    ensures FirstIndex(before, was[i]) < |before| && FirstIndex(row, was[i]) == FirstIndex(before, was[i])
  {
    assert was[i] in was;
    FirstIndexInit(row, before, was[i]);
  }

  lemma AppearNext<V>(names: seq<string>, row: seq<(string, V)>, before: seq<(string, V)>, was: seq<string>, now: seq<string>)
    requires row != [] && before == Init(row) && InOrderOfAppearance(names, before, was)
    requires now == if Last(row).0 in was then was else was + [Last(row).0]
    requires forall k :: FirstIndex(before, k) < |before| ==> FirstIndex(row, k) == FirstIndex(before, k)
    requires forall k :: FirstIndex(before, k) == |before| ==> FirstIndex(row, k) == if Last(row).0 == k then |row| - 1 else |row|
    ensures InOrderOfAppearance(names, row, now)
  {
    forall i | |names| <= i < |was| ensures FirstIndex(before, was[i]) < |before| && FirstIndex(row, was[i]) == FirstIndex(before, was[i]) {
      FirstSame(names, row, before, was, i);
    }
  }

  /** `resize` with nulls. */
  function Resize<T>(s: seq<Option<T>>, n: nat): (r: seq<Option<T>>)
    ensures |r| == n && forall i :: 0 <= i < n ==> r[i] == if i < |s| then s[i] else None
  {
    if |s| >= n then s[..n] else s + seq(n - |s|, _ => None)
  }

  /** Every column changed once, going through the names. */
  method EachColumn<C>(names: seq<string>, cols: map<string, C>, change: C -> C) returns (out: map<string, C>)
    requires Lists(names, cols.Keys)
    ensures out == map k | k in cols :: change(cols[k])
  {
    out := cols;
    assert forall i :: 0 <= i < |names| ==> names[i] in names;
    for j := 0 to |names|
      invariant out.Keys == cols.Keys
      invariant forall i :: 0 <= i < |names| ==> out[names[i]] == if i < j then change(cols[names[i]]) else cols[names[i]]
    {
      out := out[names[j] := change(out[names[j]])];
    }
    assert forall k :: k in cols ==> k in names;
  }

  /** Nothing changes below row n, and row n is new. */
  ghost predicate Grew<C, V>(r: Reading<C, V>, before: map<string, C>, cols: map<string, C>, n: nat, row: map<string, V>) {
    && Even(r, cols, n + 1) && RowAt(r, cols, n) == row && cols.Keys == before.Keys + row.Keys
    && forall i :: 0 <= i < n ==> RowAt(r, cols, i) == RowAt(r, before, i)
  }

  /** Finishing every column of a pushed row. */
  lemma FinishedAll<C, V>(r: Reading<C, V>, before: map<string, C>, cols: map<string, C>, n: nat, row: seq<(string, V)>,
                          finish: C -> C, out: map<string, C>)
    requires Pushed(r, before, cols, n, row) && out == map k | k in cols :: finish(cols[k])
    requires forall k :: k in cols ==> Finished(r, before, finish(cols[k]), n, k, LastOf(row, k))
    ensures Grew(r, before, out, n, LastMap(row)) && out.Keys == cols.Keys
  {
    AppendedRow(r, before, out, n, row);
  }
}
