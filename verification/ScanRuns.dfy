/** A whole filtered scan: concurrent workers, pruned files, one answer. */
module ScanRuns {
  import opened Basics
  import opened Batches
  import opened Pruning
  import opened Scan
  import opened Loader
  import opened Restrictions
  import opened Projection

  /** What a function of batches gives over several, in order. */
  function Over<B, R>(f: B -> seq<R>, bs: seq<B>): seq<R> {
    if bs == [] then [] else Over(f, Init(bs)) + f(Last(bs))
  }

  lemma {:induction false} OverAppend<B, R>(f: B -> seq<R>, a: seq<B>, b: seq<B>)
    ensures Over(f, a + b) == Over(f, a) + Over(f, b)
  {
    if b == [] {
      assert a + b == a;
    } else {
      OverAppend(f, a, Init(b));
      assert Init(a + b) == a + Init(b);
      ConcatAssoc(Over(f, a), Over(f, Init(b)), f(Last(b)));
    }
  }

  function Batched<B>(slot: Option<seq<B>>): seq<B> { if slot.None? then [] else slot.value }

  /** If every slot answers as its whole file does, so do all of them together. */
  lemma {:induction false} OverSlots<B, R>(f: B -> seq<R>, slots: seq<Option<seq<B>>>, wholes: seq<B>)
    requires |slots| == |wholes| && forall i :: 0 <= i < |slots| ==> Over(f, Batched(slots[i])) == f(wholes[i])
    ensures Over(f, InOrder(slots)) == Over(f, wholes)
  {
    if slots != [] {
      OverSlots(f, Init(slots), Init(wholes));
      OverAppend(f, InOrder(Init(slots)), Batched(Last(slots)));
    }
  }

  /** What a query makes of a batch: the rows that every restriction lets through and that pass
   *  the filters, each read by `out`. */
  function Answering<R>(env: Env, fs: seq<Expr>, rs: seq<Restriction>, out: seq<Column> -> Cells -> R): Batch -> seq<R> {
    (b: Batch) => Map(Filter(Filter(b.rows, AllLet(rs, b.cols)), Passing(env, b.cols, fs)), out(b.cols))
  }

  lemma FiltersCommute<T(!new)>(s: seq<T>, a: T -> bool, b: T -> bool)
    ensures Filter(Filter(s, a), b) == Filter(Filter(s, b), a)
  {
    var both := (x: T) => a(x) && b(x);
    FilterTwice(s, a, b, both);
    FilterTwice(s, b, a, both);
  }

  function Whole(f: DataFile): Batch { Batch(f.cols, RowsIn(f.groups)) }

  function WholeAll(files: seq<DataFile>): seq<Batch> { Map(files, Whole) }

  /** The loader's view of one file. */
  function FileJob(f: DataFile, p: Pruning): File<Batch, ScanError> {
    var r := LoadOneFile(f, p);
    File(if r.Err? then Err(r.error) else Ok(if r.value.None? then None else Some([Batch(f.cols, r.value.value)])),
         if OutsideTime(f, p) then None else Some(GroupsOf(f, p)))
  }

  function GroupsOf(f: DataFile, p: Pruning): Groups {
    var n, kept := |f.groups|, |Kept(f, p.tags)|;
    var byStats := if p.tags == [] then n else |KeptBelow(n, ByStats(f, p.tags))|;
    Groups(if n >= byStats then n - byStats else 0, if byStats >= kept then byStats - kept else 0, kept)
  }

  function ScanJob(buffer: seq<Batch>, files: seq<DataFile>, p: Pruning): Job<Batch, ScanError> {
    Job(buffer, seq(|files|, i requires 0 <= i < |files| => FileJob(files[i], p)))
  }

  lemma FileAnswers<R>(env: Env, fs: seq<Expr>, rs: seq<Restriction>, out: seq<Column> -> Cells -> R, f: DataFile, slot: Option<seq<Batch>>)
    requires FileOk(f) && Prunable(env, fs) && FileJob(f, Extracted(fs)).content == Ok(slot)
    ensures Over(Answering(env, fs, rs, out), Batched(slot)) == Answering(env, fs, rs, out)(Whole(f))
  {
    PruningKeepsAnswers(env, f, fs);
    var let, pass := AllLet(rs, f.cols), Passing(env, f.cols, fs);
    FiltersCommute(LoadedRows(LoadOneFile(f, Extracted(fs)).value), let, pass);
    FiltersCommute(RowsIn(f.groups), let, pass);
    OverOne(Answering(env, fs, rs, out), Batched(slot));
  }

  lemma OverOne<B, R>(f: B -> seq<R>, bs: seq<B>)
    ensures |bs| == 1 ==> Over(f, bs) == f(bs[0])
  {
    if |bs| == 1 { assert Init(bs) == [] && Over(f, bs) == [] + f(bs[0]); }
  }

  /** In every interleaving that ends without a failure, restricting and filtering what the
   *  pruned scan returns gives exactly what restricting and filtering the buffer and every
   *  whole file gives, in the same order and however the rows are then read. */
  lemma ScanAnswers<R>(env: Env, fs: seq<Expr>, rs: seq<Restriction>, out: seq<Column> -> Cells -> R,
                       buffer: seq<Batch>, files: seq<DataFile>, n: nat, ss: seq<State<Batch, ScanError>>, ts: seq<Step<ScanError>>, k: nat)
    requires Prunable(env, fs) && forall i :: 0 <= i < |files| ==> FileOk(files[i])
    requires IsRun(ScanJob(buffer, files, Extracted(fs)), n, ss, ts) && k < |ss| && n > 0 && AllExited(ss[k])
    ensures var loaded, answer := Outcome(ScanJob(buffer, files, Extracted(fs)), ss[k]), Answering(env, fs, rs, out);
            ss[k].failure.None? ==> loaded.Ok? && Over(answer, loaded.value) == Over(answer, buffer + WholeAll(files))
  {
    var job, answer := ScanJob(buffer, files, Extracted(fs)), Answering(env, fs, rs, out);
    RefinesSerial(job, n, ss, ts, k);
    if ss[k].failure.None? {
      var slots, wholes := Contents(job), WholeAll(files);
      forall i | 0 <= i < |files| ensures Over(answer, Batched(slots[i])) == answer(wholes[i]) {
        FileAnswers(env, fs, rs, out, files[i], slots[i]);
      }
      OverSlots(answer, slots, wholes);
      OverAppend(answer, buffer, InOrder(slots));
      OverAppend(answer, buffer, wholes);
    }
  }
}
