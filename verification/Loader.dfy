/** The concurrent loader of a scan: workers share a claim counter, one slot per file and a
 *  failure cell.  Every interleaving returns what the serial loop would. */
module Loader {
  import opened Basics

  /** The files of one scan: what loading each yields if the store and the memory budget
   *  allow, and how its row groups are counted. */
  datatype Job<B, E> = Job(buffer: seq<B>, files: seq<File<B, E>>)

  /** `groups` is None when time bounds prune the file before its footer is read. */
  datatype File<B, E> = File(content: Result<Option<seq<B>>, E>, groups: Option<Groups>)

  datatype Groups = Groups(statsPruned: nat, bloomPruned: nat, scanned: nat)
  {
    function All(): nat { statsPruned + bloomPruned + scanned }
  }

  /** Where a worker is in its loop. */
  datatype Worker<B, E> =
    | Idle                                      // about to look at the failure cell
    | Ready                                     // about to claim
    | Claimed(i: nat)                           // about to look at the clock
    | Opening(i: nat)                           // loading; nothing counted yet
    | Considered(i: nat)                        // counted as considered
    | StatsDone(i: nat)                         // stats-pruned groups counted
    | BloomDone(i: nat)                         // bloom-pruned groups counted
    | Decoding(i: nat)                          // every group counted
    | Storing(i: nat, loaded: seq<B>)           // about to fill the slot
    | Failing(i: nat, error: E)                 // about to record the error
    | Exited

  datatype State<B, E> = State(
    next: nat, slots: seq<Option<seq<B>>>, failure: Option<E>, workers: seq<Worker<B, E>>,
    considered: nat, statsPruned: nat, bloomPruned: nat, scanned: nat)

  datatype Step<E> =
    | Look(w: nat) | Claim(w: nat) | Start(w: nat) | Expire(w: nat, error: E)
    | TimePrune(w: nat) | Consider(w: nat) | CountStats(w: nat) | CountBloom(w: nat) | CountScanned(w: nat)
    | Finish(w: nat) | Break(w: nat, error: E) | Store(w: nat) | Record(w: nat)

  function Start0<B, E>(job: Job<B, E>, workers: nat): State<B, E> {
    State(0, seq(|job.files|, _ => None), None, seq(workers, _ => Idle), 0, 0, 0, 0)
  }

  function Go<B, E>(s: State<B, E>, w: nat, to: Worker<B, E>): State<B, E>
    requires w < |s.workers|
  {
    s.(workers := s.workers[w := to])
  }

  /** The file a worker holds. */
  function Holding<B, E>(x: Worker<B, E>): Option<nat> {
    if x.Idle? || x.Ready? || x.Exited? then None else Some(x.i)
  }

  /** Whether worker w can take the step. */
  predicate Enabled<B, E>(job: Job<B, E>, s: State<B, E>, t: Step<E>) {
    t.w < |s.workers| &&
    var x := s.workers[t.w];
    (!x.Idle? && !x.Ready? && !x.Exited? ==> x.i < |job.files| && x.i < |s.slots|) &&
    match t
    case Look(_) => x.Idle?
    case Claim(_) => x.Ready?
    case Start(_) => x.Claimed?
    case Expire(_, _) => x.Claimed?
    case TimePrune(_) => x.Opening? && job.files[x.i].groups.None?
    case Consider(_) => x.Opening? && job.files[x.i].groups.Some?
    case CountStats(_) => x.Considered? && job.files[x.i].groups.Some?
    case CountBloom(_) => x.StatsDone? && job.files[x.i].groups.Some?
    case CountScanned(_) => x.BloomDone? && job.files[x.i].groups.Some?
    case Finish(_) => x.Decoding? && job.files[x.i].content.Ok?
    case Break(_, _) => x.Opening? || x.Decoding?
    case Store(_) => x.Storing?
    case Record(_) => x.Failing?
  }

  function After<B, E>(job: Job<B, E>, s: State<B, E>, t: Step<E>): State<B, E>
    requires Enabled(job, s, t)
  {
    var x := s.workers[t.w];
    match t
    case Look(w) => Go(s, w, if s.failure.Some? then Exited else Ready)
    case Claim(w) => Go(s, w, if s.next < |job.files| then Claimed(s.next) else Exited).(next := s.next + 1)
    case Start(w) => Go(s, w, Opening(x.i))
    case Expire(w, e) => Go(s, w, Exited).(failure := Some(e))
    case TimePrune(w) => Go(s, w, Decoding(x.i))
    case Consider(w) => Go(s, w, Considered(x.i)).(considered := s.considered + job.files[x.i].groups.value.All())
    case CountStats(w) =>
      Go(s, w, StatsDone(x.i)).(statsPruned := s.statsPruned + job.files[x.i].groups.value.statsPruned)
    case CountBloom(w) =>
      Go(s, w, BloomDone(x.i)).(bloomPruned := s.bloomPruned + job.files[x.i].groups.value.bloomPruned)
    case CountScanned(w) => Go(s, w, Decoding(x.i)).(scanned := s.scanned + job.files[x.i].groups.value.scanned)
    case Finish(w) =>
      var c := job.files[x.i].content.value;
      Go(s, w, if c.None? then Idle else Storing(x.i, c.value))
    case Break(w, e) => Go(s, w, Failing(x.i, e))
    case Store(w) => Go(s, w, Idle).(slots := s.slots[x.i := Some(x.loaded)])
    case Record(w) => Go(s, w, Exited).(failure := if s.failure.None? then Some(x.error) else s.failure)
  }

  // ----- invariant

  /** Each file before the counter is stored, or held by a worker, or there is a failure. */
  ghost predicate Accounted<B, E>(job: Job<B, E>, s: State<B, E>, i: nat) {
    i < |s.slots| && i < |job.files| && (s.failure.Some? || Filled(job, s, i) || HeldBySome(s.workers, i))
  }

  /** The slot has what the file's load yields. */
  ghost predicate Filled<B, E>(job: Job<B, E>, s: State<B, E>, i: nat) {
    i < |s.slots| && i < |job.files| && job.files[i].content == Ok(s.slots[i])
  }

  ghost predicate HeldBySome<B, E>(ws: seq<Worker<B, E>>, i: nat) {
    exists w :: 0 <= w < |ws| && Holding(ws[w]) == Some(i)
  }

  ghost predicate WorkerOk<B, E>(job: Job<B, E>, s: State<B, E>, x: Worker<B, E>) {
    && (Holding(x).Some? ==> Holding(x).value < |job.files| && Holding(x).value < s.next)
    && (x.Storing? ==> job.files[x.i].content == Ok(Some(x.loaded)))
    && (x.Considered? || x.StatsDone? || x.BloomDone? ==> job.files[x.i].groups.Some?)
    && (x.Exited? ==> s.failure.Some? || s.next >= |job.files|)
  }

  /** No file is held twice. */
  predicate Exclusive<B, E>(ws: seq<Worker<B, E>>) {
    forall v, w :: 0 <= v < w < |ws| && Holding(ws[v]).Some? ==> Holding(ws[v]) != Holding(ws[w])
  }

  ghost predicate Inv<B, E>(job: Job<B, E>, s: State<B, E>) {
    && |s.slots| == |job.files|
    && (forall w :: 0 <= w < |s.workers| ==> WorkerOk(job, s, s.workers[w]))
    && Exclusive(s.workers)
    && (forall i :: 0 <= i < |job.files| && i < s.next ==> Accounted(job, s, i))
    && (forall i :: 0 <= i < |job.files| ==> s.slots[i].None? || Filled(job, s, i))
  }

  /** What every step does to the shared state: worker w moves, the counter and the failure
   *  only grow, and a slot is filled only with its file's content. */
  ghost predicate Moves<B, E>(job: Job<B, E>, s: State<B, E>, w: nat, s': State<B, E>) {
    w < |s.workers| == |s'.workers| && |s'.slots| == |s.slots| && s.next <= s'.next <= s.next + 1 &&
    (forall v :: 0 <= v < |s.workers| && v != w ==> s'.workers[v] == s.workers[v]) &&
    (s.failure.Some? ==> s'.failure.Some?) &&
    (forall i :: 0 <= i < |s.slots| ==> s'.slots[i] == s.slots[i] || Filled(job, s', i))
  }

  /** Worker w lets go of a file only when it is stored or a failure is recorded, and takes
   *  only the file at the counter. */
  ghost predicate Handover<B, E>(job: Job<B, E>, s: State<B, E>, w: nat, s': State<B, E>) {
    w < |s.workers| == |s'.workers| && |s'.slots| == |s.slots| &&
    var before, now := Holding(s.workers[w]), Holding(s'.workers[w]);
    && (now == before || now.None? || (before.None? && now == Some(s.next) && s'.next == s.next + 1))
    && (s'.next == s.next + 1 && s.next < |job.files| ==> now == Some(s.next))
    && (before.Some? && now.None? ==>
          s'.failure.Some? || Filled(job, s', before.value))
  }

  lemma StepMoves<B, E>(job: Job<B, E>, s: State<B, E>, t: Step<E>)
    requires Inv(job, s) && Enabled(job, s, t)
    ensures Moves(job, s, t.w, After(job, s, t))
    ensures WorkerOk(job, After(job, s, t), After(job, s, t).workers[t.w])
  {
    assert WorkerOk(job, s, s.workers[t.w]);
  }

  lemma StepHandsOver<B, E>(job: Job<B, E>, s: State<B, E>, t: Step<E>)
    requires Inv(job, s) && Enabled(job, s, t)
    ensures Handover(job, s, t.w, After(job, s, t))
  {
    assert WorkerOk(job, s, s.workers[t.w]);
  }

  lemma StillHeld<B, E>(ws: seq<Worker<B, E>>, ws': seq<Worker<B, E>>, w: nat, i: nat)
    requires w < |ws| == |ws'| && (forall v :: 0 <= v < |ws| && v != w ==> ws'[v] == ws[v]) && HeldBySome(ws, i)
    requires Holding(ws[w]) == Some(i) ==> Holding(ws'[w]) == Some(i)
    ensures HeldBySome(ws', i)
  {
    var v :| 0 <= v < |ws| && Holding(ws[v]) == Some(i);
    assert Holding(ws'[v]) == Some(i);
  }

  lemma AccountedStays<B, E>(job: Job<B, E>, s: State<B, E>, w: nat, s': State<B, E>, i: nat)
    requires Moves(job, s, w, s') && Handover(job, s, w, s') && i < s.next && i < |job.files| && Accounted(job, s, i)
    ensures Accounted(job, s', i)
  {
    if s'.failure.None? && !Filled(job, s', i) { StillHeld(s.workers, s'.workers, w, i); }
  }

  lemma ExclusiveStays<B, E>(job: Job<B, E>, s: State<B, E>, w: nat, s': State<B, E>)
    requires Inv(job, s) && Moves(job, s, w, s') && Handover(job, s, w, s')
    ensures Exclusive(s'.workers)
  {
    var ws, ws' := s.workers, s'.workers;
    forall u, v | 0 <= u < v < |ws'| && Holding(ws'[u]).Some? ensures Holding(ws'[u]) != Holding(ws'[v]) {
      assert WorkerOk(job, s, ws[u]) && WorkerOk(job, s, ws[v]);
      assert Holding(ws[u]).Some? ==> Holding(ws[u]) != Holding(ws[v]);
    }
  }

  lemma StepKeeps<B, E>(job: Job<B, E>, s: State<B, E>, t: Step<E>)
    requires Inv(job, s) && Enabled(job, s, t)
    ensures Inv(job, After(job, s, t))
  {
    StepMoves(job, s, t);
    StepHandsOver(job, s, t);
    MoveKeeps(job, s, t.w, After(job, s, t));
  }

  lemma MoveKeeps<B, E>(job: Job<B, E>, s: State<B, E>, w: nat, s': State<B, E>)
    requires Inv(job, s) && Moves(job, s, w, s') && Handover(job, s, w, s') && WorkerOk(job, s', s'.workers[w])
    ensures Inv(job, s')
  {
    ExclusiveStays(job, s, w, s');
    forall v | 0 <= v < |s'.workers| ensures WorkerOk(job, s', s'.workers[v]) { assert WorkerOk(job, s, s.workers[v]); }
    forall i | 0 <= i < |job.files| && i < s'.next ensures Accounted(job, s', i) {
      if i < s.next {
        AccountedStays(job, s, w, s', i);
      } else {
        assert Holding(s'.workers[w]) == Some(i);
      }
    }
  }

  // ----- runs

  ghost predicate IsRun<B, E>(job: Job<B, E>, n: nat, ss: seq<State<B, E>>, ts: seq<Step<E>>) {
    && |ss| == |ts| + 1 && ss[0] == Start0(job, n)
    && forall k :: 0 <= k < |ts| ==> Enabled(job, ss[k], ts[k]) && ss[k + 1] == After(job, ss[k], ts[k])
  }

  lemma {:induction false} RunKeeps<B, E>(job: Job<B, E>, n: nat, ss: seq<State<B, E>>, ts: seq<Step<E>>, k: nat)
    requires IsRun(job, n, ss, ts) && k < |ss|
    ensures Inv(job, ss[k]) && |ss[k].workers| == n
  {
    if k > 0 {
      RunKeeps(job, n, ss, ts, k - 1);
      StepKeeps(job, ss[k - 1], ts[k - 1]);
      StepMoves(job, ss[k - 1], ts[k - 1]);
    }
  }

  /** Once every worker has returned: the error, or the buffer and then the slots in order. */
  function Outcome<B, E>(job: Job<B, E>, s: State<B, E>): Result<seq<B>, E> {
    if s.failure.Some? then Err(s.failure.value) else Ok(job.buffer + InOrder(s.slots))
  }

  function InOrder<B>(slots: seq<Option<seq<B>>>): seq<B> {
    if slots == [] then [] else InOrder(Init(slots)) + (if Last(slots).Some? then Last(slots).value else [])
  }

  predicate AllLoad<B, E>(job: Job<B, E>) { forall i :: 0 <= i < |job.files| ==> job.files[i].content.Ok? }

  function Contents<B, E>(job: Job<B, E>): seq<Option<seq<B>>>
    requires AllLoad(job)
  {
    seq(|job.files|, i requires 0 <= i < |job.files| => job.files[i].content.value)
  }

  /** The serial loop: each file's batches after the buffer. */
  function Serial<B, E>(job: Job<B, E>): seq<B>
    requires AllLoad(job)
  {
    job.buffer + InOrder(Contents(job))
  }

  predicate AllExited<B, E>(s: State<B, E>) { forall w :: 0 <= w < |s.workers| ==> s.workers[w].Exited? }

  /** Every interleaving of any number of workers refines the serial loop. */
  lemma RefinesSerial<B, E>(job: Job<B, E>, n: nat, ss: seq<State<B, E>>, ts: seq<Step<E>>, k: nat)
    requires IsRun(job, n, ss, ts) && k < |ss| && n > 0 && AllExited(ss[k])
    ensures ss[k].failure.None? ==> AllLoad(job) && Outcome(job, ss[k]) == Ok(Serial(job))
    ensures ss[k].failure.Some? ==> Outcome(job, ss[k]).Err?
  {
    RunKeeps(job, n, ss, ts, k);
    var s := ss[k];
    if s.failure.None? {
      assert WorkerOk(job, s, s.workers[0]);
      forall i | 0 <= i < |job.files| ensures job.files[i].content == Ok(s.slots[i]) { assert Accounted(job, s, i); }
      assert s.slots == Contents(job);
    }
  }

  lemma {:induction false} NextGrows<B, E>(job: Job<B, E>, n: nat, ss: seq<State<B, E>>, ts: seq<Step<E>>, j: nat, k: nat)
    requires IsRun(job, n, ss, ts) && j <= k < |ss|
    ensures ss[j].next <= ss[k].next && (ss[j].failure.Some? ==> ss[k].failure.Some?)
  {
    if j < k {
      NextGrows(job, n, ss, ts, j, k - 1);
      StepGrows(job, ss[k - 1], ts[k - 1]);
    }
  }

  lemma StepGrows<B, E>(job: Job<B, E>, s: State<B, E>, t: Step<E>)
    requires Enabled(job, s, t)
    ensures s.next <= After(job, s, t).next && (s.failure.Some? ==> After(job, s, t).failure.Some?)
  {
  }

  /** In any run no two claims take the same file. */
  lemma ClaimedOnce<B, E>(job: Job<B, E>, n: nat, ss: seq<State<B, E>>, ts: seq<Step<E>>, j: nat, k: nat)
    requires IsRun(job, n, ss, ts) && j < k < |ts| && ts[j].Claim? && ts[k].Claim?
    requires ss[j + 1].workers[ts[j].w].Claimed? && ss[k + 1].workers[ts[k].w].Claimed?
    ensures ss[j + 1].workers[ts[j].w] != ss[k + 1].workers[ts[k].w]
  {
    NextGrows(job, n, ss, ts, j + 1, k);
  }

  predicate Fails<E>(t: Step<E>) { t.Expire? || t.Record? }

  predicate SomeFails<E>(ts: seq<Step<E>>, k: nat) { exists j :: 0 <= j < k && j < |ts| && Fails(ts[j]) }

  lemma SomeFailsMore<E>(ts: seq<Step<E>>, k: nat)
    requires k < |ts|
    ensures SomeFails(ts, k + 1) <==> SomeFails(ts, k) || Fails(ts[k])
  {
  }

  lemma StepFails<B, E>(job: Job<B, E>, s: State<B, E>, t: Step<E>)
    requires Enabled(job, s, t)
    ensures After(job, s, t).failure.Some? <==> s.failure.Some? || Fails(t)
  {
  }

  /** A run fails exactly when some worker hit the deadline or recorded an error. */
  lemma {:induction false} FailureIff<B, E>(job: Job<B, E>, n: nat, ss: seq<State<B, E>>, ts: seq<Step<E>>, k: nat)
    requires IsRun(job, n, ss, ts) && k < |ss|
    ensures ss[k].failure.Some? <==> SomeFails(ts, k)
  {
    if k > 0 {
      FailureIff(job, n, ss, ts, k - 1);
      StepFails(job, ss[k - 1], ts[k - 1]);
      SomeFailsMore(ts, k - 1);
    }
  }

  // ----- row groups

  /** Row groups a worker has counted as considered and not yet as pruned or scanned. */
  function Owed<B, E>(job: Job<B, E>, x: Worker<B, E>): nat {
    if !(x.Considered? || x.StatsDone? || x.BloomDone?) || x.i >= |job.files| || job.files[x.i].groups.None? then 0
    else
      var g := job.files[x.i].groups.value;
      if x.Considered? then g.All() else if x.StatsDone? then g.bloomPruned + g.scanned else g.scanned
  }

  function Sum<T>(s: seq<T>, f: T -> nat): nat { if s == [] then 0 else Sum(Init(s), f) + f(Last(s)) }

  lemma {:induction false} SumUpdate<T>(s: seq<T>, f: T -> nat, w: nat, x: T)
    requires w < |s|
    ensures Sum(s[w := x], f) == Sum(s, f) - f(s[w]) + f(x)
  {
    var n := |s| - 1;
    if w < n {
      SumUpdate(Init(s), f, w, x);
      assert Init(s[w := x]) == Init(s)[w := x];
    } else {
      assert Init(s[w := x]) == Init(s);
    }
  }

  lemma {:induction false} SumConst<T>(s: seq<T>, f: T -> nat, c: nat)
    requires forall i :: 0 <= i < |s| ==> f(s[i]) == c
    ensures Sum(s, f) == c * |s|
  {
    if s != [] { SumConst(Init(s), f, c); }
  }

  function Owing<B, E>(job: Job<B, E>): Worker<B, E> -> nat { (x: Worker<B, E>) => Owed(job, x) }

  ghost predicate Ledger<B, E>(job: Job<B, E>, s: State<B, E>) {
    s.considered == s.statsPruned + s.bloomPruned + s.scanned + Sum(s.workers, Owing(job))
  }

  lemma StepLedger<B, E>(job: Job<B, E>, s: State<B, E>, t: Step<E>)
    requires Enabled(job, s, t) && Ledger(job, s)
    ensures Ledger(job, After(job, s, t))
  {
    SumUpdate(s.workers, Owing(job), t.w, After(job, s, t).workers[t.w]);
  }

  lemma {:induction false} RunLedger<B, E>(job: Job<B, E>, n: nat, ss: seq<State<B, E>>, ts: seq<Step<E>>, k: nat)
    requires IsRun(job, n, ss, ts) && k < |ss|
    ensures Ledger(job, ss[k])
  {
    if k == 0 {
      SumConst(ss[0].workers, Owing(job), 0);
    } else {
      RunLedger(job, n, ss, ts, k - 1);
      StepLedger(job, ss[k - 1], ts[k - 1]);
    }
  }

  /** Between loads, every row group considered has been pruned by one means or scanned. */
  predicate Quiescent<B, E>(s: State<B, E>) {
    forall w :: 0 <= w < |s.workers| ==> !(s.workers[w].Considered? || s.workers[w].StatsDone? || s.workers[w].BloomDone?)
  }

  lemma GroupsConserved<B, E>(job: Job<B, E>, n: nat, ss: seq<State<B, E>>, ts: seq<Step<E>>, k: nat)
    requires IsRun(job, n, ss, ts) && k < |ss| && Quiescent(ss[k])
    ensures ss[k].considered == ss[k].statsPruned + ss[k].bloomPruned + ss[k].scanned
  {
    RunLedger(job, n, ss, ts, k);
    SumConst(ss[k].workers, Owing(job), 0);
  }

  // ----- every run ends

  function Rank<B, E>(x: Worker<B, E>): nat {
    match x
    case Idle => 2
    case Ready => 1
    case Claimed(_) => 11
    case Opening(_) => 10
    case Considered(_) => 9
    case StatsDone(_) => 8
    case BloomDone(_) => 7
    case Decoding(_) => 6
    case Storing(_, _) => 5
    case Failing(_, _) => 5
    case Exited => 0
  }

  /** Steps still to come, at most. */
  function Left<B, E>(job: Job<B, E>, s: State<B, E>): int {
    Sum(s.workers, Rank) + 11 * (if s.next < |job.files| then |job.files| - s.next else 0)
  }

  lemma StepShrinks<B, E>(job: Job<B, E>, s: State<B, E>, t: Step<E>)
    requires Enabled(job, s, t)
    ensures 0 <= Left(job, After(job, s, t)) < Left(job, s)
  {
    SumUpdate(s.workers, Rank, t.w, After(job, s, t).workers[t.w]);
  }

  lemma {:induction false} Shrinks<B, E>(job: Job<B, E>, n: nat, ss: seq<State<B, E>>, ts: seq<Step<E>>, k: nat)
    requires IsRun(job, n, ss, ts) && k < |ss|
    ensures 0 <= k + Left(job, ss[k]) <= Left(job, ss[0])
  {
    if k > 0 {
      Shrinks(job, n, ss, ts, k - 1);
      StepShrinks(job, ss[k - 1], ts[k - 1]);
    }
  }

  /** No run is longer than 11 steps a file and 2 a worker ... */
  lemma RunsEnd<B, E>(job: Job<B, E>, n: nat, ss: seq<State<B, E>>, ts: seq<Step<E>>)
    requires IsRun(job, n, ss, ts)
    ensures |ts| <= 11 * |job.files| + 2 * n
  {
    Shrinks(job, n, ss, ts, |ts|);
    SumConst(ss[0].workers, Rank, 2);
  }

  /** ... and until all workers have returned, some worker can move. */
  lemma NeverStuck<B, E>(job: Job<B, E>, n: nat, ss: seq<State<B, E>>, ts: seq<Step<E>>, k: nat, w: nat) returns (t: Step<E>)
    requires IsRun(job, n, ss, ts) && k < |ss| && w < n && (|ss[k].workers| == n ==> !ss[k].workers[w].Exited?)
    ensures t.w == w && Enabled(job, ss[k], t)
  {
    RunKeeps(job, n, ss, ts, k);
    var x := ss[k].workers[w];
    assert WorkerOk(job, ss[k], x);
    match x
    case Idle => t := Look(w);
    case Ready => t := Claim(w);
    case Claimed(_) => t := Start(w);
    case Opening(_) => t := if job.files[x.i].groups.None? then TimePrune(w) else Consider(w);
    case Considered(_) => t := CountStats(w);
    case StatsDone(_) => t := CountBloom(w);
    case BloomDone(_) => t := CountScanned(w);
    case Decoding(_) =>
      var c := job.files[x.i].content;
      t := if c.Ok? then Finish(w) else Break(w, c.error);
    case Storing(_, _) => t := Store(w);
    case Failing(_, _) => t := Record(w);
  }
}
