/** The multi-writer catalog as a transition system over one shared manifest log.
 *
 *  Each process holds a replica (head and folded view).  A commit takes the process's
 *  commit lock, checks the fence, tries to create the next manifest object, and on a
 *  lost race lists the log, folds the newer entries in and tries again.  Every point
 *  where another process can act in between is a separate step here, and a process may
 *  crash or see an I/O error at any of them.
 */
module CatalogProtocol {
  import opened Basics
  import opened Manifest
  import opened Lineage
  import Records

  /** One `commit_guarded` call: what it commits, how many races it has lost, and the
   *  replica's head and the log's length when it began. */
  datatype Call = Call(c: Commit, attempt: nat, head0: nat, log0: nat)

  datatype Phase =
    | Idle
    | Checking(call: Call)
    | Armed(call: Call)
    | Won(call: Call)
    | Lost(call: Call)
    | Tailing
    | Folding(resume: Option<Call>, newer: seq<ManifestEntry>)

  datatype Replica = Replica(head: nat, view: View, phase: Phase)

  /** `homes` records the table of every file path ever handed to a commit, so that a
   *  path is never handed out twice and compactions plan within one table. */
  datatype World = World(history: seq<Commit>, authors: seq<nat>, replicas: map<nat, Replica>,
                         homes: map<string, TableKey>)

  /** How a view absorbs an entry.  The transition system does not depend on it; the
   *  catalog's own is `Apply`. */
  type Reducer = (View, ManifestEntry) -> View

  datatype Step =
    | Boot(r: nat) | Crash(r: nat)
    | Begin(r: nat, c: Commit)
    | FencePass(r: nat) | FenceRefuse(r: nat) | Exhaust(r: nat)
    | PutWin(r: nat) | PutLose(r: nat) | PutError(r: nat) | PutUnacked(r: nat)
    | Publish(r: nat)
    | StartTail(r: nat) | List(r: nat) | ListError(r: nat) | FoldIn(r: nat)

  predicate FenceHolds(files: FileIndex, c: Commit) {
    c.fenced ==> forall p :: p in c.removePaths ==> HasPath(files, p)
  }

  /** What the engine hands to a commit: new paths, replacements fenced and within a table. */
  predicate Plannable(homes: map<string, TableKey>, c: Commit) {
    && Disciplined(c) && DistinctPaths(c.addFiles)
    && (forall f :: f in c.addFiles ==> f.path !in homes)
    && (c.fenced && c.addFiles != [] ==>
          forall p :: p in c.removePaths ==> p in homes && homes[p] == c.addFiles[0].Key())
  }

  function Register(homes: map<string, TableKey>, fs: seq<FileMeta>): map<string, TableKey> {
    if fs == [] then homes else Register(homes, Init(fs))[Last(fs).path := Last(fs).Key()]
  }

  predicate Enabled(w: World, s: Step) {
    if s.Boot? then s.r !in w.replicas
    else
      s.r in w.replicas &&
      var rep := w.replicas[s.r];
      match s
      case Crash(_) => true
      case Begin(_, c) => rep.phase.Idle? && Plannable(w.homes, c)
      case FencePass(_) => rep.phase.Checking? && rep.phase.call.attempt < MAX_COMMIT_ATTEMPTS
                           && FenceHolds(rep.view.files, rep.phase.call.c)
      case FenceRefuse(_) => rep.phase.Checking? && rep.phase.call.attempt < MAX_COMMIT_ATTEMPTS
                             && !FenceHolds(rep.view.files, rep.phase.call.c)
      case Exhaust(_) => rep.phase.Checking? && rep.phase.call.attempt == MAX_COMMIT_ATTEMPTS
      case PutWin(_) => rep.phase.Armed? && rep.head == |w.history|
      case PutUnacked(_) => rep.phase.Armed? && rep.head == |w.history|
      case PutLose(_) => rep.phase.Armed? && rep.head < |w.history|
      case PutError(_) => rep.phase.Armed?
      case Publish(_) => rep.phase.Won?
      case StartTail(_) => rep.phase.Idle?
      case List(_) => (rep.phase.Lost? || rep.phase.Tailing?) && rep.head <= |w.history|
      case ListError(_) => rep.phase.Lost? || rep.phase.Tailing?
      case FoldIn(_) => rep.phase.Folding?
      case Boot(_) => false
  }

  function SetPhase(w: World, r: nat, p: Phase): World
    requires r in w.replicas
  {
    w.(replicas := w.replicas[r := w.replicas[r].(phase := p)])
  }

  /** The winner applies its own entry and advances its head. */
  function Published(apply: Reducer, rep: Replica): Replica
    requires rep.phase.Won?
  {
    Replica(rep.head + 1, apply(rep.view, EntryOf(rep.phase.call.c, rep.head + 1)), Idle)
  }

  /** The loser applies what it listed, in order, and goes round again. */
  function FoldedIn(apply: Reducer, rep: Replica): Replica
    requires rep.phase.Folding?
  {
    Replica(rep.head + |rep.phase.newer|, FoldLeft(apply, rep.view, rep.phase.newer),
            match rep.phase.resume
            case Some(call) => Checking(call.(attempt := call.attempt + 1))
            case None => Idle)
  }

  function Land(w: World, r: nat, c: Commit): World {
    w.(history := w.history + [c], authors := w.authors + [r])
  }

  function Next(apply: Reducer, w: World, s: Step): World
    requires Enabled(w, s)
  {
    match s
    case Boot(r) => w.(replicas := w.replicas[r := Replica(|w.history|, FoldLeft(apply, EMPTY_VIEW, Log(w.history)), Idle)])
    case Crash(r) => w.(replicas := w.replicas - {r})
    case Begin(r, c) =>
      SetPhase(w.(homes := Register(w.homes, c.addFiles)), r,
               Checking(Call(c, 0, w.replicas[r].head, |w.history|)))
    case FencePass(r) => SetPhase(w, r, Armed(w.replicas[r].phase.call))
    case FenceRefuse(r) => SetPhase(w, r, Idle)
    case Exhaust(r) => SetPhase(w, r, Idle)
    case PutWin(r) => SetPhase(Land(w, r, w.replicas[r].phase.call.c), r, Won(w.replicas[r].phase.call))
    case PutUnacked(r) => SetPhase(Land(w, r, w.replicas[r].phase.call.c), r, Idle)
    case PutLose(r) => SetPhase(w, r, Lost(w.replicas[r].phase.call))
    case PutError(r) => SetPhase(w, r, Idle)
    case Publish(r) => w.(replicas := w.replicas[r := Published(apply, w.replicas[r])])
    case StartTail(r) => SetPhase(w, r, Tailing)
    case List(r) =>
      var rep := w.replicas[r];
      SetPhase(w, r, Folding(if rep.phase.Lost? then Some(rep.phase.call) else None, Log(w.history)[rep.head..]))
    case ListError(r) => SetPhase(w, r, Idle)
    case FoldIn(r) => w.(replicas := w.replicas[r := FoldedIn(apply, w.replicas[r])])
  }

  // ----- the invariant, in four parts

  /** The call a replica still has to land, if any. */
  function Pending(p: Phase): Option<Call> {
    match p
    case Checking(call) => Some(call)
    case Armed(call) => Some(call)
    case Lost(call) => Some(call)
    case Folding(resume, _) => resume
    case _ => None
  }

  /** A replica's view is the fold of a prefix of the log, each entry applied once. */
  ghost predicate Current(apply: Reducer, log: seq<ManifestEntry>, rep: Replica) {
    rep.head <= |log| && rep.view == FoldLeft(apply, EMPTY_VIEW, log[..rep.head])
  }

  ghost predicate ViewsCurrent(apply: Reducer, w: World) {
    forall r :: r in w.replicas ==> Current(apply, Log(w.history), w.replicas[r])
  }

  /** Each loss moved the head; after the first, each was to a commit made during the call. */
  ghost predicate Progressed(authors: seq<nat>, r: nat, head: nat, call: Call) {
    && call.head0 <= call.log0 <= |authors| && call.head0 + call.attempt <= head <= |authors|
    && (call.attempt > 0 ==> call.log0 + call.attempt - 1 <= head)
    && forall i :: call.log0 <= i < |authors| ==> authors[i] != r
  }

  /** What a replica between two steps of a call knows about the log. */
  ghost predicate PhaseSound(h: seq<Commit>, authors: seq<nat>, r: nat, rep: Replica) {
    && rep.head <= |h| == |authors|
    && (Pending(rep.phase).Some? ==> Progressed(authors, r, rep.head, Pending(rep.phase).value))
    && (rep.phase.Armed? ==> FenceHolds(rep.view.files, rep.phase.call.c))
    && (rep.phase.Won? ==> rep.head < |h| && h[rep.head] == rep.phase.call.c)
    && (rep.phase.Lost? ==> rep.head < |h|)
    && (rep.phase.Folding? ==>
          var n := rep.head + |rep.phase.newer|;
          && n <= |h| && rep.phase.newer == Log(h)[rep.head..n]
          && (rep.phase.resume.Some? ==> rep.head < n && rep.phase.resume.value.log0 <= n))
  }

  ghost predicate PhasesSound(w: World) {
    && |w.authors| == |w.history|
    && forall r :: r in w.replicas ==> PhaseSound(w.history, w.authors, r, w.replicas[r])
  }

  ghost predicate Logged(h: seq<Commit>, f: FileMeta) {
    exists c :: c in h && f in c.addFiles
  }

  ghost predicate Registered(homes: map<string, TableKey>, f: FileMeta) {
    f.path in homes && homes[f.path] == f.Key()
  }

  ghost predicate LogRegistered(h: seq<Commit>, homes: map<string, TableKey>) {
    forall f :: Logged(h, f) ==> Registered(homes, f)
  }

  /** The commit's new paths are registered and not in the log; its inputs share its table. */
  ghost predicate Ready(h: seq<Commit>, homes: map<string, TableKey>, c: Commit) {
    && Disciplined(c) && DistinctPaths(c.addFiles)
    && (forall f :: f in c.addFiles ==> Registered(homes, f))
    && (forall f, g :: f in c.addFiles && Logged(h, g) ==> f.path != g.path)
    && (c.fenced && c.addFiles != [] ==>
          forall p :: p in c.removePaths ==> p in homes && homes[p] == c.addFiles[0].Key())
  }

  ghost predicate CallsApart(p: Phase, q: Phase) {
    Pending(p).Some? && Pending(q).Some? ==>
      PathsOf(Pending(p).value.c.addFiles) !! PathsOf(Pending(q).value.c.addFiles)
  }

  ghost predicate Provenance(w: World) {
    && LogRegistered(w.history, w.homes)
    && (forall r :: r in w.replicas && Pending(w.replicas[r].phase).Some? ==>
          Ready(w.history, w.homes, Pending(w.replicas[r].phase).value.c))
    && (forall r, q :: r in w.replicas && q in w.replicas && r != q ==>
          CallsApart(w.replicas[r].phase, w.replicas[q].phase))
  }

  ghost predicate Inv(w: World) {
    ViewsCurrent(Apply, w) && PhasesSound(w) && Provenance(w) && WellFormed(w.history)
  }

  // ----- live files come from the log

  lemma LoggedSnoc(h: seq<Commit>, c: Commit, f: FileMeta)
    ensures Logged(h + [c], f) <==> Logged(h, f) || f in c.addFiles
  {
    if Logged(h, f) {
      var d :| d in h && f in d.addFiles;
      assert d in h + [c];
    }
    if f in c.addFiles { assert c in h + [c]; }
  }

  lemma {:induction false} LiveIsLogged(h: seq<Commit>, k: TableKey, f: FileMeta)
    requires f in FilesOf(Fold(h).files, k)
    ensures Logged(h, f) && f.Key() == k
  {
    if h != [] {
      var h', c := Init(h), Last(h);
      InitLast(h);
      FoldShifts(h', c);
      LoggedSnoc(h', c, f);
      if f in FilesOf(Fold(h').files, k) { LiveIsLogged(h', k, f); }
    }
  }

  lemma {:induction false} DescentIsLogged(h: seq<Commit>, p: string)
    requires p in Descent(h)
    ensures exists f :: Logged(h, f) && f.path == p
  {
    var h', c := Init(h), Last(h);
    InitLast(h);
    if p in Births(Descent(h'), c) {
      var f :| f in c.addFiles && f.path == p;
      LoggedSnoc(h', c, f);
    } else {
      DescentIsLogged(h', p);
      var f :| Logged(h', f) && f.path == p;
      LoggedSnoc(h', c, f);
    }
  }

  /** The fence's verdict, taken on an up-to-date view, is what a replacement needs. */
  lemma FenceMakesAdmissible(h: seq<Commit>, homes: map<string, TableKey>, c: Commit)
    requires LogRegistered(h, homes) && Ready(h, homes, c) && FenceHolds(Fold(h).files, c)
    ensures Admissible(Fold(h).files, Descent(h), c)
  {
    forall f | f in c.addFiles ensures f.path !in Descent(h) {
      if f.path in Descent(h) { DescentIsLogged(h, f.path); }
    }
    if c.fenced && c.addFiles != [] { FencedInputsLive(h, homes, c); }
  }

  lemma FencedInputsLive(h: seq<Commit>, homes: map<string, TableKey>, c: Commit)
    requires LogRegistered(h, homes) && Ready(h, homes, c) && FenceHolds(Fold(h).files, c)
    requires c.fenced && c.addFiles != []
    ensures InputsLive(Fold(h).files, c)
  {
    var files, k := Fold(h).files, c.addFiles[0].Key();
    forall p | p in c.removePaths ensures InTable(files, k, p) {
      assert HasPath(files, p);
      var k': TableKey, f: FileMeta :| k' in files && f in files[k'] && f.path == p;
      assert f in FilesOf(files, k');
      LiveIsLogged(h, k', f);
    }
  }

  // ----- steps and views

  lemma LogGrows(h: seq<Commit>, h': seq<Commit>)
    requires h <= h'
    ensures Log(h) <= Log(h')
  {
  }

  lemma KeepsCurrent(apply: Reducer, log: seq<ManifestEntry>, log': seq<ManifestEntry>, rep: Replica, rep': Replica)
    requires Current(apply, log, rep) && log <= log' && rep'.head == rep.head && rep'.view == rep.view
    ensures Current(apply, log', rep')
  {
    assert log'[..rep.head] == log[..rep.head];
  }

  lemma PublishCurrent(apply: Reducer, log: seq<ManifestEntry>, rep: Replica)
    requires Current(apply, log, rep) && rep.phase.Won?
    requires rep.head < |log| && log[rep.head] == EntryOf(rep.phase.call.c, rep.head + 1)
    ensures Current(apply, log, Published(apply, rep))
  {
    TakeSnoc(log, rep.head);
    FoldLeftAppend(apply, EMPTY_VIEW, log[..rep.head], [log[rep.head]]);
  }

  lemma FoldInCurrent(apply: Reducer, log: seq<ManifestEntry>, rep: Replica)
    requires Current(apply, log, rep) && rep.phase.Folding? && rep.head + |rep.phase.newer| <= |log|
    requires rep.phase.newer == log[rep.head..rep.head + |rep.phase.newer|]
    ensures Current(apply, log, FoldedIn(apply, rep))
  {
    FoldLeftSlice(apply, EMPTY_VIEW, log, rep.head, rep.head + |rep.phase.newer|);
  }

  /** Only booting, publishing and folding change a head or a view. */
  lemma StepFrame(apply: Reducer, w: World, s: Step, r: nat)
    requires Enabled(w, s) && r in Next(apply, w, s).replicas
    ensures w.history <= Next(apply, w, s).history
    ensures !s.Boot? || r != s.r ==> r in w.replicas
    ensures r in w.replicas && (r != s.r || !(s.Boot? || s.Publish? || s.FoldIn?)) ==>
              Next(apply, w, s).replicas[r].head == w.replicas[r].head && Next(apply, w, s).replicas[r].view == w.replicas[r].view
    ensures r in w.replicas && r != s.r ==> Next(apply, w, s).replicas[r] == w.replicas[r]
  {
  }

  lemma OtherStepCurrent(apply: Reducer, w: World, s: Step, r: nat)
    requires ViewsCurrent(apply, w) && Enabled(w, s) && r in Next(apply, w, s).replicas
    requires r != s.r || !(s.Boot? || s.Publish? || s.FoldIn?)
    ensures Current(apply, Log(Next(apply, w, s).history), Next(apply, w, s).replicas[r])
  {
    StepFrame(apply, w, s, r);
    LogGrows(w.history, Next(apply, w, s).history);
    KeepsCurrent(apply, Log(w.history), Log(Next(apply, w, s).history), w.replicas[r], Next(apply, w, s).replicas[r]);
  }

  lemma OwnPublishCurrent(apply: Reducer, w: World, s: Step, rep: Replica)
    requires ViewsCurrent(apply, w) && PhasesSound(w) && Enabled(w, s) && s.Publish? && rep == w.replicas[s.r]
    ensures Current(apply, Log(w.history), Published(apply, rep))
  {
    assert Current(apply, Log(w.history), rep) && PhaseSound(w.history, w.authors, s.r, rep);
    PublishCurrent(apply, Log(w.history), rep);
  }

  lemma OwnFoldCurrent(apply: Reducer, w: World, s: Step, rep: Replica)
    requires ViewsCurrent(apply, w) && PhasesSound(w) && Enabled(w, s) && s.FoldIn? && rep == w.replicas[s.r]
    ensures Current(apply, Log(w.history), FoldedIn(apply, rep))
  {
    assert Current(apply, Log(w.history), rep) && PhaseSound(w.history, w.authors, s.r, rep);
    FoldInCurrent(apply, Log(w.history), rep);
  }

  lemma OwnStepCurrent(apply: Reducer, w: World, s: Step)
    requires ViewsCurrent(apply, w) && PhasesSound(w) && Enabled(w, s) && (s.Publish? || s.FoldIn?)
    ensures Current(apply, Log(w.history), Next(apply, w, s).replicas[s.r])
  {
    if s.Publish? { OwnPublishCurrent(apply, w, s, w.replicas[s.r]); } else { OwnFoldCurrent(apply, w, s, w.replicas[s.r]); }
  }

  lemma StepCurrent(apply: Reducer, w: World, s: Step, r: nat)
    requires ViewsCurrent(apply, w) && PhasesSound(w) && Enabled(w, s) && r in Next(apply, w, s).replicas
    ensures Current(apply, Log(Next(apply, w, s).history), Next(apply, w, s).replicas[r])
  {
    if r != s.r || !(s.Boot? || s.Publish? || s.FoldIn?) {
      OtherStepCurrent(apply, w, s, r);
    } else if s.Boot? {
      assert Log(w.history)[..|w.history|] == Log(w.history);
    } else {
      OwnStepCurrent(apply, w, s);
    }
  }

  // ----- steps and phases

  lemma LogSuffixStable(h: seq<Commit>, c: Commit, a: nat, b: nat)
    requires a <= b <= |h|
    ensures Log(h + [c])[a..b] == Log(h)[a..b]
  {
  }

  lemma BystanderSound(h: seq<Commit>, authors: seq<nat>, q: nat, rep: Replica, r: nat, c: Commit)
    requires PhaseSound(h, authors, q, rep) && q != r
    ensures PhaseSound(h + [c], authors + [r], q, rep)
  {
    if rep.phase.Folding? { LogSuffixStable(h, c, rep.head, rep.head + |rep.phase.newer|); }
  }

  lemma LanderSound(h: seq<Commit>, authors: seq<nat>, r: nat, rep: Replica, p: Phase)
    requires PhaseSound(h, authors, r, rep) && rep.phase.Armed? && rep.head == |h|
    requires p == Won(rep.phase.call) || p == Idle
    ensures PhaseSound(h + [rep.phase.call.c], authors + [r], r, rep.(phase := p))
  {
  }

  lemma ListerSound(h: seq<Commit>, authors: seq<nat>, r: nat, rep: Replica, p: Phase)
    requires PhaseSound(h, authors, r, rep) && (rep.phase.Lost? || rep.phase.Tailing?)
    requires p == Folding(if rep.phase.Lost? then Some(rep.phase.call) else None, Log(h)[rep.head..])
    ensures PhaseSound(h, authors, r, rep.(phase := p))
  {
    assert Log(h)[rep.head..] == Log(h)[rep.head..|h|];
  }

  lemma FolderSound(h: seq<Commit>, authors: seq<nat>, r: nat, rep: Replica, rep': Replica)
    requires PhaseSound(h, authors, r, rep) && rep.phase.Folding? && rep'.head == rep.head + |rep.phase.newer|
    requires rep'.phase == match rep.phase.resume
                           case Some(call) => Checking(call.(attempt := call.attempt + 1))
                           case None => Idle
    ensures PhaseSound(h, authors, r, rep')
  {
  }

  lemma OwnLandSound(apply: Reducer, w: World, s: Step)
    requires PhasesSound(w) && Enabled(w, s) && (s.PutWin? || s.PutUnacked?)
    ensures PhaseSound(Next(apply, w, s).history, Next(apply, w, s).authors, s.r, Next(apply, w, s).replicas[s.r])
  {
    var rep := w.replicas[s.r];
    assert PhaseSound(w.history, w.authors, s.r, rep);
    LanderSound(w.history, w.authors, s.r, rep, Next(apply, w, s).replicas[s.r].phase);
  }

  lemma OwnReadSound(apply: Reducer, w: World, s: Step)
    requires PhasesSound(w) && Enabled(w, s) && (s.List? || s.FoldIn?)
    ensures PhaseSound(Next(apply, w, s).history, Next(apply, w, s).authors, s.r, Next(apply, w, s).replicas[s.r])
  {
    var rep, rep' := w.replicas[s.r], Next(apply, w, s).replicas[s.r];
    assert PhaseSound(w.history, w.authors, s.r, rep);
    if s.List? { ListerSound(w.history, w.authors, s.r, rep, rep'.phase); } else { FolderSound(w.history, w.authors, s.r, rep, rep'); }
  }

  lemma OwnStepSound(apply: Reducer, w: World, s: Step)
    requires PhasesSound(w) && Enabled(w, s) && s.r in Next(apply, w, s).replicas
    ensures PhaseSound(Next(apply, w, s).history, Next(apply, w, s).authors, s.r, Next(apply, w, s).replicas[s.r])
  {
    if s.PutWin? || s.PutUnacked? {
      OwnLandSound(apply, w, s);
    } else if s.List? || s.FoldIn? {
      OwnReadSound(apply, w, s);
    } else if !s.Boot? {
      assert PhaseSound(w.history, w.authors, s.r, w.replicas[s.r]);
    }
  }

  lemma StepSound(apply: Reducer, w: World, s: Step, r: nat)
    requires PhasesSound(w) && Enabled(w, s) && r in Next(apply, w, s).replicas
    ensures PhaseSound(Next(apply, w, s).history, Next(apply, w, s).authors, r, Next(apply, w, s).replicas[r])
  {
    StepFrame(apply, w, s, r);
    if r == s.r {
      OwnStepSound(apply, w, s);
    } else if s.PutWin? || s.PutUnacked? {
      BystanderSound(w.history, w.authors, r, w.replicas[r], s.r, w.replicas[s.r].phase.call.c);
    }
  }

  // ----- steps and provenance

  lemma {:induction false} RegisterAt(homes: map<string, TableKey>, fs: seq<FileMeta>)
    requires DistinctPaths(fs) && forall f :: f in fs ==> f.path !in homes
    ensures forall p :: p in homes ==> p in Register(homes, fs) && Register(homes, fs)[p] == homes[p]
    ensures forall f :: f in fs ==> Registered(Register(homes, fs), f)
  {
    if fs != [] {
      RegisterAt(homes, Init(fs));
      forall f | f in fs ensures Registered(Register(homes, fs), f) {
        if f in Init(fs) { assert f.path != Last(fs).path; }
      }
    }
  }

  /** Of the steps, only Begin gives a replica something to land. */
  lemma PendingFrame(apply: Reducer, w: World, s: Step, r: nat)
    requires Enabled(w, s) && r in Next(apply, w, s).replicas && !(s.Begin? && r == s.r)
    requires Pending(Next(apply, w, s).replicas[r].phase).Some?
    ensures r in w.replicas && Pending(w.replicas[r].phase).Some?
    ensures Pending(Next(apply, w, s).replicas[r].phase).value.c == Pending(w.replicas[r].phase).value.c
    ensures r == s.r ==> !s.PutWin? && !s.PutUnacked?
  {
    StepFrame(apply, w, s, r);
  }

  lemma StillReady(h: seq<Commit>, homes: map<string, TableKey>, d: Commit, c: Commit)
    requires Ready(h, homes, d) && PathsOf(d.addFiles) !! PathsOf(c.addFiles)
    ensures Ready(h + [c], homes, d)
  {
    forall f, g | f in d.addFiles && Logged(h + [c], g) ensures f.path != g.path {
      LoggedSnoc(h, c, g);
      assert f.path in PathsOf(d.addFiles);
      assert g in c.addFiles ==> g.path in PathsOf(c.addFiles);
    }
  }

  lemma LandProvenance(w: World, r: nat, won: bool)
    requires Provenance(w) && Enabled(w, PutWin(r))
    ensures Provenance(Next(Apply, w, if won then PutWin(r) else PutUnacked(r)))
  {
    var s := if won then PutWin(r) else PutUnacked(r);
    var c, w' := w.replicas[r].phase.call.c, Next(Apply, w, s);
    forall f | Logged(w'.history, f) ensures Registered(w.homes, f) { LoggedSnoc(w.history, c, f); }
    forall q | q in w'.replicas && Pending(w'.replicas[q].phase).Some?
      ensures Ready(w'.history, w'.homes, Pending(w'.replicas[q].phase).value.c)
    {
      PendingFrame(Apply, w, s, q);
      assert CallsApart(w.replicas[q].phase, w.replicas[r].phase);
      StillReady(w.history, w.homes, Pending(w.replicas[q].phase).value.c, c);
    }
    forall p, q | p in w'.replicas && q in w'.replicas && p != q
      ensures CallsApart(w'.replicas[p].phase, w'.replicas[q].phase)
    {
      if Pending(w'.replicas[p].phase).Some? { PendingFrame(Apply, w, s, p); }
      if Pending(w'.replicas[q].phase).Some? { PendingFrame(Apply, w, s, q); }
      if p in w.replicas && q in w.replicas { assert CallsApart(w.replicas[p].phase, w.replicas[q].phase); }
    }
  }

  lemma ReadyGrows(h: seq<Commit>, homes: map<string, TableKey>, homes': map<string, TableKey>, c: Commit)
    requires Ready(h, homes, c) && forall p :: p in homes ==> p in homes' && homes'[p] == homes[p]
    ensures Ready(h, homes', c)
  {
  }

  lemma BeginReady(w: World, r: nat, c: Commit, homes: map<string, TableKey>, q: nat)
    requires Provenance(w) && Enabled(w, Begin(r, c)) && homes == Register(w.homes, c.addFiles)
    requires q in w.replicas && Pending(w.replicas[q].phase).Some?
    ensures Ready(w.history, homes, Pending(w.replicas[q].phase).value.c)
    ensures PathsOf(c.addFiles) !! PathsOf(Pending(w.replicas[q].phase).value.c.addFiles)
  {
    RegisterAt(w.homes, c.addFiles);
    assert Ready(w.history, w.homes, Pending(w.replicas[q].phase).value.c);
    ReadyGrows(w.history, w.homes, homes, Pending(w.replicas[q].phase).value.c);
  }

  lemma BeginProvenance(w: World, r: nat, c: Commit)
    requires Provenance(w) && Enabled(w, Begin(r, c))
    ensures Provenance(Next(Apply, w, Begin(r, c)))
  {
    var w' := Next(Apply, w, Begin(r, c));
    RegisterAt(w.homes, c.addFiles);
    assert Ready(w.history, w'.homes, c);
    forall q | q in w.replicas && Pending(w.replicas[q].phase).Some?
      ensures Ready(w.history, w'.homes, Pending(w.replicas[q].phase).value.c)
      ensures PathsOf(c.addFiles) !! PathsOf(Pending(w.replicas[q].phase).value.c.addFiles)
    {
      BeginReady(w, r, c, w'.homes, q);
    }
    forall q | q in w'.replicas && Pending(w'.replicas[q].phase).Some?
      ensures Ready(w'.history, w'.homes, Pending(w'.replicas[q].phase).value.c)
    {
      assert q != r ==> w'.replicas[q] == w.replicas[q];
    }
  }

  lemma OtherProvenance(w: World, s: Step)
    requires Provenance(w) && Enabled(w, s) && !s.Begin? && !s.PutWin? && !s.PutUnacked?
    ensures Provenance(Next(Apply, w, s))
  {
    var w' := Next(Apply, w, s);
    assert w'.history == w.history && w'.homes == w.homes;
    forall q | q in w'.replicas && Pending(w'.replicas[q].phase).Some?
      ensures Ready(w'.history, w'.homes, Pending(w'.replicas[q].phase).value.c)
    {
      PendingFrame(Apply, w, s, q);
    }
    forall p, q | p in w'.replicas && q in w'.replicas && p != q
      ensures CallsApart(w'.replicas[p].phase, w'.replicas[q].phase)
    {
      if Pending(w'.replicas[p].phase).Some? { PendingFrame(Apply, w, s, p); }
      if Pending(w'.replicas[q].phase).Some? { PendingFrame(Apply, w, s, q); }
      if p in w.replicas && q in w.replicas { assert CallsApart(w.replicas[p].phase, w.replicas[q].phase); }
    }
  }

  lemma StepProvenance(w: World, s: Step)
    requires Provenance(w) && Enabled(w, s)
    ensures Provenance(Next(Apply, w, s))
  {
    match s
    case Begin(r, c) => BeginProvenance(w, r, c);
    case PutWin(r) => LandProvenance(w, r, true);
    case PutUnacked(r) => LandProvenance(w, r, false);
    case _ => OtherProvenance(w, s);
  }

  // ----- the fence at the instant of the put

  /** The object is created only against the log the fence was checked against: every
   *  input of a replacement is live, in the output's table, at the moment it lands. */
  lemma FenceHoldsAtPut(w: World, r: nat)
    requires Inv(w) && Enabled(w, PutWin(r))
    ensures Admissible(Fold(w.history).files, Descent(w.history), w.replicas[r].phase.call.c)
  {
    var rep := w.replicas[r];
    assert Current(Apply, Log(w.history), rep) && PhaseSound(w.history, w.authors, r, rep);
    assert Ready(w.history, w.homes, rep.phase.call.c);
    FoldPrefix(w.history, rep.head);
    assert w.history[..rep.head] == w.history;
    FenceMakesAdmissible(w.history, w.homes, rep.phase.call.c);
  }

  lemma StepWellFormed(w: World, s: Step)
    requires Inv(w) && Enabled(w, s)
    ensures WellFormed(Next(Apply, w, s).history)
  {
    if s.PutWin? || s.PutUnacked? {
      FenceHoldsAtPut(w, s.r);
      FoldShifts(w.history, w.replicas[s.r].phase.call.c);
    }
  }

  lemma StepKeeps(w: World, s: Step)
    requires Inv(w) && Enabled(w, s)
    ensures Inv(Next(Apply, w, s))
  {
    var w' := Next(Apply, w, s);
    forall r | r in w'.replicas
      ensures Current(Apply, Log(w'.history), w'.replicas[r]) && PhaseSound(w'.history, w'.authors, r, w'.replicas[r])
    {
      StepCurrent(Apply, w, s, r);
      StepSound(Apply, w, s, r);
    }
    StepProvenance(w, s);
    StepWellFormed(w, s);
  }

  // ----- theorems about every run

  const START := World([], [], map[], map[])

  /** Any interleaving of any number of processes, from an empty store. */
  ghost predicate IsRun(ws: seq<World>, ss: seq<Step>) {
    && |ws| == |ss| + 1 && ws[0] == START
    && forall i {:trigger ss[i]} :: 0 <= i < |ss| ==> Enabled(ws[i], ss[i]) && ws[i + 1] == Next(Apply, ws[i], ss[i])
  }

  lemma {:induction false} RunKeeps(ws: seq<World>, ss: seq<Step>, i: nat)
    requires IsRun(ws, ss) && i < |ws|
    ensures Inv(ws[i])
  {
    if i > 0 {
      RunKeeps(ws, ss, i - 1);
      assert Enabled(ws[i - 1], ss[i - 1]);
      StepKeeps(ws[i - 1], ss[i - 1]);
    }
  }

  /** The log only ever grows at its end. */
  lemma {:induction false} LogIsAppendOnly(ws: seq<World>, ss: seq<Step>, i: nat, j: nat)
    requires IsRun(ws, ss) && i <= j < |ws|
    ensures ws[i].history <= ws[j].history
    decreases j
  {
    if i < j {
      LogIsAppendOnly(ws, ss, i, j - 1);
      assert Enabled(ws[j - 1], ss[j - 1]);
    }
  }

  /** At every point of every run each replica holds the fold of a log prefix. */
  lemma ReplicaIsLogPrefix(ws: seq<World>, ss: seq<Step>, i: nat, r: nat)
    requires IsRun(ws, ss) && i < |ws| && r in ws[i].replicas
    ensures var rep := ws[i].replicas[r];
            rep.head <= |ws[i].history| && rep.view == Fold(ws[i].history[..rep.head])
  {
    RunKeeps(ws, ss, i);
    assert Current(Apply, Log(ws[i].history), ws[i].replicas[r]);
    FoldPrefix(ws[i].history, ws[i].replicas[r].head);
  }

  /** In every run, in the log and in every replica's view, flushed data is live at most once. */
  lemma ExactlyOnceInEveryRun(ws: seq<World>, ss: seq<Step>, i: nat, r: nat)
    requires IsRun(ws, ss) && i < |ws| && r in ws[i].replicas
    ensures PairwiseDisjoint(Fold(ws[i].history).files, Descent(ws[i].history))
    ensures var rep := ws[i].replicas[r];
            rep.head <= |ws[i].history| && PairwiseDisjoint(rep.view.files, Descent(ws[i].history[..rep.head]))
  {
    RunKeeps(ws, ss, i);
    ReplicaIsLogPrefix(ws, ss, i, r);
    var h, rep := ws[i].history, ws[i].replicas[r];
    ExactlyOnce(h);
    WellFormedPrefix(h, rep.head);
    ExactlyOnce(h[..rep.head]);
  }

  /** And, while nothing is dropped or expired, exactly the flushed data is live. */
  lemma ConservedInEveryRun(ws: seq<World>, ss: seq<Step>, i: nat, x: string)
    requires IsRun(ws, ss) && i < |ws| && forall c :: c in ws[i].history ==> !Discards(c)
    ensures Carries(Fold(ws[i].history).files, Descent(ws[i].history), x) <==> x in Flushed(ws[i].history)
  {
    RunKeeps(ws, ss, i);
    Conservation(ws[i].history, x);
  }

  /** A drop is final for the data it dropped, whatever lagging writers were doing. */
  lemma DropIsFinalInEveryRun(ws: seq<World>, ss: seq<Step>, i: nat, d: nat, k: TableKey)
    requires IsRun(ws, ss) && i < |ws| && d < |ws[i].history| && k in ws[i].history[d].dropTables
    ensures var h := ws[i].history; Purged(Fold(h).files, Descent(h), k, Descent(h[..d + 1]).Keys)
  {
    RunKeeps(ws, ss, i);
    NoResurrection(ws[i].history, d, k, Descent(ws[i].history[..d + 1]).Keys);
  }

  /** A replacement one of whose inputs has gone writes no entry, ever. */
  lemma StaleMergeNeverLands(ws: seq<World>, ss: seq<Step>, i: nat, j: nat, n: nat, p: string)
    requires IsRun(ws, ss) && i <= j < |ws| && Gone(Fold(ws[i].history).files, Descent(ws[i].history), p)
    requires |ws[i].history| <= n < |ws[j].history|
    ensures Avoids(ws[j].history[n], p)
  {
    RunKeeps(ws, ss, j);
    LogIsAppendOnly(ws, ss, i, j);
    GoneForever(ws[i].history, ws[j].history, p);
  }

  /** A call in progress remembers the state it began in. */
  lemma {:induction false} CallBegan(ws: seq<World>, ss: seq<Step>, i: nat, r: nat) returns (j: nat)
    requires IsRun(ws, ss) && i < |ws| && r in ws[i].replicas && Pending(ws[i].replicas[r].phase).Some?
    ensures var call := Pending(ws[i].replicas[r].phase).value;
            j < i && ss[j] == Begin(r, call.c) && r in ws[j].replicas &&
            call.log0 == |ws[j].history| && call.head0 == ws[j].replicas[r].head
  {
    assert i > 0;
    var w, s := ws[i - 1], ss[i - 1];
    assert Enabled(w, s);
    if s.Begin? && s.r == r {
      j := i - 1;
    } else {
      PendingFrame(Apply, w, s, r);
      CallFrame(w, s, r);
      j := CallBegan(ws, ss, i - 1, r);
    }
  }

  lemma CallFrame(w: World, s: Step, r: nat)
    requires Enabled(w, s) && r in Next(Apply, w, s).replicas && !(s.Begin? && r == s.r) && r in w.replicas
    requires Pending(Next(Apply, w, s).replicas[r].phase).Some? && Pending(w.replicas[r].phase).Some?
    ensures var a, b := Pending(w.replicas[r].phase).value, Pending(Next(Apply, w, s).replicas[r].phase).value;
            a.c == b.c && a.head0 == b.head0 && a.log0 == b.log0
  {
    StepFrame(Apply, w, s, r);
  }

  /** `ResourceBusy` is contention: it takes 100 entries past the head the call began
   *  with, and all but the first loss are to entries other writers made during the call. */
  lemma BusyIsContention(ws: seq<World>, ss: seq<Step>, i: nat, r: nat) returns (j: nat)
    requires IsRun(ws, ss) && i < |ss| && ss[i] == Exhaust(r)
    ensures j < i && ss[j].Begin? && ss[j].r == r && r in ws[j].replicas
    ensures |ws[i].history| >= ws[j].replicas[r].head + MAX_COMMIT_ATTEMPTS
    ensures |ws[i].history| >= |ws[j].history| + MAX_COMMIT_ATTEMPTS - 1
    ensures |ws[i].authors| == |ws[i].history|
    ensures forall n :: |ws[j].history| <= n < |ws[i].history| ==> ws[i].authors[n] != r
  {
    RunKeeps(ws, ss, i);
    assert Enabled(ws[i], ss[i]);
    j := CallBegan(ws, ss, i, r);
    assert PhaseSound(ws[i].history, ws[i].authors, r, ws[i].replicas[r]);
  }

  /** When a commit returns seq s, the log holds exactly its entry at s, recorded field by field,
   *  the replica's view is the fold of the log up to s, and its deletes have taken hold there. */
  lemma SuccessIsExact(ws: seq<World>, ss: seq<Step>, i: nat, r: nat)
    requires IsRun(ws, ss) && i < |ss| && ss[i] == Publish(r)
    ensures r in ws[i].replicas && ws[i].replicas[r].phase.Won?
    ensures var c, s, h := ws[i].replicas[r].phase.call.c, ws[i].replicas[r].head + 1, ws[i + 1].history;
            && s <= |h| && h[s - 1] == c && Log(h)[s - 1] == EntryOf(c, s)
            && r in ws[i + 1].replicas && ws[i + 1].replicas[r].head == s
            && ws[i + 1].replicas[r].view == Fold(h[..s])
            && Records.RecordedAs(Log(h)[s - 1], c, s)
            && Records.TakesHold(c, s, Fold(h[..s - 1]), ws[i + 1].replicas[r].view)
  {
    RunKeeps(ws, ss, i);
    assert Enabled(ws[i], ss[i]);
    assert PhaseSound(ws[i].history, ws[i].authors, r, ws[i].replicas[r]);
    ReplicaIsLogPrefix(ws, ss, i + 1, r);
    RecordedInRun(ws[i + 1].history, ws[i].replicas[r].head, ws[i].replicas[r].phase.call.c);
  }

  /** In every run a delete that took hold at n is in the view of every replica past n, exactly until
   *  a drop of its table lands. */
  lemma DeleteHoldsInEveryRun(ws: seq<World>, ss: seq<Step>, j: nat, q: nat, n: nat, c: Commit, i: nat, t: Tombstone)
    requires IsRun(ws, ss) && j < |ws| && q in ws[j].replicas && 1 <= n <= ws[j].replicas[q].head && n <= |ws[j].history|
    requires c == ws[j].history[n - 1] && Records.FreshDelete(c, i, Fold(ws[j].history[..n - 1])) && t == c.tombstones[i].(createdSeq := n)
    ensures t in ws[j].replicas[q].view.tombstones <==>
            forall m: nat :: n <= m < ws[j].replicas[q].head ==> !Records.Drops(ws[j].history, t.Key())(m)
  {
    ReplicaIsLogPrefix(ws, ss, j, q);
    var h, head := ws[j].history, ws[j].replicas[q].head;
    Records.DeleteHoldsUntilDropped(h, n, c, i, head, t);
    Records.PresentIs(h, t, head, ws[j].replicas[q].view);
  }

  lemma RecordedInRun(h: seq<Commit>, m: nat, c: Commit)
    requires m < |h| && h[m] == c
    ensures Records.RecordedAs(Log(h)[m], c, m + 1) && Records.TakesHold(c, m + 1, Fold(h[..m]), Fold(h[..m + 1]))
  {
    Records.LogRecords(h, m);
    var v, e, now := Records.NextEntry(h, m, c);
    Records.RecordedTakesHold(v, e, c, m + 1, now);
  }
}
