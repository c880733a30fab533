/** Calls of the catalog's code as runs of the protocol: what one process does during a call is a
 *  sequence of its own protocol steps, and what other writers land in between is landed by other
 *  processes of the same run. */
module CatalogRefinement {
  import opened Basics
  import opened Manifest
  import opened Lineage
  import opened CatalogProtocol
  import CatalogReplica

  // ----- runs onwards from a world

  ghost predicate Path(ws: seq<World>, ss: seq<Step>) {
    && |ws| == |ss| + 1
    && forall i {:trigger ss[i]} :: 0 <= i < |ss| ==> Enabled(ws[i], ss[i]) && ws[i + 1] == Next(Apply, ws[i], ss[i])
  }

  ghost predicate Reaches(w: World, w': World) { exists ws, ss :: Path(ws, ss) && ws[0] == w && Last(ws) == w' }

  lemma ReachesSelf(w: World)
    ensures Reaches(w, w)
  {
    assert Path([w], []) && [w][0] == w && Last([w]) == w;
  }

  lemma ReachesMore(w: World, w1: World, s: Step, w2: World)
    requires Reaches(w, w1) && Enabled(w1, s) && w2 == Next(Apply, w1, s)
    ensures Reaches(w, w2)
  {
    var ws, ss :| Path(ws, ss) && ws[0] == w && Last(ws) == w1;
    PathMore(ws, ss, s, w2);
    assert (ws + [w2])[0] == w && Last(ws + [w2]) == w2;
  }

  lemma PathMore(ws: seq<World>, ss: seq<Step>, s: Step, w: World)
    requires Path(ws, ss) && Enabled(Last(ws), s) && w == Next(Apply, Last(ws), s)
    ensures Path(ws + [w], ss + [s])
  {
    var more, steps := ws + [w], ss + [s];
    forall i {:trigger steps[i]} | 0 <= i < |steps| ensures Enabled(more[i], steps[i]) && more[i + 1] == Next(Apply, more[i], steps[i]) {
      if i < |ss| { assert steps[i] == ss[i] && more[i] == ws[i] && more[i + 1] == ws[i + 1]; }
    }
  }

  /** A run extended by what it can reach is a run. */
  lemma RunReaches(ws: seq<World>, ss: seq<Step>, w: World) returns (ws': seq<World>, ss': seq<Step>)
    requires IsRun(ws, ss) && Reaches(Last(ws), w)
    ensures IsRun(ws', ss') && ws <= ws' && Last(ws') == w
  {
    var more, steps :| Path(more, steps) && more[0] == Last(ws) && Last(more) == w;
    ws', ss' := ws + more[1..], ss + steps;
    forall i {:trigger ss'[i]} | 0 <= i < |ss'| ensures Enabled(ws'[i], ss'[i]) && ws'[i + 1] == Next(Apply, ws'[i], ss'[i]) {
      if i < |ss| {
        assert ss'[i] == ss[i] && ws'[i] == ws[i] && ws'[i + 1] == ws[i + 1];
      } else {
        var j := i - |ss|;
        assert ss'[i] == steps[j] && ws'[i] == more[j] && ws'[i + 1] == more[j + 1];
      }
    }
  }

  // ----- where a process is

  /** The world shows this process here, over this history and these paths handed out. */
  ghost predicate Shows(w: World, me: nat, head: nat, view: View, h: seq<Commit>, homes: map<string, TableKey>, phase: Phase) {
    me in w.replicas && w.replicas[me] == Replica(head, view, phase) && w.history == h && w.homes == homes
  }

  /** A view that has absorbed the log up to its head. */
  ghost predicate UpTo(view: View, log: seq<ManifestEntry>, head: nat) {
    head <= |log| && view == FoldEntries(EMPTY_VIEW, log[..head])
  }

  /** Reached from w0, and shows the process having absorbed the log up to its head. */
  ghost predicate Follows(w0: World, w: World, me: nat, head: nat, h: seq<Commit>, homes: map<string, TableKey>, phase: Phase) {
    Reaches(w0, w) && exists view :: UpTo(view, Log(h), head) && Shows(w, me, head, view, h, homes, phase)
  }

  lemma Stand(w0: World, w: World, me: nat, head: nat, view: View, h: seq<Commit>, homes: map<string, TableKey>, phase: Phase)
    requires Reaches(w0, w) && UpTo(view, Log(h), head) && Shows(w, me, head, view, h, homes, phase)
    ensures Follows(w0, w, me, head, h, homes, phase)
  {
  }

  lemma At(w0: World, w: World, me: nat, head: nat, h: seq<Commit>, homes: map<string, TableKey>, phase: Phase) returns (view: View)
    requires Follows(w0, w, me, head, h, homes, phase)
    ensures UpTo(view, Log(h), head) && Shows(w, me, head, view, h, homes, phase)
  {
    view :| UpTo(view, Log(h), head) && Shows(w, me, head, view, h, homes, phase);
  }

  // ----- what other processes land

  function HomesAfter(homes: map<string, TableKey>, cs: seq<Commit>): map<string, TableKey> {
    if cs == [] then homes else Register(HomesAfter(homes, Init(cs)), Last(cs).addFiles)
  }

  /** Each commit is one the protocol lets some process make: planned on paths not handed out yet,
   *  and with its fence holding where it lands. */
  ghost predicate Landable(homes: map<string, TableKey>, h: seq<Commit>, cs: seq<Commit>) {
    cs == [] || (Landable(homes, h, Init(cs)) && Passable(HomesAfter(homes, Init(cs)), Fold(h + Init(cs)).files, Last(cs)))
  }

  predicate Passable(homes: map<string, TableKey>, files: FileIndex, c: Commit) { Plannable(homes, c) && FenceHolds(files, c) }

  lemma LandableSnoc(homes: map<string, TableKey>, h: seq<Commit>, cs: seq<Commit>, c: Commit, all: seq<Commit>, files: FileIndex)
    requires all == cs + [c] && files == Fold(h + cs).files
    ensures Landable(homes, h, all) <==> Landable(homes, h, cs) && Passable(HomesAfter(homes, cs), files, c)
    ensures HomesAfter(homes, all) == Register(HomesAfter(homes, cs), c.addFiles)
  {
    assert Init(all) == cs && Last(all) == c;
  }

  lemma {:induction false} LandableAppend(homes: map<string, TableKey>, h: seq<Commit>, a: seq<Commit>, b: seq<Commit>)
    requires Landable(homes, h, a + b)
    ensures Landable(homes, h, a) && Landable(HomesAfter(homes, a), h + a, b)
    ensures HomesAfter(homes, a + b) == HomesAfter(HomesAfter(homes, a), b)
  {
    if b == [] {
      assert a + b == a;
    } else {
      InitLast(b);
      ConcatAssoc(a, Init(b), [Last(b)]);
      ConcatAssoc(h, a, Init(b));
      var files := Fold(h + a + Init(b)).files;
      LandableSnoc(homes, h, a + Init(b), Last(b), a + b, files);
      LandableAppend(homes, h, a, Init(b));
      LandableSnoc(HomesAfter(homes, a), h + a, Init(b), Last(b), b, files);
    }
  }

  /** A number above all of them. */
  lemma FreshId(ids: set<nat>) returns (q: nat)
    ensures forall x :: x in ids ==> x < q
  {
    if ids == {} {
      q := 0;
    } else {
      var x :| x in ids;
      q := FreshId(ids - {x});
      q := if x < q then q else x + 1;
      forall y | y in ids ensures y < q { assert y == x || y in ids - {x}; }
    }
  }

  /** A process boots, plans d ... */
  lemma NewcomerBegins(w0: World, w: World, q: nat, d: Commit, call: Call) returns (w': World)
    requires Reaches(w0, w) && q !in w.replicas && Plannable(w.homes, d) && call == Call(d, 0, |w.history|, |w.history|)
    ensures Reaches(w0, w') && w'.history == w.history && w'.homes == Register(w.homes, d.addFiles)
    ensures w'.replicas == w.replicas[q := Replica(|w.history|, Fold(w.history), Checking(call))]
  {
    var booted := NewcomerBoots(w0, w, q);
    w' := Next(Apply, booted, Begin(q, d));
    ReachesMore(w0, booted, Begin(q, d), w');
  }

  lemma NewcomerBoots(w0: World, w: World, q: nat) returns (w': World)
    requires Reaches(w0, w) && q !in w.replicas
    ensures Reaches(w0, w') && w' == w.(replicas := w.replicas[q := Replica(|w.history|, Fold(w.history), Idle)])
  {
    w' := Next(Apply, w, Boot(q));
    ReachesMore(w0, w, Boot(q), w');
  }

  /** ... passes the fence ... */
  lemma NewcomerArms(w0: World, w: World, q: nat, d: Commit, call: Call) returns (w': World)
    requires Reaches(w0, w) && q !in w.replicas && Passable(w.homes, Fold(w.history).files, d) && call == Call(d, 0, |w.history|, |w.history|)
    ensures Reaches(w0, w') && w'.history == w.history && w'.homes == Register(w.homes, d.addFiles)
    ensures w'.replicas == w.replicas[q := Replica(|w.history|, Fold(w.history), Armed(call))]
  {
    var begun := NewcomerBegins(w0, w, q, d, call);
    w' := Next(Apply, begun, FencePass(q));
    ReachesMore(w0, begun, FencePass(q), w');
  }

  /** ... and wins the put. */
  lemma Newcomer(w0: World, w: World, q: nat, d: Commit) returns (w': World)
    requires Reaches(w0, w) && q !in w.replicas && Passable(w.homes, Fold(w.history).files, d)
    ensures Reaches(w0, w') && w'.history == w.history + [d] && w'.homes == Register(w.homes, d.addFiles)
    ensures forall r :: r in w.replicas ==> r in w'.replicas && w'.replicas[r] == w.replicas[r]
  {
    var armed := NewcomerArms(w0, w, q, d, Call(d, 0, |w.history|, |w.history|));
    w' := Next(Apply, armed, PutWin(q));
    ReachesMore(w0, armed, PutWin(q), w');
  }

  lemma {:induction false} OthersLand(w0: World, w: World, me: nat, head: nat, view: View, h: seq<Commit>, homes: map<string, TableKey>,
                                      phase: Phase, cs: seq<Commit>) returns (w': World)
    requires Reaches(w0, w) && Shows(w, me, head, view, h, homes, phase) && Landable(homes, h, cs)
    ensures Reaches(w0, w') && Shows(w', me, head, view, h + cs, HomesAfter(homes, cs), phase)
  {
    if cs == [] {
      w' := w;
      assert h + cs == h;
    } else {
      var before := OthersLand(w0, w, me, head, view, h, homes, phase, Init(cs));
      var q := FreshId(before.replicas.Keys);
      assert q !in before.replicas.Keys;
      w' := Newcomer(w0, before, q, Last(cs));
      InitLast(cs);
      ConcatAssoc(h, Init(cs), [Last(cs)]);
    }
  }

  // ----- the process's own steps

  lemma Begins(w0: World, w: World, me: nat, head: nat, h: seq<Commit>, homes: map<string, TableKey>, c: Commit) returns (w': World)
    requires Follows(w0, w, me, head, h, homes, Idle) && Plannable(homes, c)
    ensures Follows(w0, w', me, head, h, Register(homes, c.addFiles), Checking(Call(c, 0, head, |h|)))
  {
    var view := At(w0, w, me, head, h, homes, Idle);
    w' := Next(Apply, w, Begin(me, c));
    ReachesMore(w0, w, Begin(me, c), w');
    Stand(w0, w', me, head, view, h, Register(homes, c.addFiles), Checking(Call(c, 0, head, |h|)));
  }

  lemma Refuses(w0: World, w: World, me: nat, head: nat, h: seq<Commit>, homes: map<string, TableKey>, call: Call) returns (w': World)
    requires Follows(w0, w, me, head, h, homes, Checking(call)) && call.attempt < MAX_COMMIT_ATTEMPTS
    requires !CatalogReplica.FenceAt(call.c, Log(h), head)
    ensures Follows(w0, w', me, head, h, homes, Idle)
  {
    var view := At(w0, w, me, head, h, homes, Checking(call));
    w' := Next(Apply, w, FenceRefuse(me));
    ReachesMore(w0, w, FenceRefuse(me), w');
    Stand(w0, w', me, head, view, h, homes, Idle);
  }

  lemma GivesUp(w0: World, w: World, me: nat, head: nat, h: seq<Commit>, homes: map<string, TableKey>, call: Call) returns (w': World)
    requires Follows(w0, w, me, head, h, homes, Checking(call)) && call.attempt == MAX_COMMIT_ATTEMPTS
    ensures Follows(w0, w', me, head, h, homes, Idle)
  {
    var view := At(w0, w, me, head, h, homes, Checking(call));
    w' := Next(Apply, w, Exhaust(me));
    ReachesMore(w0, w, Exhaust(me), w');
    Stand(w0, w', me, head, view, h, homes, Idle);
  }

  lemma Arms(w0: World, w: World, me: nat, head: nat, view: View, h: seq<Commit>, homes: map<string, TableKey>, call: Call) returns (w': World)
    requires Reaches(w0, w) && Shows(w, me, head, view, h, homes, Checking(call)) && call.attempt < MAX_COMMIT_ATTEMPTS
    requires FenceHolds(view.files, call.c)
    ensures Reaches(w0, w') && Shows(w', me, head, view, h, homes, Armed(call))
  {
    w' := Next(Apply, w, FencePass(me));
    ReachesMore(w0, w, FencePass(me), w');
  }

  lemma Wins(w0: World, w: World, me: nat, head: nat, view: View, h: seq<Commit>, homes: map<string, TableKey>, call: Call, e: ManifestEntry)
    returns (w': World)
    requires Reaches(w0, w) && Shows(w, me, head, view, h, homes, Armed(call)) && head == |h| && e == EntryOf(call.c, head + 1)
    ensures Reaches(w0, w') && Shows(w', me, head + 1, Apply(view, e), h + [call.c], homes, Idle)
  {
    var won := Next(Apply, w, PutWin(me));
    ReachesMore(w0, w, PutWin(me), won);
    w' := Next(Apply, won, Publish(me));
    ReachesMore(w0, won, Publish(me), w');
  }

  lemma AbsorbOne(h: seq<Commit>, c: Commit, view: View)
    requires UpTo(view, Log(h), |h|)
    ensures UpTo(Apply(view, EntryOf(c, |h| + 1)), Log(h + [c]), |h| + 1)
  {
    FoldSnoc(h, c);
    assert Log(h)[..|h|] == Log(h) && Log(h + [c])[..|h| + 1] == Log(h + [c]);
  }

  /** A round that lands. */
  lemma WinRound(w0: World, w: World, me: nat, head: nat, h: seq<Commit>, homes: map<string, TableKey>, call: Call) returns (w': World)
    requires Follows(w0, w, me, head, h, homes, Checking(call)) && call.attempt < MAX_COMMIT_ATTEMPTS
    requires CatalogReplica.FenceAt(call.c, Log(h), head) && head == |h|
    ensures Follows(w0, w', me, head + 1, h + [call.c], homes, Idle)
  {
    var view := At(w0, w, me, head, h, homes, Checking(call));
    var armed := Arms(w0, w, me, head, view, h, homes, call);
    var e := EntryOf(call.c, head + 1);
    w' := Wins(w0, armed, me, head, view, h, homes, call, e);
    AbsorbOne(h, call.c, view);
    Stand(w0, w', me, head + 1, Apply(view, e), h + [call.c], homes, Idle);
  }

  lemma Loses(w0: World, w: World, me: nat, head: nat, view: View, h: seq<Commit>, homes: map<string, TableKey>, call: Call) returns (w': World)
    requires Reaches(w0, w) && Shows(w, me, head, view, h, homes, Armed(call)) && head < |h|
    ensures Reaches(w0, w') && Shows(w', me, head, view, h, homes, Lost(call))
  {
    w' := Next(Apply, w, PutLose(me));
    ReachesMore(w0, w, PutLose(me), w');
  }

  lemma StillUpTo(view: View, h: seq<Commit>, cs: seq<Commit>, head: nat)
    requires UpTo(view, Log(h), head)
    ensures UpTo(view, Log(h + cs), head)
  {
    assert Log(h + cs)[..head] == Log(h)[..head];
  }

  /** A round whose put finds the key taken, up to the point where it has to read the log. */
  lemma LosePut(w0: World, w: World, me: nat, head: nat, h: seq<Commit>, homes: map<string, TableKey>, call: Call,
                before: seq<Commit>, after: seq<Commit>) returns (w': World)
    requires Follows(w0, w, me, head, h, homes, Checking(call)) && call.attempt < MAX_COMMIT_ATTEMPTS
    requires CatalogReplica.FenceAt(call.c, Log(h), head) && head < |h| + |before| && Landable(homes, h, before + after)
    ensures Follows(w0, w', me, head, h + (before + after), HomesAfter(homes, before + after), Lost(call))
  {
    var view := At(w0, w, me, head, h, homes, Checking(call));
    LandableAppend(homes, h, before, after);
    var armed := Arms(w0, w, me, head, view, h, homes, call);
    var passed := OthersLand(w0, armed, me, head, view, h, homes, Armed(call), before);
    var lost := Loses(w0, passed, me, head, view, h + before, HomesAfter(homes, before), call);
    w' := OthersLand(w0, lost, me, head, view, h + before, HomesAfter(homes, before), Lost(call), after);
    ConcatAssoc(h, before, after);
    StillUpTo(view, h, before + after, head);
    Stand(w0, w', me, head, view, h + (before + after), HomesAfter(homes, before + after), Lost(call));
  }

  lemma CannotRead(w0: World, w: World, me: nat, head: nat, h: seq<Commit>, homes: map<string, TableKey>, call: Call) returns (w': World)
    requires Follows(w0, w, me, head, h, homes, Lost(call))
    ensures Follows(w0, w', me, head, h, homes, Idle)
  {
    var view := At(w0, w, me, head, h, homes, Lost(call));
    w' := Next(Apply, w, ListError(me));
    ReachesMore(w0, w, ListError(me), w');
    Stand(w0, w', me, head, view, h, homes, Idle);
  }

  lemma Lists(w0: World, w: World, me: nat, head: nat, view: View, h: seq<Commit>, homes: map<string, TableKey>, call: Call) returns (w': World)
    requires Reaches(w0, w) && Shows(w, me, head, view, h, homes, Lost(call)) && head <= |h|
    ensures Reaches(w0, w') && Shows(w', me, head, view, h, homes, Folding(Some(call), Log(h)[head..]))
  {
    w' := Next(Apply, w, List(me));
    ReachesMore(w0, w, List(me), w');
  }

  lemma Folds(w0: World, w: World, me: nat, head: nat, view: View, h: seq<Commit>, homes: map<string, TableKey>, call: Call,
              newer: seq<ManifestEntry>, next: Call) returns (w': World)
    requires Reaches(w0, w) && Shows(w, me, head, view, h, homes, Folding(Some(call), newer)) && next == call.(attempt := call.attempt + 1)
    ensures Reaches(w0, w') && Shows(w', me, head + |newer|, FoldLeft(Apply, view, newer), h, homes, Checking(next))
  {
    w' := Next(Apply, w, FoldIn(me));
    ReachesMore(w0, w, FoldIn(me), w');
  }

  lemma AbsorbRest(view: View, log: seq<ManifestEntry>, head: nat)
    requires UpTo(view, log, head)
    ensures UpTo(FoldLeft(Apply, view, log[head..]), log, |log|)
  {
    assert log[head..|log|] == log[head..] && log[..|log|] == log;
    FoldLeftSlice(Apply, EMPTY_VIEW, log, head, |log|);
  }

  /** ... and then catches up with everything that landed. */
  lemma CatchesUp(w0: World, w: World, me: nat, head: nat, h: seq<Commit>, homes: map<string, TableKey>, call: Call, next: Call)
    returns (w': World)
    requires Follows(w0, w, me, head, h, homes, Lost(call)) && next == call.(attempt := call.attempt + 1)
    ensures Follows(w0, w', me, |h|, h, homes, Checking(next))
  {
    var view := At(w0, w, me, head, h, homes, Lost(call));
    var listed := Lists(w0, w, me, head, view, h, homes, call);
    w' := Folds(w0, listed, me, head, view, h, homes, call, Log(h)[head..], next);
    AbsorbRest(view, Log(h), head);
    Stand(w0, w', me, |h|, FoldLeft(Apply, view, Log(h)[head..]), h, homes, Checking(next));
  }

  // ----- calls

  lemma LogOf(h0: seq<Commit>, schedule: seq<CatalogReplica.Rivals>, k: nat)
    requires k <= |schedule|
    ensures Log(h0 + CatalogReplica.AllRivals(schedule[..k])) == CatalogReplica.LogAfter(Log(h0), schedule, k)
  {
    LogAppend(h0, CatalogReplica.AllRivals(schedule[..k]));
  }

  /** Round k is lost to `schedule[k]`, after `done` has landed during the call. */
  lemma RoundRefines(w0: World, w: World, me: nat, c: Commit, schedule: seq<CatalogReplica.Rivals>, head0: nat, h0: seq<Commit>,
                     homes: map<string, TableKey>, k: nat, done: seq<Commit>, head: nat) returns (w': World)
    requires k < |schedule| && k < MAX_COMMIT_ATTEMPTS && CatalogReplica.LostRound(c, Log(h0), head0, schedule, k)
    requires done == CatalogReplica.AllRivals(schedule[..k]) && head == CatalogReplica.HeadAfter(Log(h0), head0, schedule, k)
    requires Landable(homes, h0, done + schedule[k].All())
    requires Follows(w0, w, me, head, h0 + done, HomesAfter(homes, done), Checking(Call(c, k, head0, |h0|)))
    ensures Follows(w0, w', me, head, h0 + (done + schedule[k].All()), HomesAfter(homes, done + schedule[k].All()),
                    Lost(Call(c, k, head0, |h0|)))
  {
    var r := schedule[k];
    LogOf(h0, schedule, k);
    CatalogReplica.LostMeans(Log(h0), head0, schedule, k, Log(h0 + done), head);
    LandableAppend(homes, h0, done, r.All());
    ConcatAssoc(h0, done, r.All());
    w' := LosePut(w0, w, me, head, h0 + done, HomesAfter(homes, done), Call(c, k, head0, |h0|), r.beforePut, r.beforeList);
  }

  lemma RivalsMore(schedule: seq<CatalogReplica.Rivals>, k: nat)
    requires k < |schedule|
    ensures CatalogReplica.AllRivals(schedule[..k + 1]) == CatalogReplica.AllRivals(schedule[..k]) + schedule[k].All()
  {
    TakeSnoc(schedule, k);
    CatalogReplica.AllRivalsSnoc(schedule[..k], schedule[k]);
  }

  lemma NextRound(w0: World, w: World, me: nat, c: Commit, schedule: seq<CatalogReplica.Rivals>, head0: nat, h0: seq<Commit>,
                  homes: map<string, TableKey>, k: nat, done: seq<Commit>, head: nat, all: seq<Commit>) returns (w': World)
    requires k < |schedule| && k < MAX_COMMIT_ATTEMPTS && CatalogReplica.LostRound(c, Log(h0), head0, schedule, k)
    requires done == CatalogReplica.AllRivals(schedule[..k]) && head == CatalogReplica.HeadAfter(Log(h0), head0, schedule, k)
    requires all == done + schedule[k].All() && Landable(homes, h0, all)
    requires Follows(w0, w, me, head, h0 + done, HomesAfter(homes, done), Checking(Call(c, k, head0, |h0|)))
    ensures Follows(w0, w', me, |h0 + all|, h0 + all, HomesAfter(homes, all), Checking(Call(c, k + 1, head0, |h0|)))
  {
    var lost := RoundRefines(w0, w, me, c, schedule, head0, h0, homes, k, done, head);
    w' := CatchesUp(w0, lost, me, head, h0 + all, HomesAfter(homes, all), Call(c, k, head0, |h0|), Call(c, k + 1, head0, |h0|));
  }

  lemma HeadIs(h0: seq<Commit>, head0: nat, schedule: seq<CatalogReplica.Rivals>, k: nat) returns (head: nat)
    requires 0 < k <= |schedule|
    ensures head == CatalogReplica.HeadAfter(Log(h0), head0, schedule, k) == |h0 + CatalogReplica.AllRivals(schedule[..k])|
  {
    LogOf(h0, schedule, k);
    head := |h0 + CatalogReplica.AllRivals(schedule[..k])|;
  }

  /** k lost rounds, one after the other. */
  lemma {:induction false} RoundsRefine(w0: World, w: World, me: nat, c: Commit, schedule: seq<CatalogReplica.Rivals>, head0: nat,
                                        h0: seq<Commit>, homes: map<string, TableKey>, k: nat) returns (w': World, done: seq<Commit>, head: nat)
    requires k <= |schedule| == MAX_COMMIT_ATTEMPTS
    requires forall j :: 0 <= j < k ==> CatalogReplica.LostRound(c, Log(h0), head0, schedule, j)
    requires Landable(homes, h0, CatalogReplica.AllRivals(schedule[..k]))
    requires Follows(w0, w, me, head0, h0, homes, Checking(Call(c, 0, head0, |h0|)))
    ensures done == CatalogReplica.AllRivals(schedule[..k]) && head == CatalogReplica.HeadAfter(Log(h0), head0, schedule, k)
    ensures Follows(w0, w', me, head, h0 + done, HomesAfter(homes, done), Checking(Call(c, k, head0, |h0|)))
  {
    if k == 0 {
      w', done, head := w, [], head0;
      assert h0 + [] == h0;
    } else {
      RivalsMore(schedule, k - 1);
      LandableAppend(homes, h0, CatalogReplica.AllRivals(schedule[..k - 1]), schedule[k - 1].All());
      var before, done1, head1 := RoundsRefine(w0, w, me, c, schedule, head0, h0, homes, k - 1);
      done := CatalogReplica.AllRivals(schedule[..k]);
      head := HeadIs(h0, head0, schedule, k);
      w' := NextRound(w0, before, me, c, schedule, head0, h0, homes, k - 1, done1, head1, done);
    }
  }

  /** How many rounds of rivals have landed when a call ends. */
  function Landed(rounds: nat, r: Result<nat, CatalogReplica.CommitError>): nat {
    if r == Err(CatalogReplica.Unreadable) then rounds + 1 else rounds
  }

  /** The round a call ends with. */
  lemma LastRound(w0: World, w: World, me: nat, at: nat, h: seq<Commit>, homes: map<string, TableKey>, call: Call, rivals: CatalogReplica.Rivals,
                  o: CatalogReplica.Outcome, head: nat, log: seq<ManifestEntry>)
    returns (w': World, h': seq<Commit>, homes': map<string, TableKey>)
    requires Follows(w0, w, me, at, h, homes, Checking(call)) && call.attempt < MAX_COMMIT_ATTEMPTS && !o.LostRace?
    requires CatalogReplica.RoundSpec(call.c, at, Log(h), rivals, o, head, log) && (o.Broken? ==> Landable(homes, h, rivals.All()))
    ensures Follows(w0, w', me, head, h', homes', Idle) && Log(h') == log
  {
    h', homes' := h, homes;
    match o
    case Landed(_) =>
      LogNext(h, call.c);
      w' := WinRound(w0, w, me, at, h, homes, call);
      h' := h + [call.c];
    case Refused(_) => w' := Refuses(w0, w, me, at, h, homes, call);
    case Broken =>
      LogAppend(h, rivals.All());
      var lost := LosePut(w0, w, me, at, h, homes, call, rivals.beforePut, rivals.beforeList);
      h', homes' := h + rivals.All(), HomesAfter(homes, rivals.All());
      w' := CannotRead(w0, lost, me, at, h', homes', call);
  }

  lemma LogNext(h: seq<Commit>, c: Commit)
    ensures Log(h + [c]) == Log(h) + [EntryOf(c, |h| + 1)] && |Log(h)| == |h|
  {
  }

  /** Every call of the code is part of a run of the protocol.  Given a run that shows the process as
   *  the call finds it, and rivals that each plan on fresh paths and pass their fence where they
   *  land, there is a longer run that shows the process, and the log, as the call leaves them. */
  lemma CallRuns(ws: seq<World>, ss: seq<Step>, me: nat, c: Commit, schedule: seq<CatalogReplica.Rivals>, rounds: nat,
                 r: Result<nat, CatalogReplica.CommitError>, head: nat, log: seq<ManifestEntry>) returns (ws': seq<World>, ss': seq<Step>)
    requires IsRun(ws, ss) && me in Last(ws).replicas && Last(ws).replicas[me].phase.Idle? && Plannable(Last(ws).homes, c)
    requires |schedule| == MAX_COMMIT_ATTEMPTS
    requires CatalogReplica.Called(c, schedule, Last(ws).replicas[me].head, Log(Last(ws).history), rounds, r, head, log)
    requires Landable(Register(Last(ws).homes, c.addFiles), Last(ws).history, CatalogReplica.AllRivals(schedule[..Landed(rounds, r)]))
    ensures IsRun(ws', ss') && ws <= ws' && Log(Last(ws').history) == log
    ensures me in Last(ws').replicas && Last(ws').replicas[me] == Replica(head, FoldEntries(EMPTY_VIEW, log[..head]), Idle)
  {
    var w := Last(ws);
    var head0, h0, homes := w.replicas[me].head, w.history, Register(w.homes, c.addFiles);
    RunKeeps(ws, ss, |ws| - 1);
    assert Current(Apply, Log(h0), w.replicas[me]);
    ReachesSelf(w);
    Stand(w, w, me, head0, w.replicas[me].view, h0, w.homes, Idle);
    var begun := Begins(w, w, me, head0, h0, w.homes, c);
    var w', h, homes' := CallFollows(w, begun, me, c, schedule, head0, h0, homes, rounds, r, head, log);
    var view := At(w, w', me, head, h, homes', Idle);
    ws', ss' := RunReaches(ws, ss, w');
  }

  lemma CallFollows(w0: World, w: World, me: nat, c: Commit, schedule: seq<CatalogReplica.Rivals>, head0: nat, h0: seq<Commit>,
                    homes: map<string, TableKey>, rounds: nat, r: Result<nat, CatalogReplica.CommitError>, head: nat, log: seq<ManifestEntry>)
    returns (w': World, h: seq<Commit>, homes': map<string, TableKey>)
    requires |schedule| == MAX_COMMIT_ATTEMPTS && CatalogReplica.Called(c, schedule, head0, Log(h0), rounds, r, head, log)
    requires Landable(homes, h0, CatalogReplica.AllRivals(schedule[..Landed(rounds, r)]))
    requires Follows(w0, w, me, head0, h0, homes, Checking(Call(c, 0, head0, |h0|)))
    ensures Follows(w0, w', me, head, h, homes', Idle) && Log(h) == log
  {
    if Landed(rounds, r) == rounds + 1 {
      RivalsMore(schedule, rounds);
      LandableAppend(homes, h0, CatalogReplica.AllRivals(schedule[..rounds]), schedule[rounds].All());
    }
    var before, done, at := RoundsRefine(w0, w, me, c, schedule, head0, h0, homes, rounds);
    h, homes' := h0 + done, HomesAfter(homes, done);
    LogOf(h0, schedule, rounds);
    if r == Err(CatalogReplica.Busy) {
      w' := GivesUp(w0, before, me, at, h, homes', Call(c, rounds, head0, |h0|));
    } else {
      var o := CatalogReplica.LastOutcome(c, schedule, head0, Log(h0), rounds, r, at, Log(h), head, log);
      w', h, homes' := LastRound(w0, before, me, at, h, homes', Call(c, rounds, head0, |h0|), schedule[rounds], o, head, log);
    }
  }

  /** So what the protocol guarantees holds of the code: after the call flushed data is live at most
   *  once, in the log and in the process's own view. */
  lemma CallKeepsExactlyOnce(ws: seq<World>, ss: seq<Step>, me: nat, c: Commit, schedule: seq<CatalogReplica.Rivals>, rounds: nat,
                             r: Result<nat, CatalogReplica.CommitError>, head: nat, log: seq<ManifestEntry>) returns (h: seq<Commit>)
    requires IsRun(ws, ss) && me in Last(ws).replicas && Last(ws).replicas[me].phase.Idle? && Plannable(Last(ws).homes, c)
    requires |schedule| == MAX_COMMIT_ATTEMPTS
    requires CatalogReplica.Called(c, schedule, Last(ws).replicas[me].head, Log(Last(ws).history), rounds, r, head, log)
    requires Landable(Register(Last(ws).homes, c.addFiles), Last(ws).history, CatalogReplica.AllRivals(schedule[..Landed(rounds, r)]))
    ensures Log(h) == log && head <= |h| && WellFormed(h) && PairwiseDisjoint(FoldEntries(EMPTY_VIEW, log).files, Descent(h))
    ensures PairwiseDisjoint(FoldEntries(EMPTY_VIEW, log[..head]).files, Descent(h[..head]))
  {
    var ws', ss' := CallRuns(ws, ss, me, c, schedule, rounds, r, head, log);
    h := Last(ws').history;
    RunExactlyOnce(ws', ss', me, head, log, h);
  }

  lemma RunExactlyOnce(ws: seq<World>, ss: seq<Step>, me: nat, head: nat, log: seq<ManifestEntry>, h: seq<Commit>)
    requires IsRun(ws, ss) && Last(ws).history == h && Log(h) == log && me in Last(ws).replicas && head <= |log|
    requires Last(ws).replicas[me] == Replica(head, FoldEntries(EMPTY_VIEW, log[..head]), Idle)
    ensures WellFormed(h) && PairwiseDisjoint(FoldEntries(EMPTY_VIEW, log).files, Descent(h))
    ensures PairwiseDisjoint(FoldEntries(EMPTY_VIEW, log[..head]).files, Descent(h[..head]))
  {
    var n := |ws| - 1;
    RunKeeps(ws, ss, n);
    ExactlyOnceInEveryRun(ws, ss, n, me);
  }

  /** Whatever another process does, this one sees at most a longer log. */
  lemma OthersOnlyLand(w: World, s: Step, me: nat)
    requires Enabled(w, s) && s.r != me && me in w.replicas
    ensures var w' := Next(Apply, w, s);
            me in w'.replicas && w'.replicas[me] == w.replicas[me] && exists cs :: w'.history == w.history + cs
  {
    var w' := Next(Apply, w, s);
    assert w'.history == w.history + w'.history[|w.history|..];
  }
}
