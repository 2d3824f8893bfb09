// How the runs of the work crew end (crew.c): which calls of crew_start return, and
// that every run comes to an end.
module CrewOutcome {
  import opened WorkCrew

  // ----- Each call costs a worker -----

  function One(b: bool): nat {
    if b then 1 else 0
  }

  function Left(ws: seq<Worker>): nat {
    if ws == [] then 0 else One(ws[0].Gone?) + Left(ws[1..])
  }

  function Begun(cs: seq<Caller>): nat {
    if cs == [] then 0 else One(!cs[0].Calling?) + Begun(cs[1..])
  }

  lemma {:induction false} LeftUpdate(ws: seq<Worker>, i: nat, w: Worker)
    requires i < |ws|
    ensures Left(ws[i := w]) + One(ws[i].Gone?) == Left(ws) + One(w.Gone?)
  {
    if i == 0 {
      assert ws[0 := w][1..] == ws[1..];
    } else {
      LeftUpdate(ws[1..], i - 1, w);
      assert ws[i := w][1..] == ws[1..][i - 1 := w];
    }
  }

  lemma {:induction false} BegunUpdate(cs: seq<Caller>, i: nat, c: Caller)
    requires i < |cs|
    ensures Begun(cs[i := c]) + One(!cs[i].Calling?) == Begun(cs) + One(!c.Calling?)
  {
    if i == 0 {
      assert cs[0 := c][1..] == cs[1..];
    } else {
      BegunUpdate(cs[1..], i - 1, c);
      assert cs[i := c][1..] == cs[1..][i - 1 := c];
    }
  }

  lemma {:induction false} LeftBounds(ws: seq<Worker>)
    ensures Left(ws) <= |ws| && (Left(ws) == |ws| <==> forall w :: 0 <= w < |ws| ==> ws[w].Gone?)
    ensures (forall w :: 0 <= w < |ws| ==> ws[w].Starting?) ==> Left(ws) == 0
  {
    if ws != [] {
      LeftBounds(ws[1..]);
      assert forall w :: 0 < w < |ws| ==> ws[w] == ws[1..][w - 1];
    }
  }

  lemma {:induction false} BegunBounds(cs: seq<Caller>)
    ensures Begun(cs) <= |cs| && (Begun(cs) == |cs| <==> forall i :: 0 <= i < |cs| ==> !cs[i].Calling?)
    ensures (forall i :: 0 <= i < |cs| ==> cs[i].Calling?) ==> Begun(cs) == 0
  {
    if cs != [] {
      BegunBounds(cs[1..]);
      assert forall i :: 0 < i < |cs| ==> cs[i] == cs[1..][i - 1];
    }
  }

  ghost predicate Balanced(s: State) {
    Left(s.workers) + One(s.shared.workCount > 0) == Begun(s.callers)
  }

  predicate BusyCounted(s: State) {
    s.shared.workCount >= 0 && forall w :: 0 <= w < |s.workers| && s.workers[w].Busy? ==> s.shared.workCount > 0
  }

  lemma CallerBalance(roots: seq<File>, s: State, i: nat, c: Caller)
    requires Balanced(s) && BusyCounted(s) && i < |s.callers| && s.shared.workCount <= 0
    requires (c.Waiting? && s.callers[i].Calling?) || (c.Returned? && s.callers[i].Waiting?)
    ensures Balanced(s.(shared := if c.Waiting? then Queued(s.shared, [i]) else s.shared, callers := s.callers[i := c]))
  {
    hide Left, Begun;
    BegunUpdate(s.callers, i, c);
  }

  lemma WorkerBalance(roots: seq<File>, s: State, step: Step)
    requires Balanced(s) && BusyCounted(s) && Enabled(roots, s, step) && !step.Start? && !step.Return?
    ensures Balanced(Next(roots, s, step)) && |Next(roots, s, step).workers| == |s.workers|
  {
    hide Left, Begun, Exists, At;
    LeftUpdate(s.workers, step.w, Next(roots, s, step).workers[step.w]);
  }

  // The worker that brings the count to 0 leaves for good, and the count leaves 0
  // only when a call starts.
  lemma {:induction false} OneWorkerPerCall(roots: seq<File>, run: seq<State>, steps: seq<Step>, i: nat)
    requires IsRun(roots, run, steps) && i <= |steps|
    ensures Left(run[i].workers) + One(run[i].shared.workCount > 0) == Begun(run[i].callers)
    ensures |run[i].workers| == |run[0].workers|
  {
    hide Left, Begun, Inv, Exists, At;
    if i == 0 {
      LeftBounds(run[0].workers);
      BegunBounds(run[0].callers);
    } else {
      var s, step := run[i - 1], steps[i - 1];
      assert Enabled(roots, s, step) && run[i] == Next(roots, s, step);
      OneWorkerPerCall(roots, run, steps, i - 1);
      Counted(roots, run, steps, i - 1);
      match step
      case Start(c) => CallerBalance(roots, s, c, Waiting);
      case Return(c) => CallerBalance(roots, s, c, Returned);
      case _ => WorkerBalance(roots, s, step);
    }
  }

  lemma Counted(roots: seq<File>, run: seq<State>, steps: seq<Step>, i: nat)
    requires IsRun(roots, run, steps) && i <= |steps|
    ensures BusyCounted(run[i])
  {
    CountCovers(roots, run, steps, i);
  }

  // ----- Where a run can end -----

  ghost predicate Stuck(roots: seq<File>, s: State) {
    forall step :: !Enabled(roots, s, step)
  }

  predicate AllReturned(s: State) {
    forall i :: 0 <= i < |s.callers| ==> s.callers[i].Returned?
  }

  ghost predicate AllOpen(roots: seq<File>) {
    forall p :: Exists(roots, p) && At(roots, p).Directory? ==> At(roots, p).opens
  }

  // Nothing can happen any more: all calls have returned, or a directory was
  // abandoned, or there is work and nobody left to do it.
  lemma StuckBecause(roots: seq<File>, run: seq<State>, steps: seq<Step>)
    requires IsRun(roots, run, steps) && Stuck(roots, run[|steps|])
    ensures var s := run[|steps|];
      (AllReturned(s) && s.shared.workCount == 0) || s.abandoned != [] ||
      (s.shared.queue != [] && forall w :: 0 <= w < |s.workers| ==> s.workers[w].Gone?)
  {
    hide Enabled;
    var s := run[|steps|];
    RunKeeps(roots, run, steps, |steps|);
    CountCovers(roots, run, steps, |steps|);
    forall w | 0 <= w < |s.workers| ensures !s.workers[w].Busy? {
      if s.workers[w].Busy? {
        var step := BusyGoesOn(roots, s, w);
        assert false;
      }
    }
    NoneBusy(s.workers);
    OthersGoOn(roots, s);
  }

  lemma BusyGoesOn(roots: seq<File>, s: State, w: nat) returns (step: Step)
    requires Inv(roots, s) && w < |s.workers| && s.workers[w].Busy?
    ensures Enabled(roots, s, step) && (step == Abandon(w) || step == List(w) || step == Finish(w))
  {
    BusyIsAlone(roots, s, w);
    var f := At(roots, s.workers[w].work);
    step := if f.Directory? && !f.opens then Abandon(w)
            else if s.workers[w].listed < |Entries(f)| then List(w) else Finish(w);
  }

  lemma OthersGoOn(roots: seq<File>, s: State)
    requires Stuck(roots, s)
    ensures s.shared.workCount == 0 ==> AllReturned(s)
    ensures s.shared.workCount != 0 ==> forall w :: 0 <= w < |s.workers| ==> !s.workers[w].Starting?
    ensures s.shared.queue != [] ==> forall w :: 0 <= w < |s.workers| ==> !s.workers[w].Looking?
  {
    forall i | 0 <= i < |s.callers| && s.shared.workCount == 0 ensures s.callers[i].Returned? {
      assert !Enabled(roots, s, Start(i)) && !Enabled(roots, s, Return(i));
    }
    forall w | 0 <= w < |s.workers|
      ensures s.shared.workCount != 0 ==> !s.workers[w].Starting?
      ensures s.shared.queue != [] ==> !s.workers[w].Looking?
    {
      assert !Enabled(roots, s, Begin(w)) && !Enabled(roots, s, Take(w));
    }
  }

  // ----- Which calls return -----

  lemma {:induction false} WhenReturned(roots: seq<File>, run: seq<State>, steps: seq<Step>, i: nat, c: nat) returns (j: nat)
    requires IsRun(roots, run, steps) && i <= |steps| && c < |run[i].callers| && run[i].callers[c].Returned?
    ensures j < i && steps[j] == Return(c)
  {
    if i > 0 {
      assert Enabled(roots, run[i - 1], steps[i - 1]) && run[i] == Next(roots, run[i - 1], steps[i - 1]);
      if run[i - 1].callers[c].Returned? {
        j := WhenReturned(roots, run, steps, i - 1, c);
      } else {
        j := i - 1;
      }
    }
  }

  lemma StartWaits(roots: seq<File>, s: State, i: nat)
    requires Enabled(roots, s, Start(i))
    ensures !AllReturned(Next(roots, s, Start(i)))
  {
    assert Next(roots, s, Start(i)).callers[i] == Waiting;
  }

  // When the last call has returned there is nothing left to do.
  lemma {:induction false} ReturnedIdle(roots: seq<File>, run: seq<State>, steps: seq<Step>, i: nat)
    requires IsRun(roots, run, steps) && i <= |steps| && AllReturned(run[i])
    ensures run[i].shared.workCount == 0
  {
    RunKeeps(roots, run, steps, i);
    if i > 0 {
      var s, step := run[i - 1], steps[i - 1];
      assert Enabled(roots, s, step) && run[i] == Next(roots, s, step);
      CountCovers(roots, run, steps, i - 1);
      if step.Start? {
        StartWaits(roots, s, step.i);
        assert false;
      } else if !step.Return? {
        assert run[i].callers == s.callers;
        ReturnedIdle(roots, run, steps, i - 1);
      }
    }
  }

  // Whatever the run: all calls return only if every directory below their paths can
  // be opened, and there is a worker for each of them.
  lemma ReturnsAtMostWorkers(roots: seq<File>, run: seq<State>, steps: seq<Step>, i: nat)
    requires IsRun(roots, run, steps) && i <= |steps| && AllReturned(run[i])
    ensures AllOpen(roots) && |roots| <= |run[0].workers|
  {
    RunKeeps(roots, run, steps, i);
    ReturnedIdle(roots, run, steps, i);
    OneWorkerPerCall(roots, run, steps, i);
    LeftBounds(run[i].workers);
    BegunBounds(run[i].callers);
    forall p | Exists(roots, p) && At(roots, p).Directory? ensures At(roots, p).opens {
      FirstIsHead(roots, p);
      var j := WhenReturned(roots, run, steps, i, p[0]);
      StartReturnsWhenDone(roots, run, steps, j, p);
    }
  }

  lemma {:induction false} AbandonedClosed(roots: seq<File>, run: seq<State>, steps: seq<Step>, i: nat, p: Path)
    requires IsRun(roots, run, steps) && i <= |steps| && p in run[i].abandoned
    ensures Exists(roots, p) && At(roots, p).Directory? && !At(roots, p).opens
  {
    if i > 0 && p in run[i - 1].abandoned {
      AbandonedClosed(roots, run, steps, i - 1, p);
    } else if i > 0 {
      assert Enabled(roots, run[i - 1], steps[i - 1]) && run[i] == Next(roots, run[i - 1], steps[i - 1]);
    }
  }

  // Every run that has come to its end: all calls have returned exactly if every
  // directory below their paths can be opened and there is a worker for each of them.
  lemma AllReturnExactly(roots: seq<File>, run: seq<State>, steps: seq<Step>)
    requires IsRun(roots, run, steps) && Stuck(roots, run[|steps|])
    ensures AllReturned(run[|steps|]) <==> AllOpen(roots) && |roots| <= |run[0].workers|
  {
    var n := |steps|;
    var s := run[n];
    if AllReturned(s) {
      ReturnsAtMostWorkers(roots, run, steps, n);
    } else if AllOpen(roots) && |roots| <= |run[0].workers| {
      StuckBecause(roots, run, steps);
      RunKeeps(roots, run, steps, n);
      CountCovers(roots, run, steps, n);
      OneWorkerPerCall(roots, run, steps, n);
      LeftBounds(s.workers);
      BegunBounds(s.callers);
      if s.abandoned != [] {
        AbandonedClosed(roots, run, steps, n, s.abandoned[0]);
      }
    }
  }

  // ----- Every run ends -----

  // The steps a queued item takes: to be taken, to be listed with what is below it,
  // and to be finished or abandoned.
  function Cost(f: File): nat {
    if f.Directory? && f.opens then 2 + ListCost(f.entries) else 2
  }

  function ListCost(files: seq<File>): nat {
    if files == [] then 0 else 1 + Cost(files[0]) + ListCost(files[1..])
  }

  function PathCost(roots: seq<File>, p: Path): nat {
    if Exists(roots, p) then Cost(At(roots, p)) else 0
  }

  function QueueCost(roots: seq<File>, q: seq<Path>): nat {
    if q == [] then 0 else PathCost(roots, q[0]) + QueueCost(roots, q[1..])
  }

  function WorkerCost(roots: seq<File>, w: Worker): nat {
    match w
    case Starting => 1
    case Looking => 0
    case Busy(p, n) => if Exists(roots, p) && n <= |Entries(At(roots, p))| then 1 + ListCost(Entries(At(roots, p))[n..]) else 0
    case Gone => 0
  }

  function WorkersCost(roots: seq<File>, ws: seq<Worker>): nat {
    if ws == [] then 0 else WorkerCost(roots, ws[0]) + WorkersCost(roots, ws[1..])
  }

  function CallerCost(f: File, c: Caller): nat {
    match c
    case Calling => 2 + Cost(f)
    case Waiting => 1
    case Returned => 0
  }

  function CallersCost(roots: seq<File>, cs: seq<Caller>): nat
    requires |roots| == |cs|
  {
    if cs == [] then 0 else CallerCost(roots[0], cs[0]) + CallersCost(roots[1..], cs[1..])
  }

  // The number of steps that are left.
  function StepsLeft(roots: seq<File>, s: State): nat
    requires |roots| == |s.callers|
  {
    CallersCost(roots, s.callers) + QueueCost(roots, s.shared.queue) + WorkersCost(roots, s.workers)
  }

  lemma {:induction false} QueueCostAdded(roots: seq<File>, q: seq<Path>, p: Path)
    ensures QueueCost(roots, q + [p]) == QueueCost(roots, q) + PathCost(roots, p)
  {
    if q == [] {
      assert [] + [p] == [p];
    } else {
      QueueCostAdded(roots, q[1..], p);
      assert (q + [p])[1..] == q[1..] + [p];
    }
  }

  lemma {:induction false} WorkersCostUpdate(roots: seq<File>, ws: seq<Worker>, i: nat, w: Worker)
    requires i < |ws|
    ensures WorkersCost(roots, ws[i := w]) + WorkerCost(roots, ws[i]) == WorkersCost(roots, ws) + WorkerCost(roots, w)
  {
    hide WorkerCost;
    if i == 0 {
      assert ws[0 := w][1..] == ws[1..];
    } else {
      WorkersCostUpdate(roots, ws[1..], i - 1, w);
      assert ws[i := w][1..] == ws[1..][i - 1 := w];
    }
  }

  lemma {:induction false} CallersCostUpdate(roots: seq<File>, cs: seq<Caller>, i: nat, c: Caller)
    requires i < |cs| == |roots|
    ensures CallersCost(roots, cs[i := c]) + CallerCost(roots[i], cs[i]) == CallersCost(roots, cs) + CallerCost(roots[i], c)
  {
    hide CallerCost;
    if i == 0 {
      assert cs[0 := c][1..] == cs[1..];
    } else {
      CallersCostUpdate(roots[1..], cs[1..], i - 1, c);
      assert cs[i := c][1..] == cs[1..][i - 1 := c];
    }
  }

  lemma CallerTakesOne(roots: seq<File>, s: State, step: Step)
    requires |s.callers| == |roots| && Enabled(roots, s, step) && (step.Start? || step.Return?)
    ensures StepsLeft(roots, s) == StepsLeft(roots, Next(roots, s, step)) + 1
  {
    hide QueueCost, WorkersCost, CallersCost;
    if step.Start? {
      CallersCostUpdate(roots, s.callers, step.i, Waiting);
      QueueCostAdded(roots, s.shared.queue, [step.i]);
      assert Exists(roots, [step.i]) && At(roots, [step.i]) == roots[step.i];
    } else {
      CallersCostUpdate(roots, s.callers, step.i, Returned);
    }
  }

  lemma TakeTakesOne(roots: seq<File>, s: State, w: nat)
    requires Inv(roots, s) && Enabled(roots, s, Take(w))
    ensures StepsLeft(roots, s) == StepsLeft(roots, Next(roots, s, Take(w))) + 1
  {
    hide QueueCost, WorkersCost, CallersCost, PathCost;
    WorkersCostUpdate(roots, s.workers, w, Busy(s.shared.queue[0], 0));
    FirstCost(roots, s.shared.queue);
    QueuedExists(roots, s);
  }

  lemma ListTakesOne(roots: seq<File>, s: State, w: nat)
    requires Inv(roots, s) && Enabled(roots, s, List(w))
    ensures StepsLeft(roots, s) == StepsLeft(roots, Next(roots, s, List(w))) + 1
  {
    hide QueueCost, WorkersCost, CallersCost, PathCost, WorkerCost, Inv;
    assert |s.callers| == |roots| by { InvCallers(roots, s); }
    var (p, n) := (s.workers[w].work, s.workers[w].listed);
    WorkersCostUpdate(roots, s.workers, w, Busy(p, n + 1));
    QueueCostAdded(roots, s.shared.queue, p + [n]);
    EntryCost(roots, p, n);
  }

  lemma InvCallers(roots: seq<File>, s: State)
    requires Inv(roots, s)
    ensures |s.callers| == |roots|
  {
  }

  lemma OthersTakeOne(roots: seq<File>, s: State, step: Step)
    requires Inv(roots, s) && Enabled(roots, s, step) && (step.Begin? || step.Abandon? || step.Finish?)
    ensures StepsLeft(roots, s) == StepsLeft(roots, Next(roots, s, step)) + 1
  {
    hide QueueCost, WorkersCost, CallersCost, Exists, At;
    WorkersCostUpdate(roots, s.workers, step.w, Next(roots, s, step).workers[step.w]);
  }

  lemma StepTakesOne(roots: seq<File>, s: State, step: Step)
    requires Inv(roots, s) && Enabled(roots, s, step)
    ensures |s.callers| == |Next(roots, s, step).callers| == |roots|
    ensures StepsLeft(roots, s) == StepsLeft(roots, Next(roots, s, step)) + 1
  {
    hide StepsLeft;
    match step
    case Take(w) => TakeTakesOne(roots, s, w);
    case List(w) => ListTakesOne(roots, s, w);
    case Start(_) => CallerTakesOne(roots, s, step);
    case Return(_) => CallerTakesOne(roots, s, step);
    case _ => OthersTakeOne(roots, s, step);
  }

  lemma FirstCost(roots: seq<File>, q: seq<Path>)
    requires q != []
    ensures QueueCost(roots, q) == PathCost(roots, q[0]) + QueueCost(roots, q[1..])
  {
  }

  lemma QueuedExists(roots: seq<File>, s: State)
    requires Inv(roots, s) && s.shared.queue != []
    ensures Exists(roots, s.shared.queue[0])
    ensures WorkerCost(roots, Busy(s.shared.queue[0], 0)) + 1 == PathCost(roots, s.shared.queue[0])
  {
    var p := s.shared.queue[0];
    assert p in Items(s);
    assert Entries(At(roots, p))[0..] == Entries(At(roots, p));
  }

  lemma EntryCost(roots: seq<File>, p: Path, n: nat)
    requires Exists(roots, p) && n < |Entries(At(roots, p))|
    ensures WorkerCost(roots, Busy(p, n)) == 1 + PathCost(roots, p + [n]) + WorkerCost(roots, Busy(p, n + 1))
  {
    var es := Entries(At(roots, p));
    assert (p + [n])[..|p|] == p && (p + [n])[|p|] == n;
    assert At(roots, p + [n]) == es[n];
    assert es[n..][1..] == es[n + 1..];
  }

  // The number of steps is the same for all runs that end with as much left.
  lemma {:induction false} RunLength(roots: seq<File>, run: seq<State>, steps: seq<Step>, i: nat)
    requires IsRun(roots, run, steps) && i <= |steps|
    ensures |run[0].callers| == |run[i].callers| == |roots|
    ensures i + StepsLeft(roots, run[i]) == StepsLeft(roots, run[0])
  {
    hide StepsLeft, Inv, Enabled, Next;
    if i > 0 {
      RunLength(roots, run, steps, i - 1);
      RunKeeps(roots, run, steps, i - 1);
      StepTakesOne(roots, run[i - 1], steps[i - 1]);
    }
  }

  // So every run goes on to an end.
  lemma {:induction false} RunEnds(roots: seq<File>, run: seq<State>, steps: seq<Step>) returns (run': seq<State>, steps': seq<Step>)
    requires IsRun(roots, run, steps)
    ensures IsRun(roots, run', steps') && run <= run' && steps <= steps' && Stuck(roots, run'[|steps'|])
    decreases StepsLeft(roots, run[0]) - |steps|
  {
    RunLength(roots, run, steps, |steps|);
    var s := run[|steps|];
    if Stuck(roots, s) {
      run', steps' := run, steps;
    } else {
      var step :| Enabled(roots, s, step);
      var more, next := run + [Next(roots, s, step)], steps + [step];
      RunExtended(roots, run, steps, step);
      RunLength(roots, more, next, |next|);
      run', steps' := RunEnds(roots, more, next);
    }
  }

  lemma RunExtended(roots: seq<File>, run: seq<State>, steps: seq<Step>, step: Step)
    requires IsRun(roots, run, steps) && Enabled(roots, run[|steps|], step)
    ensures IsRun(roots, run + [Next(roots, run[|steps|], step)], steps + [step])
  {
    hide Enabled, Next;
    var more, next := run + [Next(roots, run[|steps|], step)], steps + [step];
    forall i | 0 <= i < |next| ensures Enabled(roots, more[i], next[i]) && more[i + 1] == Next(roots, more[i], next[i]) {
      if i < |steps| {
        assert Enabled(roots, run[i], steps[i]) && run[i + 1] == Next(roots, run[i], steps[i]);
      }
    }
  }

  // ----- Both causes -----

  function ClosedState(i: nat): State {
    var p: Path := [0];
    if i == 0 then State(Shared(0, []), [Starting], [Calling], [], [])
    else if i <= 2 then State(Shared(1, [p]), if i == 1 then [Starting] else [Looking], [Waiting], [], [])
    else if i == 3 then State(Shared(1, []), [Busy(p, 0)], [Waiting], [], [])
    else State(Shared(1, []), [Looking], [Waiting], [], [p])
  }

  lemma ClosedGoesOn(i: nat, step: Step)
    requires i < 4 && step == [Start(0), Begin(0), Take(0), Abandon(0)][i]
    ensures Enabled([Directory(false, [])], ClosedState(i), step)
    ensures Next([Directory(false, [])], ClosedState(i), step) == ClosedState(i + 1)
  {
    assert Exists([Directory(false, [])], [0]) && At([Directory(false, [])], [0]) == Directory(false, []);
  }

  // One worker and one directory that cannot be opened.
  lemma ClosedExample() returns (roots: seq<File>, run: seq<State>, steps: seq<Step>)
    ensures IsRun(roots, run, steps) && Stuck(roots, run[|steps|]) && |roots| == |run[0].workers| == 1
    ensures !AllReturned(run[|steps|]) && run[|steps|].abandoned != []
  {
    roots, steps := [Directory(false, [])], [Start(0), Begin(0), Take(0), Abandon(0)];
    run := seq(5, i requires 0 <= i < 5 => ClosedState(i));
    forall i | 0 <= i < 4 ensures Enabled(roots, run[i], steps[i]) && run[i + 1] == Next(roots, run[i], steps[i]) {
      ClosedGoesOn(i, steps[i]);
    }
    assert run[4].callers[0] == Waiting;
  }

  function TwoCallsState(i: nat): State {
    var p: Path := [0];
    if i == 0 then State(Shared(0, []), [Starting], [Calling, Calling], [], [])
    else if i <= 2 then State(Shared(1, [p]), if i == 1 then [Starting] else [Looking], [Waiting, Calling], [], [])
    else if i == 3 then State(Shared(1, []), [Busy(p, 0)], [Waiting, Calling], [], [])
    else if i <= 5 then State(Shared(0, []), [Gone], if i == 4 then [Waiting, Calling] else [Returned, Calling], [p], [])
    else State(Shared(1, [[1]]), [Gone], [Returned, Waiting], [p], [])
  }

  lemma TwoCallsGoOn(i: nat, step: Step)
    requires i < 6 && step == [Start(0), Begin(0), Take(0), Finish(0), Return(0), Start(1)][i]
    ensures Enabled([Plain, Plain], TwoCallsState(i), step)
    ensures Next([Plain, Plain], TwoCallsState(i), step) == TwoCallsState(i + 1)
  {
    assert Exists([Plain, Plain], [0]) && At([Plain, Plain], [0]) == Plain;
  }

  // One worker and two plain files, each with its own call: the worker leaves when
  // the first is done.
  lemma TwoCallsExample() returns (roots: seq<File>, run: seq<State>, steps: seq<Step>)
    ensures IsRun(roots, run, steps) && Stuck(roots, run[|steps|]) && AllOpen(roots) && |run[0].workers| == 1
    ensures !AllReturned(run[|steps|]) && run[|steps|].abandoned == []
  {
    hide Stuck, Enabled, Next;
    roots := [Plain, Plain];
    steps := [Start(0), Begin(0), Take(0), Finish(0), Return(0), Start(1)];
    run := seq(7, i requires i >= 0 => TwoCallsState(i));
    forall i | 0 <= i < 6 ensures Enabled(roots, run[i], steps[i]) && run[i + 1] == Next(roots, run[i], steps[i]) {
      TwoCallsGoOn(i, steps[i]);
    }
    forall q | Exists(roots, q) ensures At(roots, q).Plain? { PlainOnly(roots, q); }
    NobodyLeft(roots, run[6]);
    assert run[6].callers[1] == Waiting;
  }

  lemma NobodyLeft(roots: seq<File>, s: State)
    requires s.shared.workCount > 0 && forall w :: 0 <= w < |s.workers| ==> s.workers[w].Gone?
    ensures Stuck(roots, s)
  {
  }

  lemma {:induction false} PlainOnly(roots: seq<File>, p: Path)
    requires Exists(roots, p) && forall i :: 0 <= i < |roots| ==> roots[i].Plain?
    ensures At(roots, p).Plain?
    decreases |p|
  {
    if |p| > 1 { PlainOnly(roots, p[..|p| - 1]); }
  }
}
