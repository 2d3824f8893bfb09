// Who waits in the work crew (crew.c), for what, and in which order items are taken.
module CrewProgress {
  import opened LinkedItems
  import opened WorkCrew
  import opened CrewOutcome

  predicate OfWorker(step: Step, w: nat) {
    step == Begin(w) || step == Take(w) || step == List(w) || step == Abandon(w) || step == Finish(w)
  }

  predicate OfCaller(step: Step, i: nat) {
    step == Start(i) || step == Return(i)
  }

  // Something is queued, in work, or was abandoned.
  predicate Outstanding(s: State) {
    s.shared.queue != [] || s.abandoned != [] || exists w :: 0 <= w < |s.workers| && s.workers[w].Busy?
  }

  // A worker that has not left waits exactly while nothing is queued, or, before its
  // first item, while nothing is outstanding; what other workers do does not hold it up.
  lemma WorkerWaitsExactly(roots: seq<File>, run: seq<State>, steps: seq<Step>, i: nat, w: nat)
    requires IsRun(roots, run, steps) && i <= |steps| && w < |run[i].workers|
    ensures var s, wk := run[i], run[i].workers[w];
      (forall step :: OfWorker(step, w) ==> !Enabled(roots, s, step)) <==>
      wk.Gone? || (wk.Looking? && s.shared.queue == []) || (wk.Starting? && !Outstanding(s))
  {
    hide Inv, InWork, Exists, At;
    RunKeeps(roots, run, steps, i);
    CountCovers(roots, run, steps, i);
    var s, wk := run[i], run[i].workers[w];
    if wk.Busy? {
      var step := BusyGoesOn(roots, s, w);
      assert OfWorker(step, w);
    } else {
      assert OfWorker(Begin(w), w) && OfWorker(Take(w), w);
    }
  }

  // A call of crew_start that has not returned waits exactly while anything is
  // outstanding.
  lemma CallerWaitsExactly(roots: seq<File>, run: seq<State>, steps: seq<Step>, i: nat, c: nat)
    requires IsRun(roots, run, steps) && i <= |steps| && c < |run[i].callers|
    ensures var s := run[i];
      (forall step :: OfCaller(step, c) ==> !Enabled(roots, s, step)) <==> s.callers[c].Returned? || Outstanding(s)
  {
    CountCovers(roots, run, steps, i);
    RunKeeps(roots, run, steps, i);
    assert OfCaller(Start(c), c) && OfCaller(Return(c), c);
  }

  // The path that a step puts on the queue, and the one that it takes from it.
  function PutBy(s: State, step: Step): seq<Path> {
    match step
    case Start(c) => [[c]]
    case List(w) => if w < |s.workers| && s.workers[w].Busy? then [s.workers[w].work + [s.workers[w].listed]] else []
    case _ => []
  }

  function TakenBy(s': State, step: Step): seq<Path> {
    match step
    case Take(w) => if w < |s'.workers| && s'.workers[w].Busy? then [s'.workers[w].work] else []
    case _ => []
  }

  function Puts(run: seq<State>, steps: seq<Step>, i: nat): seq<Path>
    requires |run| == |steps| + 1 && i <= |steps|
  {
    if i == 0 then [] else Puts(run, steps, i - 1) + PutBy(run[i - 1], steps[i - 1])
  }

  function Takes(run: seq<State>, steps: seq<Step>, i: nat): seq<Path>
    requires |run| == |steps| + 1 && i <= |steps|
  {
    if i == 0 then [] else Takes(run, steps, i - 1) + TakenBy(run[i], steps[i - 1])
  }

  // Items are taken in the order in which they were put on the queue: those of the
  // calls, and the entries of directories in the order they are read.
  lemma {:induction false} FirstInFirstOut(roots: seq<File>, run: seq<State>, steps: seq<Step>, i: nat)
    requires IsRun(roots, run, steps) && i <= |steps|
    ensures Puts(run, steps, i) == Takes(run, steps, i) + run[i].shared.queue
    ensures |Takes(run, steps, i)| == |run[i].done| + |run[i].abandoned| + |InWork(run[i].workers)|
  {
    hide InWork;
    if i == 0 {
      NoneBusy(run[0].workers);
    } else {
      FirstInFirstOut(roots, run, steps, i - 1);
      assert Enabled(roots, run[i - 1], steps[i - 1]) && run[i] == Next(roots, run[i - 1], steps[i - 1]);
      OneMoved(roots, run[i - 1], steps[i - 1], Puts(run, steps, i - 1), Takes(run, steps, i - 1));
    }
  }

  lemma OneMoved(roots: seq<File>, s: State, step: Step, puts: seq<Path>, takes: seq<Path>)
    requires Enabled(roots, s, step) && puts == takes + s.shared.queue
    requires |takes| == |s.done| + |s.abandoned| + |InWork(s.workers)|
    ensures var s' := Next(roots, s, step);
      puts + PutBy(s, step) == takes + TakenBy(s', step) + s'.shared.queue &&
      |takes + TakenBy(s', step)| == |s'.done| + |s'.abandoned| + |InWork(s'.workers)|
  {
    hide InWork, Exists, At;
    OrderKept(roots, s, step, takes);
    CountKept(roots, s, step);
  }

  lemma OrderKept(roots: seq<File>, s: State, step: Step, takes: seq<Path>)
    requires Enabled(roots, s, step)
    ensures var s' := Next(roots, s, step);
      (takes + s.shared.queue) + PutBy(s, step) == takes + TakenBy(s', step) + s'.shared.queue
  {
    hide InWork, Exists, At;
    var q := s.shared.queue;
    match step
    case Take(w) => assert takes + q + [] == takes + [q[0]] + q[1..];
    case List(w) => Moved(takes, q, s.workers[w].work + [s.workers[w].listed]);
    case Start(c) => Moved(takes, q, [c]);
    case _ => assert takes + q + [] == takes + [] + q;
  }

  lemma Moved(takes: seq<Path>, q: seq<Path>, p: Path)
    ensures takes + q + [p] == takes + [] + (q + [p])
  {
  }

  lemma CountKept(roots: seq<File>, s: State, step: Step)
    requires Enabled(roots, s, step)
    ensures var s' := Next(roots, s, step);
      |s.done| + |s.abandoned| + |InWork(s.workers)| + |TakenBy(s', step)| == |s'.done| + |s'.abandoned| + |InWork(s'.workers)|
  {
    hide InWork, Exists, At;
    if !step.Start? && !step.Return? {
      InWorkUpdate(s.workers, step.w, Next(roots, s, step).workers[step.w]);
    }
  }
}
