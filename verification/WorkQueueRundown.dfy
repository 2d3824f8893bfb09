// Every element of the work queue (workq.c) can be served, and workq_destroy can return.
module WorkQueueRundown {
  import opened LinkedItems
  import opened WorkQueue
  import opened WorkQueueServers

  // ----- Elements come onto the queue -----

  function Begun(steps: seq<Step>): multiset<int> {
    if steps == [] then multiset{}
    else
      var last := steps[|steps| - 1];
      Begun(steps[..|steps| - 1]) + if last.BeginAdd? then multiset{last.e} else multiset{}
  }

  lemma StepAccepts(s: State, step: Step)
    requires Enabled(s, step)
    ensures var s' := Next(s, step);
      multiset(s'.adding) + multiset(s'.accepted) ==
      multiset(s.adding) + multiset(s.accepted) + (if step.BeginAdd? then multiset{step.e} else multiset{})
    ensures step.CommitAdd? && !Next(s, step).crashed ==> |Next(s, step).adding| == |s.adding| - 1
  {
    hide Live, Idling, InWork, Woken, LoopTop, Served;
    if step.CommitAdd? {
      var a, k := s.adding, step.k;
      assert a == a[..k] + [a[k]] + a[k + 1..];
    }
  }

  // The elements of all calls of workq_add are those being added and those accepted,
  // and a call that gets the mutex has its element accepted.
  lemma {:induction false} AddsAccepted(run: seq<State>, steps: seq<Step>, threads: int, i: nat)
    requires IsRun(run, steps, threads) && i <= |steps|
    ensures Begun(steps[..i]) == multiset(run[i].adding) + multiset(run[i].accepted)
    ensures i < |steps| && steps[i].CommitAdd? && !run[i + 1].crashed ==> |run[i + 1].adding| == |run[i].adding| - 1
  {
    hide Enabled, Next;
    if i < |steps| { StepAccepts(run[i], steps[i]); }
    if i > 0 {
      AddsAccepted(run, steps, threads, i - 1);
      assert steps[..i][..i - 1] == steps[..i - 1];
      StepAccepts(run[i - 1], steps[i - 1]);
    }
  }

  // workq_destroy closes the queue; if there are servers they are asked to quit and it
  // waits for them, else it returns.
  lemma DestroyCloses(run: seq<State>, steps: seq<Step>, threads: int, i: nat)
    requires IsRun(run, steps, threads) && i < |steps| && steps[i].Destroy?
    ensures var s, s' := run[i], run[i + 1];
      !s'.shared.valid && (s'.shared.quit <==> Present(s) != {}) &&
      s'.destroyer == (if Present(s) != {} then Closing else Done) &&
      s'.servers == s.servers && s'.shared.queue == s.shared.queue && s'.adding == s.adding
  {
    hide Live, Idling, InWork;
    RunKeeps(run, steps, threads, i);
    LiveIsPresent(run[i]);
    assert Enabled(run[i], steps[i]) && run[i + 1] == Next(run[i], steps[i]);
  }

  // ----- Servers work it off -----

  function Weight(sv: Server): nat {
    match sv
    case Working(_, _) => 2
    case Gone => 0
    case _ => 1
  }

  function Weights(servers: seq<Server>): nat {
    if servers == [] then 0 else Weight(servers[0]) + Weights(servers[1..])
  }

  function ToDo(s: State): nat {
    2 * |s.shared.queue| + Weights(s.servers)
  }

  lemma {:induction false} WeightChanged(servers: seq<Server>, w: nat, sv: Server)
    requires w < |servers|
    ensures Weights(servers[w := sv]) + Weight(servers[w]) == Weights(servers) + Weight(sv)
  {
    if w > 0 {
      WeightChanged(servers[1..], w - 1, sv);
      assert servers[w := sv][1..] == servers[1..][w - 1 := sv];
    } else {
      assert servers[0 := sv][1..] == servers[1..];
    }
  }

  // There is something for the server to do: an element, its own, or to leave.
  predicate Useful(s: State, w: nat) {
    w < |s.servers| && !s.servers[w].Gone? && (s.shared.queue != [] || s.servers[w].Working? || s.shared.quit)
  }

  function StepFor(s: State, w: nat): Step
    requires w < |s.servers|
  {
    match s.servers[w]
    case Born => Arrive(w)
    case Working(_, _) => Finish(w)
    case _ => Wake(w, false)
  }

  lemma UsefulShortens(s: State, w: nat)
    requires Useful(s, w) && !s.crashed
    ensures Enabled(s, StepFor(s, w)) && ToDo(Next(s, StepFor(s, w))) < ToDo(s)
    ensures var s' := Next(s, StepFor(s, w));
      !s'.crashed && s'.adding == s.adding && s'.accepted == s.accepted && s'.destroyer == s.destroyer && s'.shared.quit == s.shared.quit
  {
    var s' := Next(s, StepFor(s, w));
    WeightChanged(s.servers, w, s'.servers[w]);
  }

  lemma RunExtended(run: seq<State>, steps: seq<Step>, threads: int, step: Step)
    requires IsRun(run, steps, threads) && Enabled(run[|steps|], step)
    ensures IsRun(run + [Next(run[|steps|], step)], steps + [step], threads)
  {
    hide Enabled, Next;
    var more, next := run + [Next(run[|steps|], step)], steps + [step];
    forall i | 0 <= i < |next| ensures Enabled(more[i], next[i]) && more[i + 1] == Next(more[i], next[i]) {
      if i < |steps| {
        assert Enabled(run[i], steps[i]) && run[i + 1] == Next(run[i], steps[i]);
      }
    }
  }

  lemma {:induction false} WorkedOff(run: seq<State>, steps: seq<Step>, threads: int) returns (run': seq<State>, steps': seq<Step>)
    requires IsRun(run, steps, threads) && !run[|steps|].crashed
    ensures IsRun(run', steps', threads) && run <= run' && forall w: nat :: !Useful(run'[|steps'|], w)
    ensures var s, s' := run[|steps|], run'[|steps'|];
      !s'.crashed && s'.adding == s.adding && s'.accepted == s.accepted && s'.destroyer == s.destroyer && s'.shared.quit == s.shared.quit
    decreases ToDo(run[|steps|])
  {
    hide Enabled, Next, ToDo, Useful;
    var s := run[|steps|];
    if w: nat :| Useful(s, w) {
      assert w < |s.servers| by { UsefulIsServer(s, w); }
      var step := StepFor(s, w);
      UsefulShortens(s, w);
      RunExtended(run, steps, threads, step);
      run', steps' := WorkedOff(run + [Next(s, step)], steps + [step], threads);
    } else {
      run', steps' := run, steps;
    }
  }

  lemma UsefulIsServer(s: State, w: nat)
    requires Useful(s, w)
    ensures w < |s.servers|
  {
  }

  // Whatever has happened, but for the crash, all that was accepted can still be served,
  // without another call.
  lemma EachElementServed(run: seq<State>, steps: seq<Step>, threads: int) returns (run': seq<State>, steps': seq<Step>)
    requires IsRun(run, steps, threads) && !run[|steps|].crashed && threads > 0
    ensures IsRun(run', steps', threads) && run <= run'
    ensures var s' := run'[|steps'|];
      s'.accepted == run[|steps|].accepted && s'.shared.queue == [] && multiset(s'.served) == multiset(s'.accepted)
  {
    hide Live, Idling, InWork;
    run', steps' := WorkedOff(run, steps, threads);
    var s' := run'[|steps'|];
    RunKeeps(run', steps', threads, |steps'|);
    NoneUseful(s', threads);
    NoneWorks(s'.servers);
  }

  lemma NoneUseful(s: State, threads: int)
    requires Inv(s, threads) && forall w: nat :: !Useful(s, w)
    ensures threads > 0 ==> s.shared.queue == [] && s.accepted == s.taken
    ensures forall w :: 0 <= w < |s.servers| ==> !s.servers[w].Working?
    ensures s.shared.quit ==> Present(s) == {} && s.shared.counter == 0
  {
    hide Live, Idling, InWork;
    LiveIsPresent(s);
    forall w: nat | w < |s.servers|
      ensures !s.servers[w].Working? && (s.shared.queue != [] || s.shared.quit ==> w !in Present(s))
    {
      assert !Useful(s, w);
    }
    assert s.shared.queue != [] || s.shared.quit ==> Present(s) == {};
    assert s.shared.queue == [] ==> s.taken + [] == s.taken;
  }

  lemma {:induction false} NoneWorks(servers: seq<Server>)
    requires forall w :: 0 <= w < |servers| ==> !servers[w].Working?
    ensures InWork(servers) == multiset{}
  {
    if servers != [] { NoneWorks(servers[1..]); }
  }

  // A call of workq_destroy that waits can return, without another call.
  lemma DestroyCanReturn(run: seq<State>, steps: seq<Step>, threads: int) returns (run': seq<State>, steps': seq<Step>)
    requires IsRun(run, steps, threads) && !run[|steps|].crashed && run[|steps|].destroyer.Closing?
    ensures IsRun(run', steps', threads) && run <= run' && run'[|steps'|].destroyer.Done?
  {
    hide Live, Idling, InWork;
    RunKeeps(run, steps, threads, |steps|);
    run', steps' := WorkedOff(run, steps, threads);
    var s' := run'[|steps'|];
    RunKeeps(run', steps', threads, |steps'|);
    NoneUseful(s', threads);
    RunExtended(run', steps', threads, DestroyReturns);
    run', steps' := run' + [Next(s', DestroyReturns)], steps' + [DestroyReturns];
  }
}
