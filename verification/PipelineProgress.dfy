// When the threads of the pipeline (pipe.c) have to wait, and only then.
module PipelineProgress {
  import opened Pipeline

  // The step is one of stage i's thread.
  predicate OfStage(step: Step, i: nat) {
    step == Wake(i) || step == Send(i) || step == Clear(i)
  }

  // A stage's thread waits exactly while it has no value, or the next stage still has
  // the one before.
  lemma StageWaitsExactly(run: seq<State>, steps: seq<Step>, i: nat, k: nat)
    requires IsRun(run, steps) && i <= |steps| && k < |run[i].places| && |run[i].slots| == |run[i].places| + 1
    ensures var s := run[i];
      (forall step :: OfStage(step, k) ==> !Enabled(s, step)) <==>
      !s.slots[k].ready || (s.places[k].Sending? && s.slots[k + 1].ready)
  {
    RunKeeps(run, steps, i);
    var s := run[i];
    if s.slots[k].ready && !(s.places[k].Sending? && s.slots[k + 1].ready) {
      assert OfStage(Wake(k), k) && OfStage(Send(k), k) && OfStage(Clear(k), k);
      assert Enabled(s, Wake(k)) || Enabled(s, Send(k)) || Enabled(s, Clear(k));
    }
  }

  lemma RunExtended(run: seq<State>, steps: seq<Step>, step: Step)
    requires IsRun(run, steps) && Enabled(run[|steps|], step)
    ensures IsRun(run + [Next(run[|steps|], step)], steps + [step])
  {
    hide Enabled, Next;
    var more, next := run + [Next(run[|steps|], step)], steps + [step];
    forall i | 0 <= i < |next| ensures Enabled(more[i], next[i]) && more[i + 1] == Next(more[i], next[i]) {
      if i < |steps| {
        assert Enabled(run[i], steps[i]) && run[i + 1] == Next(run[i], steps[i]);
      }
    }
  }

  // The run goes on with one step to the state s.
  ghost predicate GoesOnTo(run: seq<State>, steps: seq<Step>, s: State) {
    exists step :: IsRun(run + [s], steps + [step])
  }

  // pipe_start: it can be called at any time, and its value goes in exactly if the
  // first stage has none.
  lemma StartsExactly(run: seq<State>, steps: seq<Step>, k: nat)
    requires IsRun(run, steps) && k < |run[|steps|].pending| && |run[|steps|].slots| == |run[|steps|].places| + 1
    ensures forall v :: Enabled(run[|steps|], Start(v))
    ensures var s, v := run[|steps|], run[|steps|].pending[k];
      !s.slots[0].ready <==>
      GoesOnTo(run, steps, s.(slots := s.slots[0 := Slot(true, v)], accepted := s.accepted + [v],
                              pending := s.pending[..k] + s.pending[k + 1..]))
  {
    RunKeeps(run, steps, |steps|);
    var s, v := run[|steps|], run[|steps|].pending[k];
    var s' := s.(slots := s.slots[0 := Slot(true, v)], accepted := s.accepted + [v], pending := s.pending[..k] + s.pending[k + 1..]);
    if !s.slots[0].ready {
      RunExtended(run, steps, Accept(k));
      assert IsRun(run + [s'], steps + [Accept(k)]);
    }
    if step :| IsRun(run + [s'], steps + [step]) {
      var more, next := run + [s'], steps + [step];
      assert Enabled(more[|steps|], next[|steps|]) && more[|steps| + 1] == Next(more[|steps|], next[|steps|]);
      assert next[|steps|] == step && more[|steps|] == s && Next(s, step) == s';
      assert |s'.accepted| > |s.accepted|;
    }
  }

  // pipe_result: a claimed result is delivered exactly if the last stage has a value.
  lemma ResultsExactly(run: seq<State>, steps: seq<Step>, i: nat)
    requires IsRun(run, steps) && i <= |steps| && run[i].claimants > 0 && |run[i].slots| == |run[i].places| + 1
    ensures var s := run[i]; Enabled(s, Collect) <==> s.slots[|s.places|].ready
  {
  }

  // Nobody but a caller that comes anew, or collects, can go on.
  ghost predicate Stalls(s: State) {
    forall step :: Enabled(s, step) ==> step.Start? || step.Claim? || step.ReportEmpty? || step.Collect?
  }

  lemma {:induction false} AllReady(s: State, j: nat)
    requires Inv(s) && Stalls(s) && s.pending != [] && j < |s.slots|
    ensures s.slots[j].ready && (j < |s.places| ==> s.places[j].Sending?)
  {
    if j == 0 {
      assert !Enabled(s, Accept(0));
    } else {
      AllReady(s, j - 1);
      assert !Enabled(s, Send(j - 1));
    }
    if j < |s.places| { assert !Enabled(s, Wake(j)) && !Enabled(s, Clear(j)); }
  }

  lemma {:induction false} AllHold(s: State, j: nat)
    requires |s.slots| == |s.places| + 1 && j <= |s.slots|
    requires forall i :: j <= i < |s.slots| ==> s.slots[i].ready && (i < |s.places| ==> s.places[i].Sending?)
    ensures |UnderWay(s, j)| == |s.slots| - j
    decreases |s.slots| - j
  {
    if j < |s.slots| { AllHold(s, j + 1); }
  }

  // A value that was started waits for a result to be collected only when every
  // stage, and the last slot, has a value of its own.
  lemma StallsOnlyWhenFull(run: seq<State>, steps: seq<Step>, i: nat)
    requires IsRun(run, steps) && i <= |steps| && run[i].pending != [] && Stalls(run[i])
    ensures var s := run[i];
      (forall j :: 0 <= j < |s.slots| ==> s.slots[j].ready) && |s.accepted| == |s.delivered| + |s.places| + 1
  {
    RunKeeps(run, steps, i);
    var s := run[i];
    forall j: nat | j < |s.slots| ensures s.slots[j].ready && (j < |s.places| ==> s.places[j].Sending?) { AllReady(s, j); }
    AllHold(s, 0);
  }

  // ----- Every value comes out -----

  function Started(steps: seq<Step>): multiset<int> {
    if steps == [] then multiset{}
    else
      var last := steps[|steps| - 1];
      Started(steps[..|steps| - 1]) + if last.Start? then multiset{last.value} else multiset{}
  }

  // The values of the calls of pipe_start are those that wait and those accepted.
  lemma {:induction false} StartedAreCounted(run: seq<State>, steps: seq<Step>, i: nat)
    requires IsRun(run, steps) && i <= |steps|
    ensures Started(steps[..i]) == multiset(run[i].pending) + multiset(run[i].accepted)
  {
    if i > 0 {
      StartedAreCounted(run, steps, i - 1);
      assert steps[..i][..i - 1] == steps[..i - 1];
      assert Enabled(run[i - 1], steps[i - 1]) && run[i] == Next(run[i - 1], steps[i - 1]);
      if steps[i - 1].Accept? { TakenOut(run[i - 1].pending, steps[i - 1].k); }
    }
  }

  lemma TakenOut(s: seq<int>, k: nat)
    requires k < |s|
    ensures multiset(s) == multiset(s[..k] + s[k + 1..]) + multiset{s[k]}
  {
    assert s == s[..k] + [s[k]] + s[k + 1..];
  }

  // How far the value in slot j is from the end of the line.
  function SlotWay(s: State, j: nat): nat
    requires j < |s.slots| == |s.places| + 1
  {
    var n := |s.places|;
    if !s.slots[j].ready then 0
    else if j == n then 1
    else match s.places[j] case Idle => 3 * (n - j) + 1 case Sending => 3 * (n - j) case Clearing => 1
  }

  function SlotsWay(s: State, m: nat): nat
    requires m <= |s.slots| == |s.places| + 1
  {
    if m == 0 then 0 else SlotsWay(s, m - 1) + SlotWay(s, m - 1)
  }

  function Way(s: State): nat
    requires |s.slots| == |s.places| + 1
  {
    SlotsWay(s, |s.slots|) + |s.pending| * (3 * |s.places| + 2)
  }

  lemma {:induction false} SameWay(s: State, s': State, m: nat)
    requires m <= |s.slots| == |s.places| + 1 == |s'.slots| == |s'.places| + 1
    requires forall j :: 0 <= j < m ==> SlotWay(s', j) == SlotWay(s, j)
    ensures SlotsWay(s', m) == SlotsWay(s, m)
  {
    if m > 0 { SameWay(s, s', m - 1); }
  }

  // Only the slots j and j + 1, or j alone, have changed.
  lemma {:induction false} WayChanged(s: State, s': State, j: nat, m: nat)
    requires j < m <= |s.slots| == |s.places| + 1 == |s'.slots| == |s'.places| + 1
    requires forall i :: 0 <= i < |s.slots| && i != j && i != j + 1 ==> SlotWay(s', i) == SlotWay(s, i)
    ensures var more, more' := if j + 1 < m then SlotWay(s, j + 1) else 0, if j + 1 < m then SlotWay(s', j + 1) else 0;
      SlotsWay(s', m) + SlotWay(s, j) + more == SlotsWay(s, m) + SlotWay(s', j) + more'
  {
    if m == j + 1 {
      SameWay(s, s', j);
    } else if m == j + 2 {
      SameWay(s, s', j);
      assert SlotsWay(s, m) == SlotsWay(s, j) + SlotWay(s, j) + SlotWay(s, j + 1);
      assert SlotsWay(s', m) == SlotsWay(s', j) + SlotWay(s', j) + SlotWay(s', j + 1);
    } else {
      WayChanged(s, s', j, m - 1);
    }
  }

  predicate Forward(step: Step) {
    !step.Start? && !step.Claim? && !step.ReportEmpty?
  }

  function FirstChanged(s: State, step: Step): nat {
    match step
    case Wake(i) => i
    case Send(i) => i
    case Clear(i) => i
    case Collect => |s.places|
    case _ => 0
  }

  lemma StepShortens(s: State, step: Step)
    requires Inv(s) && Enabled(s, step) && Forward(step)
    ensures |Next(s, step).slots| == |Next(s, step).places| + 1 && Way(Next(s, step)) < Way(s)
  {
    var s' := Next(s, step);
    WayChanged(s, s', FirstChanged(s, step), |s.slots|);
    if step.Accept? { assert (|s.pending| - 1) * (3 * |s.places| + 2) == |s.pending| * (3 * |s.places| + 2) - (3 * |s.places| + 2); }
  }

  lemma SameCounts(s: State, step: Step)
    requires Enabled(s, step) && Forward(step)
    ensures var s' := Next(s, step);
      s'.active == s.active && |s'.pending| + |s'.accepted| == |s.pending| + |s.accepted| &&
      |s'.delivered| + s'.claimants == |s.delivered| + s.claimants
  {
  }

  // Whatever is claimed can be delivered without another call.
  lemma {:induction false} ClaimedComeOut(run: seq<State>, steps: seq<Step>) returns (run': seq<State>, steps': seq<Step>)
    requires IsRun(run, steps) && Inv(run[|steps|])
    ensures IsRun(run', steps') && run <= run' && steps <= steps' && forall i :: |steps| <= i < |steps'| ==> Forward(steps'[i])
    ensures var s, s' := run[|steps|], run'[|steps'|];
      s'.claimants == 0 && |s'.delivered| == |s.delivered| + s.claimants && s'.active == s.active
    decreases Way(run[|steps|])
  {
    hide Enabled, Next, Way, Inv;
    var s := run[|steps|];
    if s.claimants == 0 {
      run', steps' := run, steps;
    } else {
      NeverStuck(run, steps, |steps|);
      var step :| Enabled(s, step) && !step.Start? && !step.Claim? && !step.ReportEmpty?;
      StepShortens(s, step);
      SameCounts(s, step);
      StepKeeps(s, step);
      RunExtended(run, steps, step);
      run', steps' := ClaimedComeOut(run + [Next(s, step)], steps + [step]);
    }
  }

  lemma ClaimsOne(s: State)
    requires Enabled(s, Claim)
    ensures var s' := Next(s, Claim); s'.active == s.active - 1 && s'.claimants == s.claimants + 1 && s'.delivered == s.delivered
  {
  }

  lemma {:induction false} AllComeOut(run: seq<State>, steps: seq<Step>) returns (run': seq<State>, steps': seq<Step>)
    requires IsRun(run, steps) && Inv(run[|steps|])
    ensures IsRun(run', steps') && run <= run' && steps <= steps'
    ensures forall i :: |steps| <= i < |steps'| ==> !steps'[i].Start?
    ensures var s, s' := run[|steps|], run'[|steps'|];
      |s'.delivered| == |s.pending| + |s.accepted| && s'.active == 0 && s'.claimants == 0
    decreases run[|steps|].active
  {
    hide Next;
    var s := run[|steps|];
    if s.active == 0 {
      run', steps' := ClaimedComeOut(run, steps);
    } else {
      ClaimsOne(s);
      StepKeeps(s, Claim);
      RunExtended(run, steps, Claim);
      assert Next(s, Claim).pending == s.pending && Next(s, Claim).accepted == s.accepted by { ClaimKeepsValues(s); }
      run', steps' := AllComeOut(run + [Next(s, Claim)], steps + [Claim]);
    }
  }

  lemma ClaimKeepsValues(s: State)
    requires Enabled(s, Claim)
    ensures Next(s, Claim).pending == s.pending && Next(s, Claim).accepted == s.accepted
  {
  }

  lemma {:induction false} NoneStarted(steps: seq<Step>, steps': seq<Step>)
    requires steps <= steps' && forall i :: |steps| <= i < |steps'| ==> !steps'[i].Start?
    ensures Started(steps') == Started(steps)
  {
    if |steps'| > |steps| {
      NoneStarted(steps, steps'[..|steps'| - 1]);
    } else {
      assert steps' == steps;
    }
  }

  // Every run can go on, with no value more, until each value that was started has been
  // delivered, once, raised by one for each stage.
  lemma EachValueComesOut(run: seq<State>, steps: seq<Step>) returns (run': seq<State>, steps': seq<Step>)
    requires IsRun(run, steps)
    ensures IsRun(run', steps') && run <= run' && steps <= steps'
    ensures forall i :: |steps| <= i < |steps'| ==> !steps'[i].Start?
    ensures var s' := run'[|steps'|]; multiset(Through(s'.delivered, |s'.places|)) == Started(steps)
  {
    hide UnderWay, Holding;
    RunKeeps(run, steps, |steps|);
    StartedAreCounted(run, steps, |steps|);
    assert steps[..|steps|] == steps;
    run', steps' := AllComeOut(run, steps);
    RunKeeps(run', steps', |steps'|);
    StartedAreCounted(run', steps', |steps'|);
    assert steps'[..|steps'|] == steps';
    NoneStarted(steps, steps');
    var s' := run'[|steps'|];
    assert s'.pending == [] && UnderWay(s', 0) == [] && s'.accepted == Through(s'.delivered, |s'.places|) + [];
  }
}
