// What main may print once it has joined a thread (barrier_main.c).
module BarrierJoin {
  import opened BarrierProgram

  // ----- A thread's way to the end -----

  // The elements a thread has still to add to in this round.
  function AddsLeft(p: Params, loop: nat, element: nat): int {
    (p.inner - loop) * p.size - element
  }

  function PlaceRest(p: Params, place: Place): int {
    match place
    case Unborn => p.inner * p.size + p.threads + 7
    case Arriving(second) => if second then p.threads + 3 else p.inner * p.size + p.threads + 6
    case Waiting(second, _) => if second then p.threads + 2 else p.inner * p.size + p.threads + 5
    case Adding(i, e) => AddsLeft(p, i, e) + p.threads + 4
    case Raising(k) => p.threads - k + 1
    case Finished => 0
  }

  function Rest(p: Params, th: Thread): int {
    RoundsLeft(p.outer + 1 - th.round, p.inner * p.size + p.threads + 8) + PlaceRest(p, th.place)
  }

  function RoundsLeft(rounds: int, length: nat): int {
    if rounds <= 0 then 0 else length + RoundsLeft(rounds - 1, length)
  }

  predicate WellPlaced(p: Params, th: Thread) {
    th.round <= p.outer + 1 && (th.place.Finished? <==> th.round == p.outer + 1) &&
    (th.place.Adding? ==> th.place.loop < p.inner && th.place.element < p.size) &&
    (th.place.Raising? ==> th.place.k < p.threads)
  }

  lemma MoreAdds(p: Params, i: nat, e: nat)
    requires i < p.inner && e < p.size
    ensures AddsLeft(p, i, e) > 0 && AddsLeft(p, 0, 0) == p.inner * p.size
    ensures AddsLeft(p, i + 1, 0) == AddsLeft(p, i, e) - (p.size - e)
  {
    Distribute(p.size, p.inner - i - 1, 1);
    assert (p.inner - i - 1) * p.size >= 0;
  }

  lemma RestPositive(p: Params, th: Thread)
    requires WellPlaced(p, th)
    ensures Rest(p, th) >= 0
  {
    if th.place.Adding? { MoreAdds(p, th.place.loop, th.place.element); }
    assert p.inner * p.size >= 0;
    RoundsPositive(p.outer + 1 - th.round, p.inner * p.size + p.threads + 8);
  }

  lemma {:induction false} RoundsPositive(rounds: int, length: nat)
    ensures RoundsLeft(rounds, length) >= 0
  {
    if rounds > 0 { RoundsPositive(rounds - 1, length); }
  }

  // To another place in the same round.
  lemma SameRound(p: Params, th: Thread, th': Thread)
    requires th'.round == th.round && PlaceRest(p, th'.place) < PlaceRest(p, th.place)
    ensures Rest(p, th') < Rest(p, th)
  {
    hide PlaceRest, RoundsLeft;
  }

  lemma RoundShortens(p: Params, th: Thread)
    requires WellPlaced(p, th) && th.round <= p.outer && PlaceRest(p, th.place) > 1
    ensures Rest(p, NextRound(p, th)) < Rest(p, th)
  {
    assert p.inner * p.size >= 0;
  }

  lemma AddsNext(p: Params, loop: nat, element: nat)
    requires loop < p.inner && element < p.size
    ensures PlaceRest(p, NextAdd(p, loop, element + 1)) < PlaceRest(p, Adding(loop, element))
  {
    MoreAdds(p, loop, element);
  }

  lemma AddsFirst(p: Params)
    ensures PlaceRest(p, NextAdd(p, 0, 0)) < p.inner * p.size + p.threads + 5
  {
    assert p.inner * p.size >= 0;
    if p.inner > 0 && p.size > 0 { MoreAdds(p, 0, 0); }
  }

  lemma PassedShortens(p: Params, th: Thread, second: bool, last: bool)
    requires WellPlaced(p, th) && (th.place == Arriving(second) || (th.place.Waiting? && th.place.second == second))
    ensures Rest(p, Passed(p, th, second, last)) < Rest(p, th)
  {
    hide Rest, NextAdd, NextRound, RoundsLeft;
    if !second {
      AddsFirst(p);
      SameRound(p, th, th.(place := NextAdd(p, 0, 0)));
    } else if last {
      SameRound(p, th, th.(place := Raising(0)));
    } else {
      RoundShortens(p, th);
    }
  }

  // Every step brings the thread nearer to its end.
  lemma StepShortens(p: Params, s: State, step: Step)
    requires Inv(p, s) && Enabled(p, s, step)
    ensures WellPlaced(p, s.threads[step.t]) && Rest(p, Next(p, s, step).threads[step.t]) < Rest(p, s.threads[step.t])
  {
    hide Rest, NextAdd, NextRound, Passed, Element, Increments, Arrays, RaisedUpTo;
    var t := step.t;
    var th, th' := s.threads[t], Next(p, s, step).threads[t];
    assert InStep(p, th, s.barrier.cycle);
    match step
    case Create(_) => CreateShortens(p, s, t);
    case Enter(_) =>
      if EntersLast(s.barrier) {
        PassedShortens(p, th, th.place.second, true);
      } else {
        SameRound(p, th, th');
      }
    case Leave(_) => PassedShortens(p, th, th.place.second, false);
    case Add(_) =>
      AddsNext(p, th.place.loop, th.place.element);
      SameRound(p, th, th');
    case Raise(_) => RaiseShortens(p, s, t);
  }

  lemma CreateShortens(p: Params, s: State, t: nat)
    requires Enabled(p, s, Create(t)) && s.threads[t].round == 0
    ensures Rest(p, Next(p, s, Create(t)).threads[t]) < Rest(p, s.threads[t])
  {
    hide Rest;
    SameRound(p, s.threads[t], Fresh(p, t));
  }

  lemma RaiseShortens(p: Params, s: State, t: nat)
    requires Enabled(p, s, Raise(t)) && WellPlaced(p, s.threads[t])
    ensures Rest(p, Next(p, s, Raise(t)).threads[t]) < Rest(p, s.threads[t])
  {
    hide Rest, RoundsLeft;
    var th, th' := s.threads[t], Next(p, s, Raise(t)).threads[t];
    if th.place.k + 1 < p.threads {
      SameRound(p, th, th');
    } else {
      RoundShortens(p, th);
      SamePlace(p, NextRound(p, th), th');
    }
  }

  lemma SamePlace(p: Params, th: Thread, th': Thread)
    requires th'.round == th.round && th'.place == th.place
    ensures Rest(p, th') == Rest(p, th)
  {
  }

  // The others stay where they are; at most their increments change.
  lemma OthersStay(p: Params, s: State, step: Step, u: nat)
    requires Enabled(p, s, step) && u < |s.threads| && u != step.t
    ensures |Next(p, s, step).threads| == |s.threads|
    ensures Next(p, s, step).threads[u].place == s.threads[u].place && Next(p, s, step).threads[u].round == s.threads[u].round
  {
  }

  function TotalRest(p: Params, threads: seq<Thread>): int {
    if threads == [] then 0 else Rest(p, threads[0]) + TotalRest(p, threads[1..])
  }

  lemma {:induction false} TotalShortens(p: Params, a: seq<Thread>, b: seq<Thread>, t: nat)
    requires |a| == |b| && t < |a| && Rest(p, b[t]) < Rest(p, a[t])
    requires forall u :: 0 <= u < |a| && u != t ==> Rest(p, b[u]) == Rest(p, a[u])
    ensures TotalRest(p, b) < TotalRest(p, a)
  {
    hide Rest;
    if t > 0 { TotalShortens(p, a[1..], b[1..], t - 1); } else { TotalSame(p, a[1..], b[1..]); }
  }

  lemma {:induction false} TotalSame(p: Params, a: seq<Thread>, b: seq<Thread>)
    requires |a| == |b| && forall u :: 0 <= u < |a| ==> Rest(p, b[u]) == Rest(p, a[u])
    ensures TotalRest(p, b) == TotalRest(p, a)
  {
    hide Rest;
    if a != [] { TotalSame(p, a[1..], b[1..]); }
  }

  lemma {:induction false} TotalPositive(p: Params, threads: seq<Thread>)
    requires forall t :: 0 <= t < |threads| ==> WellPlaced(p, threads[t])
    ensures TotalRest(p, threads) >= 0
  {
    hide Rest;
    if threads != [] {
      RestPositive(p, threads[0]);
      TotalPositive(p, threads[1..]);
    }
  }

  lemma RunShortens(p: Params, s: State, step: Step)
    requires Inv(p, s) && Enabled(p, s, step)
    ensures TotalRest(p, s.threads) >= 0 && TotalRest(p, Next(p, s, step).threads) < TotalRest(p, s.threads)
  {
    hide Next, Enabled;
    assert |s.threads| == p.threads && step.t < p.threads by { StepThread(p, s, step); }
    forall t | 0 <= t < |s.threads| ensures WellPlaced(p, s.threads[t]) { assert InStep(p, s.threads[t], s.barrier.cycle); }
    TotalPositive(p, s.threads);
    StepShortens(p, s, step);
    var s' := Next(p, s, step);
    assert |s'.threads| == |s.threads| by { StepThread(p, s, step); }
    forall u | 0 <= u < |s.threads| && u != step.t ensures Rest(p, s'.threads[u]) == Rest(p, s.threads[u]) {
      OthersStay(p, s, step, u);
    }
    TotalShortens(p, s.threads, s'.threads, step.t);
  }

  lemma StepThread(p: Params, s: State, step: Step)
    requires Enabled(p, s, step)
    ensures step.t < |s.threads| == p.threads == |Next(p, s, step).threads|
  {
  }

  // ----- A schedule that leaves the last thread behind -----

  // The last thread is held back until no other can go on; so it never waits.
  predicate HeldBack(p: Params, s: State) {
    |s.threads| == p.threads > 0 &&
    var last := s.threads[p.threads - 1];
    !last.place.Waiting? && !last.place.Finished? && (last.place.Raising? && last.round == p.outer ==> last.place.k == 0)
  }

  // All others have returned, and the last one is about to raise the increments.
  predicate LeftBehind(p: Params, s: State) {
    |s.threads| == p.threads > 0 && s.threads[p.threads - 1].place == Raising(0) && s.threads[p.threads - 1].round == p.outer &&
    forall t :: 0 <= t < p.threads - 1 ==> s.threads[t].place.Finished?
  }

  ghost predicate OthersIdle(p: Params, s: State) {
    forall step :: Enabled(p, s, step) ==> step.t >= p.threads - 1
  }

  // Then they wait in the current cycle, or have returned.
  lemma OtherIdle(p: Params, s: State, t: nat)
    requires Inv(p, s) && OthersIdle(p, s) && t < p.threads - 1
    ensures var place := s.threads[t].place; place.Finished? || (place.Waiting? && place.cycle == s.barrier.cycle)
  {
    assert InStep(p, s.threads[t], s.barrier.cycle);
    if s.threads[t].place.Unborn? {
      var first := FirstUnborn(s, t);
      assert Enabled(p, s, Create(first));
    }
    assert !Enabled(p, s, Enter(t)) && !Enabled(p, s, Add(t)) && !Enabled(p, s, Raise(t)) && !Enabled(p, s, Leave(t));
  }

  // If the last thread arrives, it is the last to arrive.
  lemma ArrivesLast(p: Params, s: State)
    requires Inv(p, s) && HeldBack(p, s) && OthersIdle(p, s) && s.threads[p.threads - 1].place.Arriving?
    ensures EntersLast(s.barrier)
  {
    var last := p.threads - 1;
    assert InStep(p, s.threads[last], s.barrier.cycle);
    forall t | 0 <= t < last ensures t in Held(s) {
      OtherIdle(p, s, t);
      assert InStep(p, s.threads[t], s.barrier.cycle);
    }
    assert Held(s) == Range(last);
  }

  // The step of the last thread.
  lemma LastGoesOn(p: Params, s: State) returns (step: Step)
    requires Inv(p, s) && HeldBack(p, s) && OthersIdle(p, s)
    requires !(s.threads[p.threads - 1].place.Raising? && s.threads[p.threads - 1].round == p.outer)
    ensures Enabled(p, s, step) && HeldBack(p, Next(p, s, step))
  {
    var t := p.threads - 1;
    var place := s.threads[t].place;
    assert InStep(p, s.threads[t], s.barrier.cycle);
    forall u | 0 <= u < t ensures !s.threads[u].place.Unborn? { OtherIdle(p, s, u); }
    if place.Arriving? { ArrivesLast(p, s); }
    step := if place.Unborn? then Create(t) else if place.Arriving? then Enter(t) else if place.Adding? then Add(t) else Raise(t);
  }

  lemma NobodyElse(p: Params, s: State)
    requires Inv(p, s) && HeldBack(p, s) && OthersIdle(p, s)
    requires s.threads[p.threads - 1].place.Raising? && s.threads[p.threads - 1].round == p.outer
    ensures LeftBehind(p, s)
  {
    assert InStep(p, s.threads[p.threads - 1], s.barrier.cycle);
    forall t | 0 <= t < p.threads - 1 ensures s.threads[t].place.Finished? {
      OtherIdle(p, s, t);
      assert InStep(p, s.threads[t], s.barrier.cycle);
    }
  }

  lemma OtherKeepsBack(p: Params, s: State, step: Step)
    requires HeldBack(p, s) && Enabled(p, s, step) && step.t < p.threads - 1
    ensures HeldBack(p, Next(p, s, step))
  {
    OthersStay(p, s, step, p.threads - 1);
  }

  lemma RunExtended(p: Params, run: seq<State>, steps: seq<Step>, step: Step)
    requires IsRun(p, run, steps) && Enabled(p, run[|steps|], step)
    ensures IsRun(p, run + [Next(p, run[|steps|], step)], steps + [step])
  {
    hide Enabled, Next;
    var more, next := run + [Next(p, run[|steps|], step)], steps + [step];
    forall i | 0 <= i < |next| ensures Enabled(p, more[i], next[i]) && more[i + 1] == Next(p, more[i], next[i]) {
      if i < |steps| {
        assert Enabled(p, run[i], steps[i]) && run[i + 1] == Next(p, run[i], steps[i]);
      }
    }
  }

  lemma {:induction false} GoesOn(p: Params, run: seq<State>, steps: seq<Step>) returns (run': seq<State>, steps': seq<Step>)
    requires IsRun(p, run, steps) && HeldBack(p, run[|steps|])
    ensures IsRun(p, run', steps') && LeftBehind(p, run'[|steps'|])
    decreases TotalRest(p, run[|steps|].threads)
  {
    hide Enabled, Next, Inv, HeldBack, LeftBehind;
    var s, last := run[|steps|], p.threads - 1;
    RunKeeps(p, run, steps, |steps|);
    ThreadsThere(p, s);
    var step;
    if other :| Enabled(p, s, other) && other.t < last {
      step := other;
      OtherKeepsBack(p, s, step);
    } else if s.threads[last].place.Raising? && s.threads[last].round == p.outer {
      NobodyElse(p, s);
      return run, steps;
    } else {
      step := LastGoesOn(p, s);
    }
    RunShortens(p, s, step);
    RunExtended(p, run, steps, step);
    run', steps' := GoesOn(p, run + [Next(p, s, step)], steps + [step]);
  }

  lemma ThreadsThere(p: Params, s: State)
    requires HeldBack(p, s)
    ensures |s.threads| == p.threads > 0
  {
  }

  // ----- What main prints -----

  // main has joined the threads 0 to t.
  predicate Joined(p: Params, s: State, t: nat) {
    t < |s.threads| == p.threads && forall u :: 0 <= u <= t ==> s.threads[u].place.Finished?
  }

  // Whatever the schedule and the parameters, but for the last thread: it can be
  // joined, with all before it, and its increment is one too low.
  lemma EarlyPrint(p: Params, t: nat) returns (run: seq<State>, steps: seq<Step>)
    requires t < p.threads - 1
    ensures IsRun(p, run, steps) && Joined(p, run[|steps|], t) && run[|steps|].threads[t].increment == t + p.outer
  {
    var start := State(Barrier(p.threads, p.threads, 0), seq(p.threads, _ => Thread(Unborn, 0, 0, [])));
    run, steps := GoesOn(p, [start], []);
    RunKeeps(p, run, steps, |steps|);
    var s := run[|steps|];
    assert InRaise(s, p.threads - 1) && InStep(p, s.threads[p.threads - 1], s.barrier.cycle);
    assert RaisedUpTo(s, 0);
  }

  ghost predicate FinalWhenJoined(p: Params, t: nat) {
    forall run: seq<State>, steps: seq<Step> :: IsRun(p, run, steps) && Joined(p, run[|steps|], t) ==> run[|steps|].threads[t].increment == t + p.outer + 1
  }

  // main prints the final increment of the thread it has just joined, in every run,
  // exactly if it is the last thread.
  lemma JoinOrder(p: Params, t: nat)
    requires t < p.threads
    ensures FinalWhenJoined(p, t) <==> t == p.threads - 1
  {
    if t < p.threads - 1 {
      var run, steps := EarlyPrint(p, t);
      assert !FinalWhenJoined(p, t);
    } else {
      forall run: seq<State>, steps: seq<Step> | IsRun(p, run, steps) && Joined(p, run[|steps|], t)
        ensures run[|steps|].threads[t].increment == t + p.outer + 1
      {
        SameEnd(p, run, steps);
      }
    }
  }
}
