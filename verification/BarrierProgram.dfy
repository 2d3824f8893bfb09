// The two-phase program on a reusable barrier (barrier_main.c), step by step.
module BarrierProgram {

  // THREADS, ARRAY, INLOOPS and OUTLOOPS.
  datatype Params = Params(threads: nat, size: nat, inner: nat, outer: nat)

  // ----- The barrier -----

  datatype Barrier = Barrier(threshold: int, counter: int, cycle: int)

  // What barrier_wait does before it returns -1, or waits in the cycle it found.
  function Entered(b: Barrier): Barrier {
    if b.counter - 1 == 0 then b.(cycle := b.cycle + 1, counter := b.threshold) else b.(counter := b.counter - 1)
  }

  predicate EntersLast(b: Barrier) {
    b.counter - 1 == 0
  }

  datatype Status = OK | EINVAL | EBUSY

  // barrier_t, one critical section a method.
  class BarrierObject {
    var threshold: int
    var counter: int
    var cycle: int
    var valid: bool

    ghost function Value(): Barrier
      reads this
    {
      Barrier(threshold, counter, cycle)
    }

    // barrier_int
    constructor (count: int)
      ensures Value() == Barrier(count, count, 0) && valid
    {
      threshold, counter, cycle, valid := count, count, 0, true;
    }

    // barrier_wait up to the wait: the status -1 and no wait, or a wait in the cycle returned.
    method Enter() returns (status: Status, last: bool, myCycle: int)
      modifies this`counter, this`cycle
      ensures status == if old(valid) then OK else EINVAL
      ensures status == EINVAL ==> Value() == old(Value())
      ensures status == OK ==> Value() == Entered(old(Value())) && last == EntersLast(old(Value())) && myCycle == old(cycle)
    {
      status, last, myCycle := OK, false, cycle;
      if !valid {
        status := EINVAL;
        return;
      }
      counter := counter - 1;
      if counter == 0 {
        cycle := cycle + 1;
        counter := threshold;
        last := true;
      }
    }

    method Destroy() returns (status: Status)
      modifies this`valid
      ensures status == if !old(valid) then EINVAL else if counter != threshold then EBUSY else OK
      ensures valid == (old(valid) && status != OK)
    {
      if !valid {
        return EINVAL;
      }
      if counter != threshold {
        return EBUSY;
      }
      valid := false;
      status := OK;
    }
  }

  // ----- The threads -----

  // Where a thread is: not created, about to enter the first or the second
  // barrier of a round, waiting there since a cycle, adding its increment to an
  // element, raising the k-th increment, or done.
  datatype Place =
    | Unborn
    | Arriving(second: bool)
    | Waiting(second: bool, cycle: int)
    | Adding(loop: nat, element: nat)
    | Raising(k: nat)
    | Finished

  datatype Thread = Thread(place: Place, round: nat, increment: int, elements: seq<int>)

  datatype State = State(barrier: Barrier, threads: seq<Thread>)

  datatype Step = Create(t: nat) | Enter(t: nat) | Leave(t: nat) | Add(t: nat) | Raise(t: nat)

  // After an element: the next one, the next inner loop, or the second barrier.
  function NextAdd(p: Params, loop: nat, element: nat): Place {
    if loop >= p.inner || p.size == 0 then Arriving(true)
    else if element < p.size then Adding(loop, element)
    else if loop + 1 < p.inner then Adding(loop + 1, 0)
    else Arriving(true)
  }

  // After the second barrier.
  function NextRound(p: Params, th: Thread): Thread {
    th.(round := th.round + 1, place := if th.round + 1 <= p.outer then Arriving(false) else Finished)
  }

  // After barrier_wait returned, with status -1 if last.
  function Passed(p: Params, th: Thread, second: bool, last: bool): Thread {
    if !second then th.(place := NextAdd(p, 0, 0))
    else if last then th.(place := Raising(0))
    else NextRound(p, th)
  }

  function Fresh(p: Params, t: nat): Thread {
    Thread(Arriving(false), 0, t, seq(p.size, c => c + 1))
  }

  predicate Enabled(p: Params, s: State, step: Step) {
    step.t < |s.threads| == p.threads &&
    var place := s.threads[step.t].place;
    match step
    case Create(t) => place.Unborn? && forall u :: 0 <= u < t ==> !s.threads[u].place.Unborn?
    case Enter(_) => place.Arriving?
    case Leave(_) => place.Waiting? && place.cycle != s.barrier.cycle
    case Add(t) => place.Adding? && place.element < |s.threads[t].elements|
    case Raise(_) => place.Raising? && place.k < |s.threads|
  }

  function Next(p: Params, s: State, step: Step): State
    requires Enabled(p, s, step)
  {
    var t := step.t;
    var th := s.threads[t];
    match step
    case Create(_) => s.(threads := s.threads[t := Fresh(p, t)])
    case Enter(_) =>
      var th' := if EntersLast(s.barrier) then Passed(p, th, th.place.second, true)
                 else th.(place := Waiting(th.place.second, s.barrier.cycle));
      State(Entered(s.barrier), s.threads[t := th'])
    case Leave(_) => s.(threads := s.threads[t := Passed(p, th, th.place.second, false)])
    case Add(_) =>
      var (i, c) := (th.place.loop, th.place.element);
      s.(threads := s.threads[t := th.(elements := th.elements[c := th.elements[c] + th.increment], place := NextAdd(p, i, c + 1))])
    case Raise(_) =>
      var k := th.place.k;
      var raised := s.threads[k := s.threads[k].(increment := s.threads[k].increment + 1)];
      s.(threads := raised[t := if k + 1 == p.threads then NextRound(p, raised[t]) else raised[t].(place := Raising(k + 1))])
  }

  // main, before it creates the first thread: the thread table holds anything.
  predicate Initial(p: Params, s: State) {
    p.threads > 0 && s.barrier == Barrier(p.threads, p.threads, 0) && |s.threads| == p.threads &&
    forall t :: 0 <= t < p.threads ==> s.threads[t].place.Unborn? && s.threads[t].round == 0
  }

  ghost predicate IsRun(p: Params, run: seq<State>, steps: seq<Step>) {
    |run| == |steps| + 1 && Initial(p, run[0]) &&
    forall i :: 0 <= i < |steps| ==> Enabled(p, run[i], steps[i]) && run[i + 1] == Next(p, run[i], steps[i])
  }

  // ----- What every step keeps -----

  // The number of barriers a thread has got through.
  function Crossed(th: Thread): int {
    match th.place
    case Unborn => 0
    case Arriving(second) => 2 * th.round + (if second then 1 else 0)
    case Waiting(second, _) => 2 * th.round + (if second then 1 else 0)
    case Adding(_, _) => 2 * th.round + 1
    case Raising(_) => 2 * th.round + 2
    case Finished => 2 * th.round
  }

  // No thread is a cycle ahead; one that is a cycle behind has been released.
  predicate InStep(p: Params, th: Thread, cycle: int) {
    th.round <= p.outer + 1 && (th.place.Finished? <==> th.round == p.outer + 1) && (th.place.Unborn? ==> th.round == 0) &&
    (th.place.Adding? ==> th.place.loop < p.inner && th.place.element < p.size) &&
    (th.place.Raising? ==> th.place.k < p.threads) &&
    if th.place.Waiting? then th.place.cycle == Crossed(th) && cycle - 1 <= Crossed(th) <= cycle else Crossed(th) == cycle
  }

  function Held(s: State): set<int> {
    set t | 0 <= t < |s.threads| && s.threads[t].place.Waiting? && s.threads[t].place.cycle == s.barrier.cycle
  }

  predicate InRaise(s: State, t: int) {
    0 <= t < |s.threads| && s.threads[t].place.Raising?
  }

  ghost predicate NoRaise(s: State) {
    forall t :: !InRaise(s, t)
  }

  // The first m increments have been raised in this cycle, the others not yet.
  ghost predicate RaisedUpTo(s: State, m: int) {
    forall k :: 0 <= k < |s.threads| && !s.threads[k].place.Unborn? ==>
      s.threads[k].increment == k + s.barrier.cycle / 2 - (if k < m then 0 else 1)
  }

  ghost predicate Increments(s: State) {
    (forall t :: InRaise(s, t) ==> RaisedUpTo(s, s.threads[t].place.k)) && (NoRaise(s) ==> RaisedUpTo(s, |s.threads|))
  }

  function Sum(t: int, rounds: nat): int {
    if rounds == 0 then 0 else Sum(t, rounds - 1) + (t + rounds - 1)
  }

  // Element c of thread t, given where the thread is.
  function Element(p: Params, th: Thread, t: int, c: int): int {
    match th.place
    case Arriving(second) => c + 1 + p.inner * Sum(t, if second then th.round + 1 else th.round)
    case Waiting(second, _) => c + 1 + p.inner * Sum(t, if second then th.round + 1 else th.round)
    case Adding(i, e) => c + 1 + p.inner * Sum(t, th.round) + (i + if c < e then 1 else 0) * (t + th.round)
    case Raising(_) => c + 1 + p.inner * Sum(t, th.round + 1)
    case _ => c + 1 + p.inner * Sum(t, th.round)
  }

  ghost predicate Arrays(p: Params, s: State) {
    forall t :: 0 <= t < |s.threads| && !s.threads[t].place.Unborn? ==>
      |s.threads[t].elements| == p.size &&
      forall c :: 0 <= c < p.size ==> s.threads[t].elements[c] == Element(p, s.threads[t], t, c)
  }

  // The parts of the invariant that do not look at the data.
  ghost predicate Control(p: Params, s: State) {
    p.threads > 0 && |s.threads| == p.threads && s.barrier.threshold == p.threads && s.barrier.cycle >= 0 &&
    (forall t :: 0 <= t < p.threads ==> InStep(p, s.threads[t], s.barrier.cycle)) &&
    0 < s.barrier.counter && s.barrier.counter == p.threads - |Held(s)| &&
    (forall t, u :: InRaise(s, t) && InRaise(s, u) ==> t == u)
  }

  ghost predicate Inv(p: Params, s: State) {
    Control(p, s) && Increments(s) && Arrays(p, s)
  }

  function Range(n: nat): (r: set<int>)
    ensures |r| == n && forall i :: i in r <==> 0 <= i < n
  {
    if n == 0 then {} else Range(n - 1) + {n - 1}
  }

  // If all but one are held, the others are.
  lemma AllHeld(s: State, n: nat, t: int)
    requires |s.threads| == n && 0 <= t < n && t !in Held(s) && |Held(s)| == n - 1
    ensures forall u :: 0 <= u < n && u != t ==> u in Held(s)
  {
    var rest := Range(n) - {t};
    assert Held(s) <= rest;
    assert rest == Held(s) + (rest - Held(s));
  }

  lemma InitialHolds(p: Params, s: State)
    requires Initial(p, s)
    ensures Inv(p, s)
  {
    assert Held(s) == {};
  }

  // One thread changed, not held before or after, and the barrier did not.
  lemma SameHeld(s: State, t: int, th: Thread)
    requires 0 <= t < |s.threads|
    requires !(s.threads[t].place.Waiting? && s.threads[t].place.cycle == s.barrier.cycle)
    requires !(th.place.Waiting? && th.place.cycle == s.barrier.cycle)
    ensures Held(s.(threads := s.threads[t := th])) == Held(s)
  {
  }

  lemma CreateKeeps(p: Params, s: State, t: nat)
    requires Inv(p, s) && Enabled(p, s, Create(t))
    ensures Inv(p, Next(p, s, Create(t)))
  {
    SameHeld(s, t, Fresh(p, t));
    var s' := Next(p, s, Create(t));
    assert s.barrier.cycle == 0;
    assert forall u :: InRaise(s', u) ==> InRaise(s, u);
    assert forall u :: InRaise(s, u) ==> InRaise(s', u);
  }

  // A thread goes on without touching shared data or starting to raise.
  lemma MovesOn(p: Params, s: State, t: int, th: Thread)
    requires Inv(p, s) && 0 <= t < p.threads && InStep(p, th, s.barrier.cycle)
    requires !s.threads[t].place.Unborn? && !th.place.Unborn? && !InRaise(s, t) && !th.place.Raising?
    requires !(s.threads[t].place.Waiting? && s.threads[t].place.cycle == s.barrier.cycle)
    requires !(th.place.Waiting? && th.place.cycle == s.barrier.cycle)
    requires th.increment == s.threads[t].increment && |th.elements| == p.size
    requires forall c :: 0 <= c < p.size ==> th.elements[c] == Element(p, th, t, c)
    ensures Inv(p, s.(threads := s.threads[t := th]))
  {
    SameHeld(s, t, th);
    var s' := s.(threads := s.threads[t := th]);
    assert forall u :: InRaise(s', u) <==> InRaise(s, u);
  }

  lemma NoWork(p: Params, th: Thread, t: int, c: int)
    requires th.place == NextAdd(p, 0, 0) && 0 <= c < p.size
    ensures Element(p, th, t, c) == c + 1 + p.inner * Sum(t, th.round)
  {
    assert p.inner == 0 ==> p.inner * Sum(t, th.round + 1) == 0 == p.inner * Sum(t, th.round);
  }

  lemma LeaveKeeps(p: Params, s: State, t: nat)
    requires Inv(p, s) && Enabled(p, s, Leave(t))
    ensures Inv(p, Next(p, s, Leave(t)))
  {
    var th := s.threads[t];
    var th' := Passed(p, th, th.place.second, false);
    forall c | 0 <= c < p.size ensures th'.elements[c] == Element(p, th', t, c) {
      assert th.elements[c] == Element(p, th, t, c);
      if !th.place.second { NoWork(p, th', t, c); }
    }
    MovesOn(p, s, t, th');
  }

  // What a thread has added after one more element.
  lemma Added(p: Params, th: Thread, t: int, c: int)
    requires th.place.Adding? && th.place.loop < p.inner && th.place.element < p.size && 0 <= c < p.size
    ensures var th' := th.(place := NextAdd(p, th.place.loop, th.place.element + 1));
      Element(p, th', t, c) == Element(p, th, t, c) + if c == th.place.element then t + th.round else 0
  {
    var (i, e, r) := (th.place.loop, th.place.element, t + th.round);
    Distribute(r, i, 1);
    if e + 1 == p.size && i + 1 == p.inner {
      assert Sum(t, th.round + 1) == Sum(t, th.round) + r;
      Distribute(p.inner, Sum(t, th.round), r);
      Distribute(r, i, if c < e then 1 else 0);
      assert i * r + r == p.inner * r by { assert p.inner == i + 1; }
    }
  }

  lemma Distribute(a: int, b: int, c: int)
    ensures a * (b + c) == a * b + a * c && (b + c) * a == b * a + c * a
  {
  }

  lemma AddKeeps(p: Params, s: State, t: nat)
    requires Inv(p, s) && Enabled(p, s, Add(t))
    ensures Inv(p, Next(p, s, Add(t)))
  {
    var th := s.threads[t];
    var th' := Next(p, s, Add(t)).threads[t];
    forall u ensures !InRaise(s, u) {
      assert 0 <= u < p.threads ==> InStep(p, s.threads[u], s.barrier.cycle);
    }
    assert NoRaise(s) && RaisedUpTo(s, |s.threads|);
    assert th.increment == t + th.round;
    forall c | 0 <= c < p.size ensures th'.elements[c] == Element(p, th', t, c) {
      Added(p, th, t, c);
    }
    MovesOn(p, s, t, th');
  }

  lemma SameIncrements(s: State, s': State)
    requires Increments(s) && |s.threads| == |s'.threads| && s.barrier.cycle == s'.barrier.cycle
    requires forall k :: 0 <= k < |s.threads| ==>
      var (th, th') := (s.threads[k], s'.threads[k]);
      th'.increment == th.increment && (th'.place.Unborn? <==> th.place.Unborn?) &&
      (th.place.Raising? || th'.place.Raising? ==> th'.place == th.place)
    ensures Increments(s')
  {
    forall u ensures InRaise(s', u) <==> InRaise(s, u) {}
    assert forall m :: RaisedUpTo(s, m) ==> RaisedUpTo(s', m);
  }

  lemma EnterWaits(p: Params, s: State, t: nat)
    requires Inv(p, s) && Enabled(p, s, Enter(t)) && !EntersLast(s.barrier)
    ensures Inv(p, Next(p, s, Enter(t)))
  {
    hide Held, InStep, RaisedUpTo, Element;
    var s' := Next(p, s, Enter(t));
    WaitingControl(p, s, t);
    SameIncrements(s, s');
    forall c | 0 <= c < p.size ensures s'.threads[t].elements[c] == Element(p, s'.threads[t], t, c) {
      SameElement(p, s.threads[t], s'.threads[t], t, c);
      assert s.threads[t].elements[c] == Element(p, s.threads[t], t, c);
    }
    assert Arrays(p, s');
  }

  lemma SameElement(p: Params, th: Thread, th': Thread, t: int, c: int)
    requires th.place.Arriving? && th'.place.Waiting? && th'.place.second == th.place.second && th'.round == th.round
    ensures Element(p, th', t, c) == Element(p, th, t, c)
  {
  }

  lemma WaitingControl(p: Params, s: State, t: nat)
    requires Control(p, s) && Enabled(p, s, Enter(t)) && !EntersLast(s.barrier)
    ensures Control(p, Next(p, s, Enter(t)))
  {
    hide Passed;
    var s' := Next(p, s, Enter(t));
    var th := s.threads[t].(place := Waiting(s.threads[t].place.second, s.barrier.cycle));
    assert s'.threads == s.threads[t := th] && InStep(p, th, s'.barrier.cycle);
    assert Held(s') == Held(s) + {t} && t !in Held(s);
    forall u ensures InRaise(s', u) <==> InRaise(s, u) {}
  }

  lemma EnterReleases(p: Params, s: State, t: nat)
    requires Inv(p, s) && Enabled(p, s, Enter(t)) && EntersLast(s.barrier)
    ensures Inv(p, Next(p, s, Enter(t)))
  {
    var s', th := Next(p, s, Enter(t)), s.threads[t];
    AllHeld(s, p.threads, t);
    assert Held(s') == {};
    forall u | 0 <= u < p.threads ensures InStep(p, s'.threads[u], s'.barrier.cycle) {
      assert u != t ==> u in Held(s);
    }
    forall u ensures !InRaise(s, u) && (InRaise(s', u) ==> u == t) {
      assert 0 <= u < p.threads && u != t ==> u in Held(s);
    }
    assert Control(p, s');
    ReleasedIncrements(p, s, t);
    ReleasedArrays(p, s, t);
  }

  lemma ReleasedIncrements(p: Params, s: State, t: nat)
    requires Inv(p, s) && Enabled(p, s, Enter(t)) && EntersLast(s.barrier)
    requires forall u :: !InRaise(s, u) && (InRaise(Next(p, s, Enter(t)), u) ==> u == t)
    requires forall u :: 0 <= u < p.threads && u != t ==> u in Held(s)
    ensures Increments(Next(p, s, Enter(t)))
  {
    var s' := Next(p, s, Enter(t));
    assert NoRaise(s) && RaisedUpTo(s, |s.threads|);
    assert s.threads[t].place.second <==> InRaise(s', t);
    assert InStep(p, s.threads[t], s.barrier.cycle);
    forall k | 0 <= k < |s.threads|
      ensures s'.threads[k].increment == k + s.barrier.cycle / 2 && !s.threads[k].place.Unborn?
    {
      assert k != t ==> k in Held(s);
    }
    assert RaisedUpTo(s', if s.threads[t].place.second then 0 else |s.threads|);
  }

  lemma ReleasedArrays(p: Params, s: State, t: nat)
    requires Inv(p, s) && Enabled(p, s, Enter(t)) && EntersLast(s.barrier)
    ensures Arrays(p, Next(p, s, Enter(t)))
  {
    var s', th := Next(p, s, Enter(t)), s.threads[t];
    forall c | 0 <= c < p.size ensures s'.threads[t].elements[c] == Element(p, s'.threads[t], t, c) {
      assert th.elements[c] == Element(p, th, t, c);
      if !th.place.second { NoWork(p, s'.threads[t], t, c); }
    }
  }

  lemma RaiseKeeps(p: Params, s: State, t: nat)
    requires Inv(p, s) && Enabled(p, s, Raise(t))
    ensures Inv(p, Next(p, s, Raise(t)))
  {
    hide Held, InStep, Increments, Arrays, Next;
    RaisingControl(p, s, t);
    RaisingIncrements(p, s, t);
    RaisingArrays(p, s, t);
  }

  lemma RaisingIncrements(p: Params, s: State, t: nat)
    requires Inv(p, s) && Enabled(p, s, Raise(t))
    ensures Increments(Next(p, s, Raise(t)))
  {
    hide Held, InStep, Arrays;
    var s', k := Next(p, s, Raise(t)), s.threads[t].place.k;
    RaisingControl(p, s, t);
    assert InRaise(s, t) && RaisedUpTo(s, k);
    assert RaisedUpTo(s', k + 1);
    forall u | InRaise(s', u) ensures RaisedUpTo(s', s'.threads[u].place.k) {
      assert u == t && s'.threads[t].place == Raising(k + 1);
    }
    if NoRaise(s') {
      assert !InRaise(s', t) && k + 1 == |s'.threads|;
    }
  }

  lemma RaisingArrays(p: Params, s: State, t: nat)
    requires Inv(p, s) && Enabled(p, s, Raise(t))
    ensures Arrays(p, Next(p, s, Raise(t)))
  {
    hide Held, InStep, Increments, Control;
    var s', k := Next(p, s, Raise(t)), s.threads[t].place.k;
    forall u, c | 0 <= u < |s.threads| && 0 <= c < p.size ensures Element(p, s'.threads[u], u, c) == Element(p, s.threads[u], u, c) {
    }
  }

  lemma RaisingControl(p: Params, s: State, t: nat)
    requires Control(p, s) && Enabled(p, s, Raise(t))
    ensures var s', k := Next(p, s, Raise(t)), s.threads[t].place.k;
      Control(p, s') && forall u :: InRaise(s', u) <==> u == t && k + 1 < p.threads
  {
    var s', k := Next(p, s, Raise(t)), s.threads[t].place.k;
    assert Held(s') == Held(s);
    assert InRaise(s, t);
    forall u ensures InRaise(s', u) <==> u == t && k + 1 < p.threads {
      assert 0 <= u < p.threads ==> InStep(p, s.threads[u], s.barrier.cycle);
      assert u != t && 0 <= u < p.threads ==> s'.threads[u].place == s.threads[u].place && !InRaise(s, u);
    }
    forall u | 0 <= u < p.threads ensures InStep(p, s'.threads[u], s'.barrier.cycle) {
      assert InStep(p, s.threads[u], s.barrier.cycle);
    }
  }

  lemma StepKeeps(p: Params, s: State, step: Step)
    requires Inv(p, s) && Enabled(p, s, step)
    ensures Inv(p, Next(p, s, step))
  {
    match step
    case Create(t) => CreateKeeps(p, s, t);
    case Enter(t) => if EntersLast(s.barrier) { EnterReleases(p, s, t); } else { EnterWaits(p, s, t); }
    case Leave(t) => LeaveKeeps(p, s, t);
    case Add(t) => AddKeeps(p, s, t);
    case Raise(t) => RaiseKeeps(p, s, t);
  }

  lemma {:induction false} RunKeeps(p: Params, run: seq<State>, steps: seq<Step>, i: nat)
    requires IsRun(p, run, steps) && i <= |steps|
    ensures Inv(p, run[i])
  {
    if i == 0 {
      InitialHolds(p, run[0]);
    } else {
      RunKeeps(p, run, steps, i - 1);
      StepKeeps(p, run[i - 1], steps[i - 1]);
    }
  }

  // ----- What the program is for -----

  // However the steps interleave, when all threads have returned they have all
  // seen the same increments in the same rounds.
  lemma SameEnd(p: Params, run: seq<State>, steps: seq<Step>)
    requires IsRun(p, run, steps) && |run[|steps|].threads| == p.threads
    requires forall t :: 0 <= t < p.threads ==> run[|steps|].threads[t].place.Finished?
    ensures var s := run[|steps|];
      s.barrier == Barrier(p.threads, p.threads, 2 * (p.outer + 1)) &&
      forall t :: 0 <= t < p.threads ==>
        s.threads[t].increment == t + p.outer + 1 && |s.threads[t].elements| == p.size &&
        forall c :: 0 <= c < p.size ==> s.threads[t].elements[c] == c + 1 + p.inner * Sum(t, p.outer + 1)
  {
    RunKeeps(p, run, steps, |steps|);
    var s := run[|steps|];
    assert Held(s) == {};
    assert InStep(p, s.threads[0], s.barrier.cycle);
    assert NoRaise(s) && RaisedUpTo(s, |s.threads|);
    forall t | 0 <= t < p.threads
      ensures s.threads[t].round == p.outer + 1 && s.threads[t].increment == t + p.outer + 1
    {
      assert InStep(p, s.threads[t], s.barrier.cycle);
    }
  }

  function Entries(th: Thread): int {
    Crossed(th) + if th.place.Waiting? then 1 else 0
  }

  // No thread gets through a barrier that another has not entered yet.
  lemma NoneLeavesEarly(p: Params, run: seq<State>, steps: seq<Step>, i: nat, t: int, u: int)
    requires IsRun(p, run, steps) && i <= |steps| && |run[i].threads| == p.threads
    requires 0 <= t < p.threads && 0 <= u < p.threads
    ensures Crossed(run[i].threads[t]) <= Entries(run[i].threads[u])
  {
    RunKeeps(p, run, steps, i);
    var s := run[i];
    assert InStep(p, s.threads[t], s.barrier.cycle) && InStep(p, s.threads[u], s.barrier.cycle);
  }

  // The step with which barrier_wait returns -1.
  predicate Releases(s: State, step: Step) {
    step.Enter? && EntersLast(s.barrier)
  }

  lemma {:induction false} CyclesGrow(p: Params, run: seq<State>, steps: seq<Step>, i: nat, j: nat)
    requires IsRun(p, run, steps) && i <= j <= |steps|
    ensures run[i].barrier.cycle <= run[j].barrier.cycle
  {
    if i < j { CyclesGrow(p, run, steps, i, j - 1); }
  }

  // Each cycle of the barrier ends in exactly one such step.
  lemma {:induction false} OneReleasePerCycle(p: Params, run: seq<State>, steps: seq<Step>, i: nat, g: int)
    requires IsRun(p, run, steps) && i <= |steps| && 0 <= g < run[i].barrier.cycle
    ensures exists j :: 0 <= j < i && Releases(run[j], steps[j]) && run[j].barrier.cycle == g
    ensures forall j, k :: 0 <= j < k < i && Releases(run[j], steps[j]) && Releases(run[k], steps[k]) ==>
      run[j].barrier.cycle < run[k].barrier.cycle
  {
    if g < run[i - 1].barrier.cycle {
      OneReleasePerCycle(p, run, steps, i - 1, g);
    } else {
      assert Releases(run[i - 1], steps[i - 1]) && run[i - 1].barrier.cycle == g;
    }
    forall j, k | 0 <= j < k < i && Releases(run[j], steps[j]) && Releases(run[k], steps[k])
      ensures run[j].barrier.cycle < run[k].barrier.cycle
    {
      CyclesGrow(p, run, steps, j + 1, k);
      assert run[j + 1] == Next(p, run[j], steps[j]);
    }
  }

  // No increment is raised while a thread uses its own.
  lemma NoRace(p: Params, run: seq<State>, steps: seq<Step>, i: nat, t: int, u: int)
    requires IsRun(p, run, steps) && i <= |steps| && 0 <= t < |run[i].threads|
    requires run[i].threads[t].place.Adding?
    ensures !InRaise(run[i], u)
  {
    RunKeeps(p, run, steps, i);
    var s := run[i];
    assert InStep(p, s.threads[t], s.barrier.cycle);
    assert InRaise(s, u) ==> InStep(p, s.threads[u], s.barrier.cycle);
  }

  // Some thread can always go on until all have returned.
  lemma NeverStuck(p: Params, run: seq<State>, steps: seq<Step>, i: nat)
    requires IsRun(p, run, steps) && i <= |steps| && |run[i].threads| == p.threads
    requires exists t :: 0 <= t < p.threads && !run[i].threads[t].place.Finished?
    ensures exists step :: Enabled(p, run[i], step)
  {
    RunKeeps(p, run, steps, i);
    var s := run[i];
    if t :| 0 <= t < p.threads && !s.threads[t].place.Finished? && !s.threads[t].place.Waiting? {
      assert InStep(p, s.threads[t], s.barrier.cycle);
      if s.threads[t].place.Unborn? {
        var first := FirstUnborn(s, t);
        assert Enabled(p, s, Create(first));
      }
      assert s.threads[t].place.Arriving? ==> Enabled(p, s, Enter(t));
      assert s.threads[t].place.Adding? ==> Enabled(p, s, Add(t));
      assert s.threads[t].place.Raising? ==> Enabled(p, s, Raise(t));
    } else if t :| 0 <= t < p.threads && s.threads[t].place.Waiting? && s.threads[t].place.cycle != s.barrier.cycle {
      assert Enabled(p, s, Leave(t));
    } else {
      SomeoneIsFree(p, s);
    }
  }

  // A thread waits exactly while it is at a barrier that some thread has still to
  // enter; one that is not created yet, exactly for those before it.
  lemma WaitsExactly(p: Params, run: seq<State>, steps: seq<Step>, i: nat, t: nat)
    requires IsRun(p, run, steps) && i <= |steps| && t < |run[i].threads| == p.threads && !run[i].threads[t].place.Finished?
    ensures var s, th := run[i], run[i].threads[t];
      (forall step: Step :: step.t == t ==> !Enabled(p, s, step)) <==>
      (th.place.Waiting? && exists u :: 0 <= u < p.threads && Entries(s.threads[u]) <= Crossed(th)) ||
      (th.place.Unborn? && exists u :: 0 <= u < t && s.threads[u].place.Unborn?)
  {
    RunKeeps(p, run, steps, i);
    var s, th := run[i], run[i].threads[t];
    assert InStep(p, th, s.barrier.cycle);
    if th.place.Waiting? {
      if th.place.cycle == s.barrier.cycle {
        var u := NotHeld(p, s);
        assert InStep(p, s.threads[u], s.barrier.cycle) && Entries(s.threads[u]) <= Crossed(th);
        assert forall step: Step :: step.t == t ==> !Enabled(p, s, step);
      } else {
        forall u | 0 <= u < p.threads ensures Entries(s.threads[u]) > Crossed(th) {
          assert InStep(p, s.threads[u], s.barrier.cycle);
        }
        assert Leave(t).t == t && Enabled(p, s, Leave(t));
      }
    } else {
      var step := if th.place.Unborn? then Create(t) else if th.place.Arriving? then Enter(t) else if th.place.Adding? then Add(t) else Raise(t);
      assert step.t == t && (Enabled(p, s, step) || th.place.Unborn?);
    }
  }

  lemma NotHeld(p: Params, s: State) returns (u: nat)
    requires Control(p, s)
    ensures u < p.threads && u !in Held(s)
  {
    var free := Range(p.threads) - Held(s);
    assert Range(p.threads) == free + Held(s);
    assert |free| > 0;
    var v :| v in free;
    u := v;
  }

  lemma {:induction false} FirstUnborn(s: State, t: nat) returns (first: nat)
    requires t < |s.threads| && s.threads[t].place.Unborn?
    ensures first <= t && s.threads[first].place.Unborn? && forall u :: 0 <= u < first ==> !s.threads[u].place.Unborn?
  {
    if u :| 0 <= u < t && s.threads[u].place.Unborn? {
      first := FirstUnborn(s, u);
    } else {
      first := t;
    }
  }

  // Not all threads can be held at the barrier.
  lemma SomeoneIsFree(p: Params, s: State)
    requires Control(p, s) && exists t :: 0 <= t < p.threads && !s.threads[t].place.Finished?
    ensures exists t :: 0 <= t < p.threads && !s.threads[t].place.Finished? && t !in Held(s)
  {
    var t :| 0 <= t < p.threads && !s.threads[t].place.Finished?;
    assert InStep(p, s.threads[t], s.barrier.cycle);
    if t in Held(s) {
      var free := Range(p.threads) - Held(s);
      assert Range(p.threads) == free + Held(s);
      assert |free| > 0;
      var u :| u in free;
      assert InStep(p, s.threads[u], s.barrier.cycle);
    }
  }

  // main prints a thread once it has returned: its array is final by then; its
  // increment is, exactly if no thread has still to raise it.
  lemma JoinedThread(p: Params, run: seq<State>, steps: seq<Step>, i: nat, t: int)
    requires IsRun(p, run, steps) && i <= |steps| && 0 <= t < |run[i].threads| && run[i].threads[t].place.Finished?
    ensures var th := run[i].threads[t];
      (|th.elements| == p.size && forall c :: 0 <= c < p.size ==> th.elements[c] == c + 1 + p.inner * Sum(t, p.outer + 1)) &&
      (th.increment == t + p.outer + 1 <==> !exists u :: InRaise(run[i], u) && run[i].threads[u].place.k <= t)
  {
    RunKeeps(p, run, steps, i);
    var s := run[i];
    assert InStep(p, s.threads[t], s.barrier.cycle);
    if u :| InRaise(s, u) {
      assert RaisedUpTo(s, s.threads[u].place.k);
      assert forall v :: InRaise(s, v) ==> v == u;
    } else {
      assert NoRaise(s) && RaisedUpTo(s, |s.threads|);
    }
  }
}
