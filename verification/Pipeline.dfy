// The pipeline of one-slot stages (pipe.c), as interleaved steps.
module Pipeline {

  // ----- The critical sections -----

  datatype Slot = Slot(ready: bool, data: int)

  function Sent(value: int): Slot {
    Slot(true, value)
  }

  function Cleared(slot: Slot): Slot {
    slot.(ready := false)
  }

  class Stage {
    var dataReady: int
    var data: int
    var next: Stage?

    ghost function Value(): Slot
      reads this
    {
      Slot(dataReady != 0, data)
    }

    constructor ()
      ensures dataReady == 0 && next == null
    {
      dataReady, next := 0, null;
    }

    // pipe_send, once the stage is free.
    method Send(value: int)
      requires !Value().ready
      modifies this`data, this`dataReady
      ensures Value() == Sent(value)
    {
      data := value;
      dataReady := 1;
    }

    // pipe_stage, once the next stage has the value.
    method Clear()
      modifies this`dataReady
      ensures Value() == Cleared(old(Value()))
    {
      dataReady := 0;
    }

    // pipe_result at the last stage, once that has a value.
    method Collect() returns (result: int)
      requires Value().ready
      modifies this`dataReady
      ensures result == old(Value()).data && Value() == Cleared(old(Value()))
    {
      result := data;
      dataReady := 0;
    }
  }

  class Pipe {
    const head: Stage
    const tail: Stage
    var active: int

    constructor (stages: nat)
      ensures active == 0 && exists list :: |list| == stages + 1 && head == list[0] && tail == list[stages] && Linked(list)
    {
      var h, t, list := PipeCreate(stages);
      head, tail, active := h, t, 0;
    }

    // pipe_start, before it sends the value.
    method CountStart()
      modifies this`active
      ensures active == old(active) + 1
    {
      active := active + 1;
    }

    // pipe_result, before it waits for the last stage.
    method Claim() returns (empty: bool)
      modifies this`active
      ensures empty == (old(active) <= 0) && active == if empty then old(active) else old(active) - 1
    {
      empty := false;
      if active <= 0 {
        empty := true;
      } else {
        active := active - 1;
      }
    }
  }

  // The stages one after the other, linked, the last one leading nowhere.
  ghost predicate Linked(list: seq<Stage>)
    reads list
  {
    (forall i :: 0 <= i < |list| ==> list[i].next == if i + 1 < |list| then list[i + 1] else null) &&
    (forall i, j :: 0 <= i < j < |list| ==> list[i] != list[j])
  }

  method PipeCreate(stages: nat) returns (head: Stage, tail: Stage, ghost list: seq<Stage>)
    ensures |list| == stages + 1 && head == list[0] && tail == list[stages] && Linked(list)
    ensures forall i :: 0 <= i <= stages ==> fresh(list[i]) && list[i].dataReady == 0
  {
    head := new Stage();
    tail, list := head, [head];
    for index := 1 to stages + 1
      invariant |list| == index && head == list[0] && tail == list[index - 1] && Linked(list)
      invariant forall i :: 0 <= i < index ==> fresh(list[i]) && list[i].dataReady == 0
    {
      var newStage := new Stage();
      tail.next := newStage;
      tail, list := newStage, list + [newStage];
    }
  }

  // ----- The protocol -----

  // A stage's thread waits for data with its mutex free, or has data and holds
  // the mutex: until the next stage is free, and then until it has cleared its own.
  datatype Place = Idle | Sending | Clearing

  // pending are the values whose pipe_start has counted but not sent them,
  // claimants the calls of pipe_result that have counted but got nothing yet.
  datatype State = State(slots: seq<Slot>, places: seq<Place>, active: int,
                         pending: seq<int>, claimants: nat, accepted: seq<int>, delivered: seq<int>)

  datatype Step =
    | Start(value: int) | Accept(k: nat)
    | Wake(i: nat) | Send(i: nat) | Clear(i: nat)
    | Claim | ReportEmpty | Collect

  // The number of stages with a thread; the last slot has none.
  function Stages(s: State): int {
    |s.places|
  }

  // Nobody holds the mutex of slot i.
  predicate Free(s: State, i: int)
    requires 0 <= i
  {
    i < |s.places| ==> s.places[i].Idle?
  }

  predicate Enabled(s: State, step: Step) {
    |s.slots| == Stages(s) + 1 &&
    match step
    case Start(_) => true
    case Accept(k) => k < |s.pending| && Free(s, 0) && !s.slots[0].ready
    case Wake(i) => i < Stages(s) && s.places[i].Idle? && s.slots[i].ready
    case Send(i) => i < Stages(s) && s.places[i].Sending? && Free(s, i + 1) && !s.slots[i + 1].ready
    case Clear(i) => i < Stages(s) && s.places[i].Clearing?
    case Claim => s.active > 0
    case ReportEmpty => s.active <= 0
    case Collect => s.claimants > 0 && s.slots[Stages(s)].ready
  }

  function Next(s: State, step: Step): State
    requires Enabled(s, step)
  {
    match step
    case Start(v) => s.(active := s.active + 1, pending := s.pending + [v])
    case Accept(k) =>
      s.(slots := s.slots[0 := Sent(s.pending[k])], accepted := s.accepted + [s.pending[k]],
         pending := s.pending[..k] + s.pending[k + 1..])
    case Wake(i) => s.(places := s.places[i := Sending])
    case Send(i) => s.(slots := s.slots[i + 1 := Sent(s.slots[i].data + 1)], places := s.places[i := Clearing])
    case Clear(i) => s.(slots := s.slots[i := Cleared(s.slots[i])], places := s.places[i := Idle])
    case Claim => s.(active := s.active - 1, claimants := s.claimants + 1)
    case ReportEmpty => s
    case Collect =>
      var n := Stages(s);
      s.(slots := s.slots[n := Cleared(s.slots[n])], claimants := s.claimants - 1,
         delivered := s.delivered + [s.slots[n].data])
  }

  predicate Initial(s: State) {
    |s.slots| == |s.places| + 1 && s.active == 0 && s.pending == [] && s.claimants == 0 && s.accepted == [] &&
    s.delivered == [] && (forall i :: 0 <= i < |s.slots| ==> !s.slots[i].ready) &&
    forall i :: 0 <= i < |s.places| ==> s.places[i].Idle?
  }

  ghost predicate IsRun(run: seq<State>, steps: seq<Step>) {
    |run| == |steps| + 1 && Initial(run[0]) &&
    forall i :: 0 <= i < |steps| ==> Enabled(run[i], steps[i]) && run[i + 1] == Next(run[i], steps[i])
  }

  // ----- What is under way -----

  // What slot j holds of its own: a value that has been handed on already is
  // still there until the stage clears it.
  function Holding(s: State, j: int): seq<int>
    requires 0 <= j < |s.slots|
  {
    if s.slots[j].ready && (j < |s.places| ==> !s.places[j].Clearing?) then [s.slots[j].data - j] else []
  }

  // The values in the slots from j on, as they were accepted, the oldest first.
  function UnderWay(s: State, j: int): seq<int>
    requires 0 <= j <= |s.slots|
    decreases |s.slots| - j
  {
    if j == |s.slots| then [] else UnderWay(s, j + 1) + Holding(s, j)
  }

  function Through(delivered: seq<int>, n: int): seq<int> {
    seq(|delivered|, i requires 0 <= i < |delivered| => delivered[i] - n)
  }

  ghost predicate Inv(s: State) {
    |s.slots| == |s.places| + 1 &&
    (forall i :: 0 <= i < |s.places| && !s.places[i].Idle? ==> s.slots[i].ready) &&
    s.accepted == Through(s.delivered, Stages(s)) + UnderWay(s, 0) &&
    s.active == |s.pending| + |s.accepted| - |s.delivered| - s.claimants && s.active >= 0
  }

  // Slots before j do not matter.
  lemma {:induction false} UnderWaySame(s: State, s': State, j: int)
    requires 0 <= j <= |s.slots| == |s'.slots|
    requires forall i :: j <= i < |s.slots| ==> Holding(s', i) == Holding(s, i)
    ensures UnderWay(s', j) == UnderWay(s, j)
    decreases |s.slots| - j
  {
    if j < |s.slots| { UnderWaySame(s, s', j + 1); }
  }

  // A value handed from slot i to the empty slot after it.
  lemma {:induction false} UnderWayMoved(s: State, s': State, i: int, j: int)
    requires 0 <= j <= i && i + 1 < |s.slots| == |s'.slots|
    requires forall x :: 0 <= x < |s.slots| && x != i && x != i + 1 ==> Holding(s', x) == Holding(s, x)
    requires Holding(s, i + 1) == [] && Holding(s', i) == [] && Holding(s', i + 1) == Holding(s, i)
    ensures UnderWay(s', j) == UnderWay(s, j)
    decreases i - j
  {
    hide Holding;
    if j < i {
      UnderWayMoved(s, s', i, j + 1);
    } else {
      UnderWaySame(s, s', i + 2);
      var rest := UnderWay(s, i + 2);
      assert UnderWay(s, i + 1) == rest + [] && UnderWay(s', i + 1) == rest + Holding(s, i);
      assert rest + [] + Holding(s, i) == rest + Holding(s, i) + [];
    }
  }

  // The oldest value leaves from the last slot.
  lemma {:induction false} UnderWayCollected(s: State, s': State, j: int)
    requires |s.slots| > 0 && 0 <= j < |s.slots| == |s'.slots|
    requires forall x :: 0 <= x < |s.slots| - 1 ==> Holding(s', x) == Holding(s, x)
    requires Holding(s', |s.slots| - 1) == []
    ensures UnderWay(s, j) == Holding(s, |s.slots| - 1) + UnderWay(s', j)
    decreases |s.slots| - j
  {
    var last := |s.slots| - 1;
    if j == last {
      assert UnderWay(s, last) == [] + Holding(s, last) && UnderWay(s', last) == [] + [];
    } else {
      UnderWayCollected(s, s', j + 1);
      assert (Holding(s, last) + UnderWay(s', j + 1)) + Holding(s, j) == Holding(s, last) + (UnderWay(s', j + 1) + Holding(s, j));
    }
  }

  lemma {:induction false} UnderWayEmpty(s: State, j: int)
    requires 0 <= j <= |s.slots| && forall i :: j <= i < |s.slots| ==> Holding(s, i) == []
    ensures UnderWay(s, j) == []
    decreases |s.slots| - j
  {
    if j < |s.slots| { UnderWayEmpty(s, j + 1); }
  }

  lemma AcceptKeeps(s: State, k: nat)
    requires Inv(s) && Enabled(s, Accept(k))
    ensures Inv(Next(s, Accept(k)))
  {
    var s' := Next(s, Accept(k));
    UnderWaySame(s, s', 1);
    assert UnderWay(s, 0) == UnderWay(s, 1) + [] && UnderWay(s', 0) == UnderWay(s, 1) + [s.pending[k]];
    var t := Through(s.delivered, Stages(s));
    assert t + (UnderWay(s, 1) + []) + [s.pending[k]] == t + (UnderWay(s, 1) + [s.pending[k]]);
  }

  lemma SendKeeps(s: State, i: nat)
    requires Inv(s) && Enabled(s, Send(i))
    ensures Inv(Next(s, Send(i)))
  {
    UnderWayMoved(s, Next(s, Send(i)), i, 0);
  }

  lemma CollectKeeps(s: State)
    requires Inv(s) && Enabled(s, Collect)
    ensures Inv(Next(s, Collect))
  {
    var s', n := Next(s, Collect), Stages(s);
    UnderWayCollected(s, s', 0);
    var t, v := Through(s.delivered, n), s.slots[n].data - n;
    assert Through(s'.delivered, n) == t + [v];
    assert t + ([v] + UnderWay(s', 0)) == t + [v] + UnderWay(s', 0);
  }

  lemma StepKeeps(s: State, step: Step)
    requires Inv(s) && Enabled(s, step)
    ensures Inv(Next(s, step))
  {
    match step
    case Accept(k) => AcceptKeeps(s, k);
    case Send(i) => SendKeeps(s, i);
    case Collect => CollectKeeps(s);
    case _ => UnderWaySame(s, Next(s, step), 0);
  }

  lemma {:induction false} RunKeeps(run: seq<State>, steps: seq<Step>, i: nat)
    requires IsRun(run, steps) && i <= |steps|
    ensures Inv(run[i])
  {
    if i == 0 {
      UnderWayEmpty(run[0], 0);
    } else {
      RunKeeps(run, steps, i - 1);
      StepKeeps(run[i - 1], steps[i - 1]);
    }
  }

  // ----- What the pipeline is for -----

  // The k-th result is the k-th accepted value, raised once per stage; what is
  // accepted but not delivered is in the slots, once each and in order.
  lemma ResultsInOrder(run: seq<State>, steps: seq<Step>, i: nat, k: nat)
    requires IsRun(run, steps) && i <= |steps|
    ensures run[i].accepted == Through(run[i].delivered, Stages(run[i])) + UnderWay(run[i], 0)
    ensures k < |run[i].delivered| ==>
      k < |run[i].accepted| && run[i].delivered[k] == run[i].accepted[k] + Stages(run[i])
  {
    RunKeeps(run, steps, i);
    var s := run[i];
    if k < |s.delivered| { assert s.accepted[k] == Through(s.delivered, Stages(s))[k]; }
  }

  // pipe_result reports empty exactly when every value started so far has been
  // claimed already.
  lemma EmptyWhenClaimed(run: seq<State>, steps: seq<Step>, i: nat)
    requires IsRun(run, steps) && i < |steps|
    ensures var s := run[i];
      var started, claimed := |s.pending| + |s.accepted|, |s.delivered| + s.claimants;
      claimed <= started && (Enabled(s, ReportEmpty) <==> claimed == started) && (Enabled(s, Claim) <==> claimed < started)
  {
    RunKeeps(run, steps, i);
  }

  lemma {:induction false} LastSending(s: State, n: nat) returns (found: bool, i: nat)
    requires n <= |s.places|
    ensures found ==> i < n && s.places[i].Sending? && forall j :: i < j < n ==> !s.places[j].Sending?
    ensures !found ==> forall j :: 0 <= j < n ==> !s.places[j].Sending?
  {
    if n == 0 {
      found, i := false, 0;
    } else if s.places[n - 1].Sending? {
      found, i := true, n - 1;
    } else {
      found, i := LastSending(s, n - 1);
    }
  }

  // A claimed result comes nearer: some stage, or a value that was started, can go on.
  lemma NeverStuck(run: seq<State>, steps: seq<Step>, i: nat)
    requires IsRun(run, steps) && i <= |steps| && run[i].claimants > 0
    ensures exists step :: Enabled(run[i], step) && !step.Start? && !step.Claim? && !step.ReportEmpty?
  {
    RunKeeps(run, steps, i);
    var s := run[i];
    var n := |s.places|;
    var found, last := LastSending(s, n);
    if j :| 0 <= j < n && s.places[j].Clearing? {
      assert Enabled(s, Clear(j));
    } else if found {
      assert !s.slots[last + 1].ready ==> Enabled(s, Send(last));
      assert s.slots[last + 1].ready && last + 1 < n ==> Enabled(s, Wake(last + 1));
      assert s.slots[last + 1].ready && last + 1 == n ==> Enabled(s, Collect);
    } else if j :| 0 <= j < n && s.slots[j].ready {
      assert Enabled(s, Wake(j));
    } else if s.slots[n].ready {
      assert Enabled(s, Collect);
    } else {
      UnderWayEmpty(s, 0);
      assert s.accepted == Through(s.delivered, n);
      assert Enabled(s, Accept(0));
    }
  }
}
