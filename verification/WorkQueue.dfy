// The dynamic work queue with rundown (workq.c), one step for each stretch with the mutex.
module WorkQueue {
  import opened LinkedItems

  // workq_t. The list is a sequence; lastSet says whether the pointer to its
  // last element is set. The server clears it with every element it takes,
  // because it assigns where a comparison was meant; without assigns, the server
  // is taken to compare. The protocol is proved for both.
  datatype Shared = Shared(queue: seq<int>, lastSet: bool, valid: bool, quit: bool, counter: int, idle: int, parallelism: int,
                           assigns: bool)

  // What a server does once it has the mutex: wait, work on an element, or return,
  // with or without waking the destroyer.
  datatype Choice = Wait | Work(element: int) | Exit(broadcasts: bool)

  // The element goes behind the others, if the last one is known.
  predicate AddCrashes(sh: Shared) {
    sh.queue != [] && !sh.lastSet
  }

  predicate AddCreates(sh: Shared) {
    sh.idle <= 0 && sh.counter < sh.parallelism
  }

  // A server that waits is woken.
  predicate AddSignals(sh: Shared) {
    sh.idle > 0
  }

  function Added(sh: Shared, e: int): Shared {
    sh.(queue := sh.queue + [e], lastSet := true, counter := if AddCreates(sh) then sh.counter + 1 else sh.counter)
  }

  // Only a server that was asked to quit looks whether it was the last.
  function Leave(sh: Shared): (Shared, Choice) {
    (sh.(counter := sh.counter - 1), Exit(sh.quit && sh.counter - 1 == 0))
  }

  // From the first element, or the lack of one, on.
  function Proceed(sh: Shared): (Shared, Choice) {
    if sh.queue != [] then
      (sh.(queue := sh.queue[1..], lastSet := !sh.assigns && sh.lastSet && |sh.queue| > 1), Work(sh.queue[0]))
    else Leave(sh)
  }

  // From the top of the server's loop on.
  function LoopTop(sh: Shared): (Shared, Choice) {
    if sh.queue == [] && !sh.quit then (sh.(idle := sh.idle + 1), Wait) else Proceed(sh)
  }

  // After the wait.
  function Woken(sh: Shared, timedout: bool): (Shared, Choice) {
    var sh' := sh.(idle := sh.idle - 1);
    if timedout then Proceed(sh') else LoopTop(sh')
  }

  // After the engine has returned.
  function Served(sh: Shared, timedout: bool): (Shared, Choice) {
    if sh.queue == [] && (sh.quit || timedout) then Leave(sh) else LoopTop(sh)
  }

  // The destroyer waits if there are servers.
  function Closed(sh: Shared): Shared {
    sh.(valid := false, quit := sh.quit || sh.counter > 0)
  }

  // All servers that wait are woken.
  predicate CloseBroadcasts(sh: Shared) {
    sh.counter > 0 && sh.idle > 0
  }

  class WorkQueueObject {
    var first: Item?<int>
    var last: Item?<int>
    var valid: bool
    var quit: bool
    var counter: int
    var idle: int
    const parallelism: int
    ghost var items: seq<Item<int>>

    // The list leads through the items; last is not set, or is the last of them.
    ghost predicate Linked()
      reads this, items
    {
      Chained(first, items) && (last != null ==> items != [] && last == items[|items| - 1])
    }

    ghost function Value(): Shared
      reads this, items
    {
      Shared(Values(items), last != null, valid, quit, counter, idle, parallelism, true)
    }

    constructor (threads: int)
      ensures Linked() && Value() == Shared([], false, true, false, 0, 0, threads, true)
    {
      first, last, items := null, null, [];
      valid, quit, counter, idle := true, false, 0, 0;
      parallelism := threads;
    }

    // workq_add with the mutex held.
    method Add(item: Item<int>) returns (signals: bool, createServer: bool)
      requires Linked() && !AddCrashes(Value()) && item !in items && item.next == null
      modifies this, item, items
      ensures Linked() && items == old(items) + [item]
      ensures Value() == Added(old(Value()), item.value)
      ensures signals == AddSignals(old(Value())) && createServer == AddCreates(old(Value()))
    {
      hide Chained, Values;
      Append(item);
      signals, createServer := false, false;
      if idle > 0 {
        signals := true;
      } else if counter < parallelism {
        counter := counter + 1;
        createServer := true;
      }
    }

    method Append(item: Item<int>)
      requires Linked() && !AddCrashes(Value()) && item !in items && item.next == null
      modifies this`first, this`last, this`items, item, items
      ensures Linked() && items == old(items) + [item]
      ensures Value() == old(Value()).(queue := old(Value()).queue + [item.value], lastSet := true)
    {
      if first == null {
        first := item;
      } else {
        last.next := item;
      }
      last := item;
      ValuesAdded(items, item);
      items := items + [item];
    }

    // The server with the mutex held, from the start or after a wait that may
    // have timed out, to the next wait, call of the engine, or return.
    method Serve(waited: bool, timedout: bool) returns (choice: Choice)
      requires Linked() && (timedout ==> waited)
      modifies this
      ensures Linked() && (Value(), choice) == if waited then Woken(old(Value()), timedout) else LoopTop(old(Value()))
    {
      if waited {
        idle := idle - 1;
      }
      choice := TakeOrLeave(timedout);
    }

    // From the loop's guard on; after a timeout the guard is not evaluated again.
    method TakeOrLeave(timedout: bool) returns (choice: Choice)
      requires Linked()
      modifies this
      ensures Linked() && (Value(), choice) == if timedout then Proceed(old(Value())) else LoopTop(old(Value()))
    {
      hide Chained;
      assert (first == null) == (items == []) by { FirstOfChain(first, items); }
      if !timedout && first == null && !quit {
        idle := idle + 1;
        choice := Wait;
        return;
      }
      if first != null {
        var element := TakeFirst();
        choice := Work(element);
      } else {
        choice := LeaveNow();
      }
    }

    method TakeFirst() returns (element: int)
      requires Linked() && first != null
      modifies this`first, this`last, this`items
      ensures Linked() && items == old(items)[1..] && element == old(Value()).queue[0]
      ensures Value() == old(Value()).(queue := old(Value()).queue[1..], lastSet := false)
    {
      element := first.value;
      first := first.next;
      // An assignment, whatever last was.
      last := null;
      ValuesTaken(items);
      items := items[1..];
    }

    method LeaveNow() returns (choice: Choice)
      requires Linked()
      modifies this`counter
      ensures (Value(), choice) == Leave(old(Value()))
    {
      counter := counter - 1;
      choice := Exit(quit && counter == 0);
    }

    // With the mutex again, after the engine has returned.
    method AfterEngine(timedout: bool) returns (choice: Choice)
      requires Linked()
      modifies this
      ensures Linked() && (Value(), choice) == Served(old(Value()), timedout)
    {
      if first == null && (quit || timedout) {
        choice := LeaveNow();
      } else {
        choice := TakeOrLeave(false);
      }
    }

    // workq_destroy, to its wait or its end.
    method Close() returns (broadcasts: bool, waits: bool)
      requires Linked()
      modifies this`valid, this`quit
      ensures Linked() && Value() == Closed(old(Value())) && waits == (counter > 0)
      ensures broadcasts == CloseBroadcasts(Value())
    {
      valid, broadcasts, waits := false, false, false;
      if counter > 0 {
        quit := true;
        if idle > 0 {
          broadcasts := true;
        }
        waits := true;
      }
    }
  }

  // ----- The threads -----

  datatype Server = Born | Waiting | Working(element: int, timedout: bool) | Gone

  datatype Destroyer = Idle | Closing | Done

  // adding are the elements of the calls of workq_add that have found the queue
  // valid and have not got the mutex yet. accepted, taken and served are what
  // was put on the queue, taken from it and returned by the engine so far.
  datatype State = State(shared: Shared, servers: seq<Server>, adding: seq<int>, destroyer: Destroyer, crashed: bool,
                         accepted: seq<int>, taken: seq<int>, served: seq<int>)

  datatype Step =
    | BeginAdd(e: int) | CommitAdd(k: nat)
    | Arrive(w: nat) | Wake(w: nat, timedout: bool) | Finish(w: nat)
    | Destroy | DestroyReturns

  predicate Enabled(s: State, step: Step) {
    !s.crashed &&
    match step
    case BeginAdd(_) => s.shared.valid
    case CommitAdd(k) => k < |s.adding|
    case Arrive(w) => w < |s.servers| && s.servers[w].Born?
    case Wake(w, _) => w < |s.servers| && s.servers[w].Waiting?
    case Finish(w) => w < |s.servers| && s.servers[w].Working?
    case Destroy => s.shared.valid && s.destroyer.Idle?
    case DestroyReturns => s.destroyer.Closing? && s.shared.counter <= 0
  }

  function Chosen(s: State, w: nat, r: (Shared, Choice), timedout: bool): State
    requires w < |s.servers|
  {
    var (sh, choice) := r;
    var s' := s.(shared := sh);
    match choice
    case Wait => s'.(servers := s.servers[w := Waiting])
    case Work(e) => s'.(servers := s.servers[w := Working(e, timedout)], taken := s.taken + [e])
    case Exit(_) => s'.(servers := s.servers[w := Gone])
  }

  function Next(s: State, step: Step): State
    requires Enabled(s, step)
  {
    match step
    case BeginAdd(e) => s.(adding := s.adding + [e])
    case CommitAdd(k) =>
      if AddCrashes(s.shared) then s.(crashed := true)
      else
        s.(shared := Added(s.shared, s.adding[k]), accepted := s.accepted + [s.adding[k]],
           adding := s.adding[..k] + s.adding[k + 1..],
           servers := if AddCreates(s.shared) then s.servers + [Born] else s.servers)
    case Arrive(w) => Chosen(s, w, LoopTop(s.shared), false)
    case Wake(w, timedout) => Chosen(s, w, Woken(s.shared, timedout), timedout)
    case Finish(w) =>
      Chosen(s.(served := s.served + [s.servers[w].element]), w, Served(s.shared, s.servers[w].timedout), false)
    case Destroy => s.(shared := Closed(s.shared), destroyer := if s.shared.counter > 0 then Closing else Done)
    case DestroyReturns => s.(destroyer := Done)
  }

  predicate Initial(s: State, threads: int) {
    s.shared == Shared([], false, true, false, 0, 0, threads, s.shared.assigns) && s.servers == [] && s.adding == [] && s.destroyer.Idle? &&
    !s.crashed && s.accepted == [] && s.taken == [] && s.served == []
  }

  ghost predicate IsRun(run: seq<State>, steps: seq<Step>, threads: int) {
    |run| == |steps| + 1 && Initial(run[0], threads) &&
    forall i :: 0 <= i < |steps| ==> Enabled(run[i], steps[i]) && run[i + 1] == Next(run[i], steps[i])
  }

  // ----- What every step keeps -----

  function Live(servers: seq<Server>): nat {
    if servers == [] then 0 else (if servers[0].Gone? then 0 else 1) + Live(servers[1..])
  }

  function Idling(servers: seq<Server>): nat {
    if servers == [] then 0 else (if servers[0].Waiting? then 1 else 0) + Idling(servers[1..])
  }

  function ElementOf(sv: Server): multiset<int> {
    if sv.Working? then multiset{sv.element} else multiset{}
  }

  function InWork(servers: seq<Server>): multiset<int> {
    if servers == [] then multiset{} else ElementOf(servers[0]) + InWork(servers[1..])
  }

  function One(b: bool): nat {
    if b then 1 else 0
  }

  lemma {:induction false} ServerChanged(servers: seq<Server>, w: nat, sv: Server)
    requires w < |servers|
    ensures var t := servers[w := sv];
      Live(t) + One(!servers[w].Gone?) == Live(servers) + One(!sv.Gone?) &&
      Idling(t) + One(servers[w].Waiting?) == Idling(servers) + One(sv.Waiting?) &&
      InWork(t) + ElementOf(servers[w]) == InWork(servers) + ElementOf(sv)
  {
    hide ElementOf;
    var t, a := servers[w := sv], ElementOf(servers[0]);
    if w == 0 {
      assert t[1..] == servers[1..];
      var rest := InWork(servers[1..]);
      assert InWork(t) == ElementOf(sv) + rest && InWork(servers) == a + rest;
    } else {
      ServerChanged(servers[1..], w - 1, sv);
      assert t[1..] == servers[1..][w - 1 := sv];
      var x, y := InWork(servers[1..][w - 1 := sv]), InWork(servers[1..]);
      assert InWork(t) == a + x && InWork(servers) == a + y;
      assert (a + x) + ElementOf(servers[w]) == a + (x + ElementOf(servers[w]));
      assert (a + y) + ElementOf(sv) == a + (y + ElementOf(sv));
    }
  }

  lemma {:induction false} ServerBorn(servers: seq<Server>)
    ensures Live(servers + [Born]) == Live(servers) + 1 && Idling(servers + [Born]) == Idling(servers)
    ensures InWork(servers + [Born]) == InWork(servers)
  {
    if servers == [] {
      assert [] + [Born] == [Born];
    } else {
      ServerBorn(servers[1..]);
      assert (servers + [Born])[1..] == servers[1..] + [Born];
    }
  }

  lemma {:induction false} LiveBounds(servers: seq<Server>)
    ensures Idling(servers) + |InWork(servers)| <= Live(servers)
    ensures forall w :: 0 <= w < |servers| && servers[w].Working? ==> servers[w].element in InWork(servers)
  {
    if servers != [] {
      LiveBounds(servers[1..]);
      forall w | 0 <= w < |servers| && servers[w].Working? ensures servers[w].element in InWork(servers) {
        assert w > 0 ==> servers[1..][w - 1] == servers[w];
      }
    }
  }

  ghost predicate Inv(s: State, threads: int) {
    var sh := s.shared;
    sh.parallelism == threads && sh.counter == Live(s.servers) && sh.idle == Idling(s.servers) &&
    (sh.counter == 0 || sh.counter <= threads) && (sh.queue != [] && threads > 0 ==> sh.counter > 0) &&
    s.accepted == s.taken + sh.queue && multiset(s.taken) == InWork(s.servers) + multiset(s.served) &&
    (s.destroyer.Idle? <==> sh.valid) && (sh.quit ==> !sh.valid) && (s.destroyer.Closing? ==> sh.quit) &&
    (threads <= 0 ==> s.taken == [] && s.servers == [])
  }

  lemma TakeFirst(a: seq<int>, q: seq<int>)
    requires q != []
    ensures (a + [q[0]]) + q[1..] == a + q && multiset(a + [q[0]]) == multiset(a) + multiset{q[0]}
  {
    assert q == [q[0]] + q[1..];
  }

  // One server goes from one occupation to another, with the counts that go with it.
  ghost predicate Moves(s: State, s': State, w: nat) {
    w < |s.servers| && !s.servers[w].Gone? && |s'.servers| == |s.servers| &&
    s'.servers == s.servers[w := s'.servers[w]] && !s'.servers[w].Born? &&
    var sh, sh', sv, sv' := s.shared, s'.shared, s.servers[w], s'.servers[w];
    s'.destroyer == s.destroyer && s'.accepted == s.accepted && s'.served == (if sv.Working? then s.served + [sv.element] else s.served) &&
    sh' == sh.(queue := sh'.queue, lastSet := sh'.lastSet, idle := sh'.idle, counter := sh'.counter) &&
    sh'.idle == sh.idle - One(sv.Waiting?) + One(sv'.Waiting?) && sh'.counter == sh.counter - One(sv'.Gone?) &&
    (sv'.Gone? ==> sh.queue == []) &&
    if sv'.Working? then
      sh.queue != [] && sv'.element == sh.queue[0] && sh'.queue == sh.queue[1..] && s'.taken == s.taken + [sh.queue[0]]
    else sh'.queue == sh.queue && s'.taken == s.taken
  }

  lemma MovesKeeps(s: State, s': State, w: nat, threads: int)
    requires Inv(s, threads) && Moves(s, s', w)
    ensures Inv(s', threads)
  {
    hide InWork, Live, Idling;
    ServerChanged(s.servers, w, s'.servers[w]);
    LiveBounds(s'.servers);
    WorkMoved(s, s', w);
    if s.shared.queue != [] { TakeFirst(s.taken, s.shared.queue); }
    if !s'.servers[w].Gone? { LiveOne(s'.servers, w); }
  }

  lemma {:induction false} LiveOne(servers: seq<Server>, w: nat)
    requires w < |servers| && !servers[w].Gone?
    ensures Live(servers) > 0
  {
    if w > 0 { LiveOne(servers[1..], w - 1); }
  }

  // The elements taken are those in work and those served.
  lemma WorkMoved(s: State, s': State, w: nat)
    requires w < |s.servers| && multiset(s.taken) == InWork(s.servers) + multiset(s.served)
    requires |s'.servers| == |s.servers| && InWork(s'.servers) + ElementOf(s.servers[w]) == InWork(s.servers) + ElementOf(s'.servers[w])
    requires s'.served == if s.servers[w].Working? then s.served + [s.servers[w].element] else s.served
    requires s'.taken == if s'.servers[w].Working? then s.taken + [s'.servers[w].element] else s.taken
    ensures multiset(s'.taken) == InWork(s'.servers) + multiset(s'.served)
  {
    hide InWork;
    forall e ensures multiset(s'.taken)[e] == (InWork(s'.servers) + multiset(s'.served))[e] {
      assert (InWork(s'.servers) + ElementOf(s.servers[w]))[e] == (InWork(s.servers) + ElementOf(s'.servers[w]))[e];
      assert multiset(s.taken)[e] == (InWork(s.servers) + multiset(s.served))[e];
    }
  }

  lemma CommitKeeps(s: State, k: nat, threads: int)
    requires Inv(s, threads) && Enabled(s, CommitAdd(k))
    ensures Inv(Next(s, CommitAdd(k)), threads)
  {
    hide InWork, Live, Idling;
    ServerBorn(s.servers);
    LiveBounds(s.servers);
    assert s.taken + (s.shared.queue + [s.adding[k]]) == (s.taken + s.shared.queue) + [s.adding[k]];
  }

  lemma StepKeeps(s: State, step: Step, threads: int)
    requires Inv(s, threads) && Enabled(s, step)
    ensures Inv(Next(s, step), threads)
  {
    match step
    case CommitAdd(k) => CommitKeeps(s, k, threads);
    case Arrive(w) => ServerKeeps(s, step, w, threads);
    case Wake(w, _) => ServerKeeps(s, step, w, threads);
    case Finish(w) => ServerKeeps(s, step, w, threads);
    case _ => OthersKeep(s, step, threads);
  }

  lemma ServerKeeps(s: State, step: Step, w: nat, threads: int)
    requires Inv(s, threads) && Enabled(s, step) && (step == Arrive(w) || (step.Wake? && step.w == w) || step == Finish(w))
    ensures Inv(Next(s, step), threads)
  {
    hide Inv;
    MovesKeeps(s, Next(s, step), w, threads);
  }

  lemma OthersKeep(s: State, step: Step, threads: int)
    requires Inv(s, threads) && Enabled(s, step) && (step.BeginAdd? || step.Destroy? || step.DestroyReturns?)
    ensures Inv(Next(s, step), threads)
  {
    hide InWork, Live, Idling;
  }

  lemma {:induction false} RunKeeps(run: seq<State>, steps: seq<Step>, threads: int, i: nat)
    requires IsRun(run, steps, threads) && i <= |steps|
    ensures Inv(run[i], threads)
  {
    if i > 0 {
      RunKeeps(run, steps, threads, i - 1);
      StepKeeps(run[i - 1], steps[i - 1], threads);
    }
  }

  // ----- What the protocol is for -----

  // Idle servers are servers, there are never too many of them, and none is
  // missing while there is work; elements are taken in the order they came.
  lemma ServersCounted(run: seq<State>, steps: seq<Step>, threads: int, i: nat)
    requires IsRun(run, steps, threads) && i <= |steps|
    ensures var sh := run[i].shared;
      0 <= sh.idle <= sh.counter <= (if threads > 0 then threads else 0) && run[i].accepted == run[i].taken + sh.queue &&
      (sh.queue != [] && threads > 0 ==> sh.counter > 0)
  {
    RunKeeps(run, steps, threads, i);
    LiveBounds(run[i].servers);
  }

  // The call of workq_destroy returns with this step.
  predicate Destroys(run: seq<State>, i: nat)
    requires i + 1 < |run|
  {
    !run[i].destroyer.Done? && run[i + 1].destroyer.Done?
  }

  // Then all servers have gone, and everything accepted so far has been handed to
  // the engine, once for each time it was accepted; if there may be no servers at
  // all, it is still in the queue.
  lemma DestroyFindsNothing(run: seq<State>, steps: seq<Step>, threads: int, i: nat)
    requires IsRun(run, steps, threads) && i < |steps| && Destroys(run, i)
    ensures var s := run[i + 1];
      (forall w :: 0 <= w < |s.servers| ==> s.servers[w].Gone?) &&
      if threads > 0 then s.shared.queue == [] && multiset(s.served) == multiset(s.accepted)
      else s.served == [] && s.shared.queue == s.accepted
  {
    hide Inv, Next, Enabled;
    RunKeeps(run, steps, threads, i);
    RunKeeps(run, steps, threads, i + 1);
    DoneAtZero(run[i], steps[i], threads);
    EndState(run[i + 1], threads);
  }

  lemma DoneAtZero(s: State, step: Step, threads: int)
    requires Inv(s, threads) && Enabled(s, step) && !s.destroyer.Done? && Next(s, step).destroyer.Done?
    ensures Next(s, step).shared.counter <= 0
  {
    hide InWork, Live, Idling;
  }

  lemma EndState(s: State, threads: int)
    requires Inv(s, threads) && s.shared.counter <= 0
    ensures forall w :: 0 <= w < |s.servers| ==> s.servers[w].Gone?
    ensures threads > 0 ==> s.shared.queue == [] && multiset(s.served) == multiset(s.accepted)
    ensures threads <= 0 ==> s.served == [] && s.shared.queue == s.accepted
  {
    hide InWork, Live, Idling;
    NoneLive(s.servers);
    assert s.taken + [] == s.taken && [] + s.shared.queue == s.shared.queue;
  }

  lemma {:induction false} NoneLive(servers: seq<Server>)
    requires Live(servers) == 0
    ensures InWork(servers) == multiset{} && forall w :: 0 <= w < |servers| ==> servers[w].Gone?
  {
    if servers != [] {
      NoneLive(servers[1..]);
      forall w | 0 <= w < |servers| ensures servers[w].Gone? {
        assert w > 0 ==> servers[1..][w - 1] == servers[w];
      }
    }
  }

  // With no add under way at that moment, nothing happens any more.
  lemma NothingAfterDestroy(run: seq<State>, steps: seq<Step>, threads: int, i: nat, step: Step)
    requires IsRun(run, steps, threads) && i < |steps| && Destroys(run, i) && run[i + 1].adding == []
    ensures !Enabled(run[i + 1], step)
  {
    RunKeeps(run, steps, threads, i + 1);
    DestroyFindsNothing(run, steps, threads, i);
  }

  // What a server does in its step.
  function ChoiceOf(s: State, step: Step): Choice
    requires Enabled(s, step) && (step.Arrive? || step.Wake? || step.Finish?)
  {
    match step
    case Arrive(w) => LoopTop(s.shared).1
    case Wake(w, timedout) => Woken(s.shared, timedout).1
    case Finish(w) => Served(s.shared, s.servers[w].timedout).1
  }

  // While the destroyer waits, servers are asked to quit, and the one that brings
  // the counter to 0 wakes it, even if its own wait has timed out.
  lemma DestroyerIsWoken(run: seq<State>, steps: seq<Step>, threads: int, i: nat)
    requires IsRun(run, steps, threads) && i < |steps| && run[i].destroyer.Closing?
    ensures run[i].shared.quit
    ensures run[i].shared.counter > 0 == run[i + 1].shared.counter ==>
      (steps[i].Arrive? || steps[i].Wake? || steps[i].Finish?) && ChoiceOf(run[i], steps[i]) == Exit(true)
  {
    RunKeeps(run, steps, threads, i);
    assert Enabled(run[i], steps[i]) && run[i + 1] == Next(run[i], steps[i]);
  }

  // ----- The lost tail -----

  // Since an element was taken, none has been added.
  ghost predicate TakenLast(run: seq<State>, i: nat)
    requires i < |run|
  {
    exists j :: TakenAt(run, j, i)
  }

  ghost predicate TakenAt(run: seq<State>, j: int, i: nat)
    requires i < |run|
  {
    0 <= j < i && |run[j].taken| < |run[j + 1].taken| && forall k :: j < k < i ==> |run[k + 1].accepted| == |run[k].accepted|
  }

  lemma TakenStep(run: seq<State>, i: nat)
    requires 0 < i < |run|
    ensures TakenLast(run, i) <==>
      |run[i - 1].taken| < |run[i].taken| || (|run[i].accepted| == |run[i - 1].accepted| && TakenLast(run, i - 1))
  {
    if TakenLast(run, i) {
      var j :| TakenAt(run, j, i);
      if j < i - 1 {
        assert |run[i - 1 + 1].accepted| == |run[i - 1].accepted|;
        assert TakenAt(run, j, i - 1);
      }
    }
    if |run[i - 1].taken| < |run[i].taken| {
      assert TakenAt(run, i - 1, i);
    } else if |run[i].accepted| == |run[i - 1].accepted| && TakenLast(run, i - 1) {
      var j: int :| TakenAt(run, j, i - 1);
      assert TakenAt(run, j, i);
    }
  }

  // workq_add fails to find the last element exactly if there are elements and
  // the queue was last changed by a server.
  lemma {:induction false} AddCrashesExactly(run: seq<State>, steps: seq<Step>, threads: int, i: nat)
    requires IsRun(run, steps, threads) && i <= |steps| && !run[i].crashed && run[0].shared.assigns
    ensures run[i].shared.assigns && (AddCrashes(run[i].shared) <==> run[i].shared.queue != [] && TakenLast(run, i))
  {
    hide TakenLast, Next;
    if i > 0 {
      assert Enabled(run[i - 1], steps[i - 1]) && run[i] == Next(run[i - 1], steps[i - 1]);
      AddCrashesExactly(run, steps, threads, i - 1);
      StepChanges(run[i - 1], steps[i - 1]);
      TakenStep(run, i);
    }
  }

  // With the comparison, the last element is known whenever there is one.
  lemma {:induction false} ComparingNeverCrashes(run: seq<State>, steps: seq<Step>, threads: int, i: nat)
    requires IsRun(run, steps, threads) && i <= |steps| && !run[0].shared.assigns
    ensures !run[i].crashed && !run[i].shared.assigns && !AddCrashes(run[i].shared)
  {
    if i > 0 {
      ComparingNeverCrashes(run, steps, threads, i - 1);
      assert run[i] == Next(run[i - 1], steps[i - 1]);
    }
  }

  // A step takes an element, adds one, or leaves the queue alone.
  lemma StepChanges(s: State, step: Step)
    requires Enabled(s, step) && !Next(s, step).crashed && s.shared.assigns
    ensures Next(s, step).shared.assigns
    ensures var s' := Next(s, step);
      var takes, adds := |s.taken| < |s'.taken|, |s.accepted| < |s'.accepted|;
      (takes ==> !s'.shared.lastSet && !adds) && (adds ==> s'.shared.lastSet) && |s'.accepted| >= |s.accepted| &&
      (!takes && !adds ==> s'.shared.queue == s.shared.queue && s'.shared.lastSet == s.shared.lastSet)
  {
  }

  // Two elements, a server that takes one, and a third element.
  function ExampleState(i: nat): State {
    var open := Shared([], false, true, false, 0, 0, 1, true);
    var one := Shared([1], true, true, false, 1, 0, 1, true);
    if i == 0 then State(open, [], [], Idle, false, [], [], [])
    else if i == 1 then State(open, [], [1], Idle, false, [], [], [])
    else if i == 2 then State(one, [Born], [], Idle, false, [1], [], [])
    else if i == 3 then State(one, [Born], [2], Idle, false, [1], [], [])
    else if i == 4 then State(one.(queue := [1, 2]), [Born], [], Idle, false, [1, 2], [], [])
    else
      var left := one.(queue := [2], lastSet := false);
      State(left, [Working(1, false)], if i == 5 then [] else [3], Idle, i > 6, [1, 2], [1], [])
  }

  function ExampleStep(i: nat): Step {
    if i == 0 then BeginAdd(1)
    else if i == 2 then BeginAdd(2)
    else if i == 4 then Arrive(0)
    else if i == 5 then BeginAdd(3)
    else CommitAdd(0)
  }

  lemma ExampleGoesOn(i: nat)
    requires i < 7
    ensures Enabled(ExampleState(i), ExampleStep(i)) && Next(ExampleState(i), ExampleStep(i)) == ExampleState(i + 1)
  {
    var s := ExampleState(i);
    assert |s.adding| == 1 ==> s.adding[..0] + s.adding[1..] == [];
    if i == 3 { assert [1] + [2] == [1, 2]; }
    if i == 4 { assert [1, 2][1..] == [2] && [] + [1] == [1]; }
  }

  lemma CrashExample() returns (run: seq<State>, steps: seq<Step>)
    ensures IsRun(run, steps, 1) && run[|steps|].crashed
  {
    hide Next, Enabled;
    run, steps := seq(8, i requires i >= 0 => ExampleState(i)), seq(7, i requires i >= 0 => ExampleStep(i));
    forall i | 0 <= i < 7 ensures Enabled(run[i], steps[i]) && run[i + 1] == Next(run[i], steps[i]) {
      ExampleGoesOn(i);
    }
  }
}
