// When servers of the work queue (workq.c) are created, work, wait and leave.
module WorkQueueServers {
  import opened LinkedItems
  import opened WorkQueue

  predicate OfServer(step: Step, w: nat) {
    step == Arrive(w) || step == Wake(w, true) || step == Wake(w, false) || step == Finish(w)
  }

  predicate NoneWaits(s: State) {
    forall w :: 0 <= w < |s.servers| ==> !s.servers[w].Waiting?
  }

  // The servers that have not left.
  function Present(s: State): set<nat> {
    set w: nat | w < |s.servers| && !s.servers[w].Gone?
  }

  // ----- Counts and servers -----

  lemma {:induction false} IdlingExactly(servers: seq<Server>)
    ensures Idling(servers) == 0 <==> forall w :: 0 <= w < |servers| ==> !servers[w].Waiting?
  {
    if servers != [] {
      IdlingExactly(servers[1..]);
      assert forall w :: 0 < w < |servers| ==> servers[w] == servers[1..][w - 1];
    }
  }

  lemma LiveIsPresent(s: State)
    ensures Live(s.servers) == |Present(s)|
  {
    LiveUpTo(s.servers, |s.servers|);
    assert s.servers[..|s.servers|] == s.servers;
    assert Present(s) == PresentUpTo(s.servers, |s.servers|);
  }

  function PresentUpTo(servers: seq<Server>, n: nat): set<nat>
    requires n <= |servers|
  {
    if n == 0 then {} else PresentUpTo(servers, n - 1) + if servers[n - 1].Gone? then {} else {n - 1}
  }

  lemma {:induction false} LiveUpTo(servers: seq<Server>, n: nat)
    requires n <= |servers|
    ensures Live(servers[..n]) == |PresentUpTo(servers, n)|
    ensures forall w: nat :: w in PresentUpTo(servers, n) <==> w < n && !servers[w].Gone?
  {
    if n > 0 {
      LiveUpTo(servers, n - 1);
      LiveLast(servers[..n]);
      assert servers[..n][..n - 1] == servers[..n - 1];
    }
  }

  lemma {:induction false} LiveLast(servers: seq<Server>)
    requires servers != []
    ensures var n := |servers| - 1; Live(servers) == Live(servers[..n]) + if servers[n].Gone? then 0 else 1
  {
    var n := |servers| - 1;
    if n > 0 {
      LiveLast(servers[1..]);
      assert servers[1..][..n - 1] == servers[..n][1..];
    } else {
      assert servers[1..] == [] && servers[..0] == [];
    }
  }

  // ----- Servers are created -----

  // workq_add creates a server exactly if none waits and there may be one more; no
  // other step does.
  lemma CreatedExactly(run: seq<State>, steps: seq<Step>, threads: int, i: nat)
    requires IsRun(run, steps, threads) && i < |steps|
    ensures var s, s' := run[i], run[i + 1];
      (|s'.servers| != |s.servers| <==>
        steps[i].CommitAdd? && !s'.crashed && NoneWaits(s) && |Present(s)| < threads) &&
      (|s'.servers| != |s.servers| ==> s'.servers == s.servers + [Born])
  {
    hide Live, Idling, InWork;
    RunKeeps(run, steps, threads, i);
    IdlingExactly(run[i].servers);
    LiveIsPresent(run[i]);
    assert Enabled(run[i], steps[i]) && run[i + 1] == Next(run[i], steps[i]);
  }

  // So after each addition a server is about to look for elements, or there are as
  // many as there may be.
  lemma ServerForEachAdd(run: seq<State>, steps: seq<Step>, threads: int, i: nat)
    requires IsRun(run, steps, threads) && i < |steps| && steps[i].CommitAdd? && !run[i + 1].crashed && threads > 0
    ensures var s := run[i + 1];
      |Present(s)| == s.shared.counter == threads ||
      exists w :: 0 <= w < |s.servers| && (s.servers[w].Waiting? || s.servers[w].Born?)
  {
    hide Live, Idling, InWork;
    var s, s' := run[i], run[i + 1];
    CreatedExactly(run, steps, threads, i);
    RunKeeps(run, steps, threads, i);
    RunKeeps(run, steps, threads, i + 1);
    LiveIsPresent(s);
    LiveIsPresent(s');
    assert Enabled(s, steps[i]) && s' == Next(s, steps[i]);
    if |s'.servers| != |s.servers| {
      assert s'.servers[|s.servers|].Born?;
    } else {
      assert s'.servers == s.servers;
      if !NoneWaits(s) {
        var w :| 0 <= w < |s.servers| && s.servers[w].Waiting?;
        assert s'.servers[w].Waiting?;
      }
    }
  }

  // workq_add wakes a server, and workq_destroy all, exactly if any waits.
  lemma WakesExactly(run: seq<State>, steps: seq<Step>, threads: int, i: nat)
    requires IsRun(run, steps, threads) && i < |steps|
    ensures AddSignals(run[i].shared) <==> !NoneWaits(run[i])
    ensures CloseBroadcasts(run[i].shared) <==> !NoneWaits(run[i])
  {
    hide Live, Idling, InWork;
    RunKeeps(run, steps, threads, i);
    IdlingExactly(run[i].servers);
    LiveBounds(run[i].servers);
  }

  // ----- Servers work, wait and leave -----

  // The last step of server w before step i was to wake as its wait timed out.
  ghost predicate AfterTimeout(steps: seq<Step>, w: nat, i: nat)
    requires i <= |steps|
  {
    exists j :: 0 <= j < i && steps[j] == Wake(w, true) && forall k :: j < k < i ==> !OfServer(steps[k], w)
  }

  lemma TimeoutStep(steps: seq<Step>, w: nat, i: nat)
    requires 0 < i <= |steps|
    ensures AfterTimeout(steps, w, i) <==>
      steps[i - 1] == Wake(w, true) || (!OfServer(steps[i - 1], w) && AfterTimeout(steps, w, i - 1))
  {
    if AfterTimeout(steps, w, i) {
      var j :| 0 <= j < i && steps[j] == Wake(w, true) && forall k :: j < k < i ==> !OfServer(steps[k], w);
      assert j < i - 1 ==> !OfServer(steps[i - 1], w);
    }
    if !OfServer(steps[i - 1], w) && AfterTimeout(steps, w, i - 1) {
      var j :| 0 <= j < i - 1 && steps[j] == Wake(w, true) && forall k :: j < k < i - 1 ==> !OfServer(steps[k], w);
      assert forall k :: j < k < i ==> !OfServer(steps[k], w);
    }
  }

  // What server w does, and the others do not.
  lemma OthersStay(s: State, step: Step, w: nat)
    requires Enabled(s, step) && w < |s.servers|
    ensures |Next(s, step).servers| >= |s.servers|
    ensures !OfServer(step, w) ==> Next(s, step).servers[w] == s.servers[w]
  {
  }

  lemma {:induction false} TimeoutKnown(run: seq<State>, steps: seq<Step>, threads: int, i: nat, w: nat)
    requires IsRun(run, steps, threads) && i <= |steps| && w < |run[i].servers|
    ensures run[i].servers[w].Working? ==> (run[i].servers[w].timedout <==> AfterTimeout(steps, w, i))
    ensures run[i].servers[w].Waiting? || run[i].servers[w].Born? ==> !AfterTimeout(steps, w, i)
  {
    hide AfterTimeout;
    if i > 0 {
      var s, s', step := run[i - 1], run[i], steps[i - 1];
      assert Enabled(s, step) && s' == Next(s, step);
      TimeoutStep(steps, w, i);
      if w < |s.servers| {
        TimeoutKnown(run, steps, threads, i - 1, w);
        OthersStay(s, step, w);
      } else {
        NotBefore(run, steps, threads, i - 1, w);
      }
    }
  }

  // A server takes no step before it is there.
  lemma {:induction false} NotBefore(run: seq<State>, steps: seq<Step>, threads: int, i: nat, w: nat)
    requires IsRun(run, steps, threads) && i <= |steps| && |run[i].servers| <= w
    ensures !AfterTimeout(steps, w, i) && (i < |steps| ==> !OfServer(steps[i], w))
  {
    hide AfterTimeout;
    assert i < |steps| ==> Enabled(run[i], steps[i]);
    if i > 0 {
      assert Enabled(run[i - 1], steps[i - 1]) && run[i] == Next(run[i - 1], steps[i - 1]);
      assert |run[i - 1].servers| <= |run[i].servers|;
      NotBefore(run, steps, threads, i - 1, w);
      TimeoutStep(steps, w, i);
    } else {
      assert !AfterTimeout(steps, w, 0) by { NoneYet(steps, w); }
    }
  }

  lemma NoneYet(steps: seq<Step>, w: nat)
    ensures !AfterTimeout(steps, w, 0)
  {
  }

  // Whenever a server has the mutex: if there are elements it goes to work on the
  // first one; else it leaves, if it was asked to or its last wait timed out; else it
  // waits.
  lemma ServerDoes(run: seq<State>, steps: seq<Step>, threads: int, i: nat, w: nat)
    requires IsRun(run, steps, threads) && i < |steps| && OfServer(steps[i], w)
    ensures w < |run[i].servers| == |run[i + 1].servers|
    ensures var s, s', sv := run[i], run[i + 1], run[i + 1].servers[w];
      var leaves := s.shared.quit || steps[i] == Wake(w, true) || AfterTimeout(steps, w, i);
      (sv.Working? <==> s.shared.queue != []) && (sv.Gone? <==> s.shared.queue == [] && leaves) &&
      (sv.Waiting? <==> s.shared.queue == [] && !leaves) &&
      (sv.Working? ==> sv.element == s.shared.queue[0] && s'.shared.queue == s.shared.queue[1..]) &&
      s'.shared.counter == s.shared.counter - (if sv.Gone? then 1 else 0)
  {
    hide AfterTimeout;
    var s, step := run[i], steps[i];
    assert Enabled(s, step) && run[i + 1] == Next(s, step);
    TimeoutKnown(run, steps, threads, i, w);
  }

  // A server whose wait timed out, and finds nothing, leaves.
  lemma TimedOutLeaves(run: seq<State>, steps: seq<Step>, threads: int, i: nat, w: nat)
    requires IsRun(run, steps, threads) && i < |steps| && steps[i] == Wake(w, true) && run[i].shared.queue == []
    ensures w < |run[i + 1].servers| && run[i + 1].servers[w].Gone? && run[i + 1].shared.counter == run[i].shared.counter - 1
  {
    ServerDoes(run, steps, threads, i, w);
  }

  // A server leaves only in a step of its own, with nothing in the queue, and asked
  // to or after its last wait has timed out.
  lemma LeavesOnly(run: seq<State>, steps: seq<Step>, threads: int, i: nat, w: nat)
    requires IsRun(run, steps, threads) && i < |steps| && w < |run[i + 1].servers|
    requires run[i + 1].servers[w].Gone? && (w < |run[i].servers| ==> !run[i].servers[w].Gone?)
    ensures OfServer(steps[i], w) && run[i].shared.queue == []
    ensures run[i].shared.quit || steps[i] == Wake(w, true) || AfterTimeout(steps, w, i)
  {
    hide AfterTimeout;
    assert Enabled(run[i], steps[i]) && run[i + 1] == Next(run[i], steps[i]);
    if w < |run[i].servers| { OthersStay(run[i], steps[i], w); }
    ServerDoes(run, steps, threads, i, w);
  }

  // ----- Nobody is held up -----

  // Every server that has not left can go on, a waiting one either way; elements that
  // are being added can be; the queue can be added to and destroyed exactly while it
  // is valid; and the destroyer goes on exactly when all servers have left.
  lemma EverybodyGoesOn(run: seq<State>, steps: seq<Step>, threads: int, i: nat)
    requires IsRun(run, steps, threads) && i <= |steps| && !run[i].crashed
    ensures var s := run[i];
      (forall w: nat :: w < |s.servers| ==> (s.servers[w].Gone? <==> forall step :: OfServer(step, w) ==> !Enabled(s, step))) &&
      (forall w: nat :: w < |s.servers| && s.servers[w].Waiting? ==> Enabled(s, Wake(w, true)) && Enabled(s, Wake(w, false))) &&
      (forall k: nat :: k < |s.adding| ==> Enabled(s, CommitAdd(k))) &&
      (forall e :: Enabled(s, BeginAdd(e)) <==> s.shared.valid) && (Enabled(s, Destroy) <==> s.shared.valid) &&
      (s.destroyer.Closing? ==> (Enabled(s, DestroyReturns) <==> Present(s) == {}))
  {
    hide Live, Idling, InWork;
    RunKeeps(run, steps, threads, i);
    var s := run[i];
    LiveIsPresent(s);
    forall w: nat | w < |s.servers|
      ensures s.servers[w].Gone? <==> forall step :: OfServer(step, w) ==> !Enabled(s, step)
    {
      if !s.servers[w].Gone? {
        assert OfServer(Arrive(w), w) && OfServer(Wake(w, true), w) && OfServer(Finish(w), w);
        assert Enabled(s, Arrive(w)) || Enabled(s, Wake(w, true)) || Enabled(s, Finish(w));
      }
    }
  }
}
