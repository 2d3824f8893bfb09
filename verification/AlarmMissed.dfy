// Which times let the alarm thread (alarm_cond.c) wait for an alarm that is not the
// earliest.
module AlarmMissed {
  import opened AlarmList

  function Times(list: seq<Alarm>): (r: seq<int>)
    ensures |r| == |list| && forall i :: 0 <= i < |r| ==> r[i] == list[i].time
  {
    seq(|list|, i requires 0 <= i < |list| => list[i].time)
  }

  lemma TimesAdded(list: seq<Alarm>, a: Alarm)
    ensures Times(list + [a]) == Times(list) + [a.time]
  {
  }

  // The same positive time before and after a time 0, and only later times between.
  predicate MissesAt(times: seq<int>, i: int, j: int, k: int) {
    0 <= i < j < k < |times| && times[i] == times[k] > 0 && times[j] == 0 && forall m :: j < m < k ==> times[m] > times[k]
  }

  ghost predicate CanMiss(times: seq<int>) {
    exists i, j, k :: MissesAt(times, i, j, k)
  }

  lemma CanMissMore(times: seq<int>, x: int)
    requires CanMiss(times)
    ensures CanMiss(times + [x])
  {
    var i, j, k :| MissesAt(times, i, j, k);
    assert MissesAt(times + [x], i, j, k);
  }

  // ----- No other times do -----

  // The time h was inserted, then 0, and since then only later times than h.
  predicate ResetAt(times: seq<int>, h: int, i: int, j: int) {
    0 <= i < j < |times| && times[i] == h && times[j] == 0 && forall m :: j < m < |times| ==> times[m] > h
  }

  ghost predicate Reset(times: seq<int>, h: int) {
    exists i, j :: ResetAt(times, h, i, j)
  }

  lemma ResetNow(times: seq<int>, h: int)
    requires h in times
    ensures Reset(times + [0], h)
  {
    var i :| 0 <= i < |times| && times[i] == h;
    assert ResetAt(times + [0], h, i, |times|);
  }

  lemma ResetLater(times: seq<int>, h: int, x: int)
    requires Reset(times, h)
    ensures x > h ==> Reset(times + [x], h)
    ensures x == h > 0 ==> CanMiss(times + [x])
  {
    var i, j :| ResetAt(times, h, i, j);
    if x > h { assert ResetAt(times + [x], h, i, j); }
    if x == h > 0 { assert MissesAt(times + [x], i, j, |times|); }
  }

  ghost predicate NoneEarlier(s: State, time: int) {
    forall a :: a in s.list ==> time <= a.time
  }

  // While an alarm is held: it is the earliest, or current_alarm is not its time, or
  // the times can do it.
  ghost predicate Known(s: State) {
    s.place.Holding? ==>
      var h, times := s.place.alarm.time, Times(s.inserted);
      (s.current == h && NoneEarlier(s, h)) || (s.current < h && s.current != 0) || CanMiss(times) ||
      (h > 0 && (s.current == 0 || s.current > h) && Reset(times, h)) ||
      (h == 0 && s.current > 0 && NoneEarlier(s, 0))
  }

  lemma HeldInserted(s: State)
    requires Inv(s) && s.place.Holding?
    ensures s.place.alarm.time in Times(s.inserted)
  {
    var a := s.place.alarm;
    assert a in multiset(s.list) + Held(s) + FiredAlarms(s.fired);
    var i :| 0 <= i < |s.inserted| && s.inserted[i] == a;
    assert Times(s.inserted)[i] == a.time;
  }

  lemma InsertKnown(s: State, x: int)
    requires Inv(s) && Known(s) && Enabled(s, Insert(x))
    ensures Known(Next(s, Insert(x)))
  {
    hide Inv, CanMiss, Reset;
    var a, s' := Alarm(|s.inserted|, x), Next(s, Insert(x));
    var times := Times(s.inserted);
    TimesAdded(s.inserted, a);
    InsertedItems(s.list, a);
    if s.place.Holding? {
      var h := s.place.alarm.time;
      HeldInserted(s);
      ResetNow(times, h);
      if CanMiss(times) {
        CanMissMore(times, x);
      } else if Reset(times, h) {
        ResetLater(times, h, x);
      }
    }
  }

  lemma NoneHeldKnown(s: State)
    requires !s.place.Holding?
    ensures Known(s)
  {
  }

  // An alarm is taken only when the list is in order, and then it is the earliest.
  lemma TakenKnown(s: State)
    requires Inv(s) && s.list != [] && !s.place.Holding?
    ensures Known(Taken(s))
  {
    hide Inv, CanMiss, Reset, FiredAlarms, Held;
    TakenKeeps(s);
  }

  lemma TickKnown(s: State, now: int)
    requires Known(s) && now >= s.now
    ensures Known(Next(s, Tick(now)))
  {
    hide CanMiss, Reset;
  }

  lemma ClearedKeeps(s: State)
    requires Inv(s)
    ensures Inv(s.(current := 0))
  {
    hide FiredAlarms, InTime;
  }

  lemma StepKnown(s: State, step: Step)
    requires Inv(s) && Known(s) && Enabled(s, step)
    ensures Known(Next(s, step))
  {
    hide Inv, Known, Taken, FiredAlarms, Inserted, Held;
    match step
    case Insert(x) => InsertKnown(s, x);
    case Begin =>
      if s.list != [] {
        ClearedKeeps(s);
        TakenKnown(s.(current := 0));
      } else {
        NoneHeldKnown(Next(s, step));
      }
    case Work => TakenKnown(s);
    case Tick(now) => TickKnown(s, now);
    case _ => NoneHeldKnown(Next(s, step));
  }

  lemma {:induction false} RunKnown(run: seq<State>, steps: seq<Step>, i: nat)
    requires IsRun(run, steps) && i <= |steps|
    ensures Known(run[i])
  {
    hide Known, Next, Enabled, Inv;
    if i > 0 {
      RunKnown(run, steps, i - 1);
      RunKeeps(run, steps, i - 1);
      StepKnown(run[i - 1], steps[i - 1]);
    } else {
      NoneHeldKnown(run[0]);
    }
  }

  // ----- These times do -----

  lemma RunExtended(run: seq<State>, steps: seq<Step>, step: Step)
    requires IsRun(run, steps) && Enabled(run[|steps|], step)
    ensures IsRun(run + [Next(run[|steps|], step)], steps + [step])
  {
    hide Enabled, Next;
    var more, next := run + [Next(run[|steps|], step)], steps + [step];
    forall i | 0 <= i < |next| ensures Enabled(more[i], next[i]) && more[i + 1] == Next(more[i], next[i]) {
      if i < |steps| {
        assert Enabled(run[i], steps[i]) && run[i + 1] == Next(run[i], steps[i]);
      }
    }
  }

  predicate Lists(s: State, time: int) {
    exists a :: a in s.list && a.time == time
  }

  // All times inserted before the thread begins.
  lemma {:induction false} InsertFirst(times: seq<int>, now: int) returns (run: seq<State>, steps: seq<Step>)
    ensures IsRun(run, steps)
    ensures var s := run[|steps|]; s.place.Born? && s.now == now && Times(s.inserted) == times && forall t :: t in times ==> Lists(s, t)
  {
    if times == [] {
      run, steps := [State([], 0, Born, now, [], [])], [];
    } else {
      var n := |times| - 1;
      run, steps := InsertFirst(times[..n], now);
      var s := run[|steps|];
      run, steps := InsertOne(run, steps, times[n]);
      assert times == times[..n] + [times[n]];
    }
  }

  lemma InsertOne(run: seq<State>, steps: seq<Step>, x: int) returns (run': seq<State>, steps': seq<Step>)
    requires IsRun(run, steps) && !run[|steps|].place.Top?
    ensures IsRun(run', steps')
    ensures var s, s' := run[|steps|], run'[|steps'|];
      s'.place == s.place && s'.now == s.now && Times(s'.inserted) == Times(s.inserted) + [x] &&
      s'.current == CurrentAfter(s.current, x) && forall t :: Lists(s', t) <==> Lists(s, t) || t == x
  {
    var s, a := run[|steps|], Alarm(|run[|steps|].inserted|, x);
    run', steps' := run + [Next(s, Insert(x))], steps + [Insert(x)];
    RunExtended(run, steps, Insert(x));
    TimesAdded(s.inserted, a);
    InsertedItems(s.list, a);
    var s' := Next(s, Insert(x));
    assert a in s'.list;
  }

  // The thread fires all earlier alarms and waits for one of the time h.
  lemma {:induction false} Settle(run: seq<State>, steps: seq<Step>, h: int) returns (run': seq<State>, steps': seq<Step>)
    requires IsRun(run, steps) && var s := run[|steps|]; (s.place.Born? || s.place.Top?) && s.now == h - 1 && Lists(s, h)
    ensures IsRun(run', steps')
    ensures var s, s' := run[|steps|], run'[|steps'|];
      s'.place.Holding? && s'.place.alarm.time == h && s'.current == h && s'.inserted == s.inserted
    decreases |run[|steps|].list|
  {
    var s := run[|steps|];
    RunKeeps(run, steps, |steps|);
    var a :| a in s.list && a.time == h;
    var i :| 0 <= i < |s.list| && s.list[i] == a;
    RunExtended(run, steps, Begin);
    var s' := Next(s, Begin);
    run', steps' := run + [s'], steps + [Begin];
    if s.list[0].time < h {
      assert a == s.list[1..][i - 1] && s'.list == s.list[1..];
      run', steps' := Settle(run', steps', h);
    }
  }

  lemma {:induction false} InsertLater(run: seq<State>, steps: seq<Step>, xs: seq<int>) returns (run': seq<State>, steps': seq<Step>)
    requires IsRun(run, steps)
    requires var s := run[|steps|];
      s.place.Holding? && (s.current == 0 || s.current > s.place.alarm.time) && Lists(s, 0) &&
      s.place.alarm.time > 0 && forall i :: 0 <= i < |xs| ==> xs[i] > s.place.alarm.time
    ensures IsRun(run', steps')
    ensures var s, s' := run[|steps|], run'[|steps'|];
      s'.place == s.place && (s'.current == 0 || s'.current > s.place.alarm.time) && Lists(s', 0) &&
      Times(s'.inserted) == Times(s.inserted) + xs
  {
    if xs == [] {
      run', steps' := run, steps;
      assert Times(run[|steps|].inserted) + xs == Times(run[|steps|].inserted);
    } else {
      var n := |xs| - 1;
      run', steps' := InsertLater(run, steps, xs[..n]);
      run', steps' := InsertOne(run', steps', xs[n]);
      assert xs == xs[..n] + [xs[n]];
      assert Times(run[|steps|].inserted) + xs[..n] + [xs[n]] == Times(run[|steps|].inserted) + xs;
    }
  }

  lemma Missed(times: seq<int>, i: nat, j: nat, k: nat) returns (run: seq<State>, steps: seq<Step>)
    requires MissesAt(times, i, j, k)
    ensures IsRun(run, steps) && Times(run[|steps|].inserted) == times[..k + 1] && !WaitsForEarliest(run[|steps|])
  {
    var h := times[i];
    run, steps := InsertFirst(times[..j], h - 1);
    assert times[..j][i] == h;
    run, steps := Settle(run, steps, h);
    run, steps := InsertOne(run, steps, 0);
    run, steps := InsertLater(run, steps, times[j + 1..k]);
    run, steps := InsertOne(run, steps, h);
    assert times[..j] + [0] + times[j + 1..k] + [h] == times[..k + 1];
    assert Lists(run[|steps|], 0);
  }

  ghost predicate SomeRunMisses(times: seq<int>) {
    exists run: seq<State>, steps: seq<Step> ::
      IsRun(run, steps) && Times(run[|steps|].inserted) <= times && !WaitsForEarliest(run[|steps|])
  }

  lemma {:induction false} CanMissPrefix(times: seq<int>, more: seq<int>)
    requires times <= more && CanMiss(times)
    ensures CanMiss(more)
  {
    var i, j, k :| MissesAt(times, i, j, k);
    assert MissesAt(more, i, j, k);
  }

  // Inserting these times, in this order, can make the thread wait for an alarm that
  // is not the earliest, with current_alarm its time, exactly if the same positive
  // time comes before and after a time 0 with only later times between.
  lemma MissedExactly(times: seq<int>)
    ensures SomeRunMisses(times) <==> CanMiss(times)
  {
    if CanMiss(times) {
      var i, j, k :| MissesAt(times, i, j, k);
      var run, steps := Missed(times, i, j, k);
      assert times[..k + 1] <= times;
    }
    if SomeRunMisses(times) {
      var run: seq<State>, steps: seq<Step> :|
        IsRun(run, steps) && Times(run[|steps|].inserted) <= times && !WaitsForEarliest(run[|steps|]);
      RunKnown(run, steps, |steps|);
      CanMissPrefix(Times(run[|steps|].inserted), times);
    }
  }

  // An earlier time between has the thread take that alarm; a later one has not.
  lemma BetweenMatters()
    ensures !SomeRunMisses([9, 0, 5, 9]) && SomeRunMisses([9, 0, 10, 9])
  {
    hide SomeRunMisses, IsRun, WaitsForEarliest, Times;
    var earlier, later := [9, 0, 5, 9], [9, 0, 10, 9];
    MissedExactly(earlier);
    MissedExactly(later);
    forall i, j, k ensures !MissesAt(earlier, i, j, k) {
      assert 1 < k < 4 ==> earlier[k] != 0;
      assert j == 1 && k == 3 ==> earlier[2] <= earlier[k];
    }
    assert MissesAt(later, 0, 1, 3);
  }
}
