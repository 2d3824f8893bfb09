// What the alarm thread (alarm_cond.c) fires, when it waits, and that nothing is left.
module AlarmProgress {
  import opened AlarmList

  lemma {:induction false} InsertedLonger(list: seq<Alarm>, a: Alarm)
    ensures |Inserted(list, a)| == |list| + 1
  {
    if list != [] && list[0].time < a.time { InsertedLonger(list[1..], a); }
  }

  // ----- One step -----

  // An alarm that is fired without a wait is no later than any that stays listed, and
  // was due; the thread fires one at a time.
  lemma FiresEarliest(run: seq<State>, steps: seq<Step>, i: nat)
    requires IsRun(run, steps) && i < |steps| && run[i + 1].fired != run[i].fired
    ensures var s, s' := run[i], run[i + 1];
      |s'.fired| == |s.fired| + 1 && s'.fired[..|s.fired|] == s.fired &&
      var f := s'.fired[|s.fired|];
      f.at == s.now >= f.alarm.time && (s.place != Holding(f.alarm) ==> forall a :: a in s'.list ==> f.alarm.time <= a.time) &&
      (s.place.Holding? ==> s.place == Holding(f.alarm))
  {
    RunKeeps(run, steps, i);
    assert Enabled(run[i], steps[i]) && run[i + 1] == Next(run[i], steps[i]);
    if run[i].list != [] {
      assert forall a :: a in run[i].list[1..] ==> run[i].list[0].time <= a.time;
    }
  }

  // An alarm the thread begins to wait for is not due, no later than any listed, and
  // current_alarm is its time.
  lemma HoldsEarliest(run: seq<State>, steps: seq<Step>, i: nat)
    requires IsRun(run, steps) && i < |steps| && run[i + 1].place.Holding? && run[i].place != run[i + 1].place
    ensures var s', a := run[i + 1], run[i + 1].place.alarm;
      s'.now < a.time == s'.current && forall b :: b in s'.list ==> a.time <= b.time
  {
    RunKeeps(run, steps, i);
    assert Enabled(run[i], steps[i]) && run[i + 1] == Next(run[i], steps[i]);
    if run[i].list != [] {
      assert forall a :: a in run[i].list[1..] ==> run[i].list[0].time <= a.time;
    }
  }

  // ----- When the thread waits -----

  // A step of the alarm thread.
  predicate OfThread(step: Step) {
    !step.Insert? && !step.Tick?
  }

  ghost predicate Stalls(s: State) {
    forall step :: OfThread(step) ==> !Enabled(s, step)
  }

  // The thread waits exactly while the list is empty, or the alarm it waits for is not
  // due and current_alarm is its time. An alarm can be inserted unless the thread is
  // at work.
  lemma WaitsExactly(run: seq<State>, steps: seq<Step>, i: nat)
    requires IsRun(run, steps) && i <= |steps|
    ensures var s := run[i];
      (Stalls(s) <==>
        (s.place.Idle? && s.list == []) || (s.place.Holding? && s.now < s.place.alarm.time == s.current)) &&
      (Stalls(s) ==> forall time :: Enabled(s, Insert(time)))
  {
    var s := run[i];
    if (s.place.Idle? && s.list == []) || (s.place.Holding? && s.now < s.place.alarm.time == s.current) {
      assert Stalls(s);
    } else {
      assert OfThread(Begin) && OfThread(Work) && OfThread(TimeOut) && OfThread(Woken);
      assert Enabled(s, Begin) || Enabled(s, Work) || Enabled(s, TimeOut) || Enabled(s, Woken);
    }
  }

  // An insertion with which the thread need not wait any longer wakes it.
  lemma InsertWakes(run: seq<State>, steps: seq<Step>, i: nat)
    requires IsRun(run, steps) && i < |steps| && steps[i].Insert? && Stalls(run[i]) && !Stalls(run[i + 1])
    ensures Signals(run[i].current, steps[i].time)
  {
    hide Stalls;
    WaitsExactly(run, steps, i);
    WaitsExactly(run, steps, i + 1);
    IdleIsZero(run, steps, i);
    assert Enabled(run[i], steps[i]) && run[i + 1] == Next(run[i], steps[i]);
  }

  // With nothing to do, current_alarm is 0.
  lemma {:induction false} IdleIsZero(run: seq<State>, steps: seq<Step>, i: nat)
    requires IsRun(run, steps) && i <= |steps|
    ensures run[i].place.Idle? && run[i].list == [] ==> run[i].current == 0
  {
    if i > 0 {
      IdleIsZero(run, steps, i - 1);
      assert Enabled(run[i - 1], steps[i - 1]) && run[i] == Next(run[i - 1], steps[i - 1]);
      if steps[i - 1].Insert? { InsertedLonger(run[i - 1].list, Alarm(|run[i - 1].inserted|, steps[i - 1].time)); }
    }
  }

  // A measure of what the thread has still to do before it waits.
  function ToDo(s: State): nat {
    4 * |s.list| +
    match s.place
    case Born => 2
    case Top => 2
    case Idle => 1
    case Holding(a) => if s.current == a.time then 3 else 7
  }

  lemma StepShortens(s: State, step: Step)
    requires OfThread(step) && Enabled(s, step)
    ensures ToDo(Next(s, step)) < ToDo(s)
  {
    if step.Woken? { InsertedLonger(s.list, s.place.alarm); }
  }

  lemma RunExtended(run: seq<State>, steps: seq<Step>, step: Step)
    requires IsRun(run, steps) && Enabled(run[|steps|], step)
    ensures IsRun(run + [Next(run[|steps|], step)], steps + [step])
  {
    hide Enabled, Next;
    var more, next := run + [Next(run[|steps|], step)], steps + [step];
    forall i | 0 <= i < |next| ensures Enabled(more[i], next[i]) && more[i + 1] == Next(more[i], next[i]) {
      if i < |steps| {
        assert Enabled(run[i], steps[i]) && run[i + 1] == Next(run[i], steps[i]);
      }
    }
  }

  // Left to itself, the thread comes to wait.
  lemma {:induction false} ComesToWait(run: seq<State>, steps: seq<Step>) returns (run': seq<State>, steps': seq<Step>)
    requires IsRun(run, steps)
    ensures IsRun(run', steps') && run <= run' && Stalls(run'[|steps'|])
    ensures run'[|steps'|].inserted == run[|steps|].inserted && run'[|steps'|].now == run[|steps|].now
    decreases ToDo(run[|steps|])
  {
    hide Enabled, Next, ToDo;
    var s := run[|steps|];
    if step :| OfThread(step) && Enabled(s, step) {
      StepShortens(s, step);
      RunExtended(run, steps, step);
      SameTime(s, step);
      run', steps' := ComesToWait(run + [Next(s, step)], steps + [step]);
    } else {
      run', steps' := run, steps;
    }
  }

  lemma SameTime(s: State, step: Step)
    requires OfThread(step) && Enabled(s, step)
    ensures Next(s, step).inserted == s.inserted && Next(s, step).now == s.now
  {
  }

  // ----- Nothing is left -----

  // When the thread waits and the time of every alarm has come, each has fired once.
  lemma AllFired(run: seq<State>, steps: seq<Step>, i: nat)
    requires IsRun(run, steps) && i <= |steps| && Stalls(run[i]) && forall a :: a in run[i].inserted ==> a.time <= run[i].now
    ensures run[i].list == [] && multiset(run[i].inserted) == FiredAlarms(run[i].fired)
  {
    hide FiredAlarms;
    RunKeeps(run, steps, i);
    if run[i].place.Holding? { HeldWasInserted(run[i]); }
    WaitsExactly(run, steps, i);
  }

  lemma HeldWasInserted(s: State)
    requires Inv(s) && s.place.Holding?
    ensures s.place.alarm in s.inserted
  {
    assert s.place.alarm in multiset(s.list) + Held(s) + FiredAlarms(s.fired);
  }

  // Whatever has happened, every alarm inserted can still be fired, once.
  lemma EachAlarmFires(run: seq<State>, steps: seq<Step>) returns (run': seq<State>, steps': seq<Step>)
    requires IsRun(run, steps)
    ensures IsRun(run', steps') && run <= run' && run'[|steps'|].inserted == run[|steps|].inserted
    ensures multiset(run[|steps|].inserted) == FiredAlarms(run'[|steps'|].fired)
  {
    hide Stalls, FiredAlarms, Inv;
    var s := run[|steps|];
    var late := Latest(s.inserted, s.now);
    RunExtended(run, steps, Tick(late));
    run', steps' := ComesToWait(run + [s.(now := late)], steps + [Tick(late)]);
    AllFired(run', steps', |steps'|);
  }

  lemma {:induction false} Latest(alarms: seq<Alarm>, now: int) returns (late: int)
    ensures late >= now && forall a :: a in alarms ==> a.time <= late
  {
    late := now;
    if alarms != [] {
      late := Latest(alarms[1..], now);
      if late < alarms[0].time { late := alarms[0].time; }
    }
  }

  // ----- Insertions -----

  function TimesOf(steps: seq<Step>): seq<int> {
    if steps == [] then []
    else
      var last := steps[|steps| - 1];
      TimesOf(steps[..|steps| - 1]) + if last.Insert? then [last.time] else []
  }

  // There is an alarm for each insertion, of its time.
  lemma {:induction false} EachInserted(run: seq<State>, steps: seq<Step>, i: nat)
    requires IsRun(run, steps) && i <= |steps|
    ensures var times := TimesOf(steps[..i]);
      |run[i].inserted| == |times| && forall k :: 0 <= k < |times| ==> run[i].inserted[k].time == times[k]
  {
    if i > 0 {
      EachInserted(run, steps, i - 1);
      assert steps[..i][..i - 1] == steps[..i - 1];
      assert Enabled(run[i - 1], steps[i - 1]) && run[i] == Next(run[i - 1], steps[i - 1]);
    }
  }
}
