// The alarm thread (alarm_cond.c): its sorted list, changed in place, and the
// protocol between inserter and thread.
module AlarmList {

  // ----- alarm_insert as a function -----

  datatype Alarm = Alarm(id: nat, time: int)

  // In front of the first alarm that is not earlier.
  function Inserted(list: seq<Alarm>, a: Alarm): seq<Alarm> {
    if list == [] then [a]
    else if list[0].time >= a.time then [a] + list
    else [list[0]] + Inserted(list[1..], a)
  }

  predicate InTime(list: seq<Alarm>) {
    forall i, j :: 0 <= i < j < |list| ==> list[i].time <= list[j].time
  }

  lemma {:induction false} InsertedItems(list: seq<Alarm>, a: Alarm)
    ensures multiset(Inserted(list, a)) == multiset(list) + multiset{a}
    ensures forall b :: b in Inserted(list, a) <==> b in list || b == a
  {
    if list != [] {
      assert list == [list[0]] + list[1..];
      if list[0].time < a.time { InsertedItems(list[1..], a); }
    }
  }

  lemma {:induction false} InsertedInTime(list: seq<Alarm>, a: Alarm)
    requires InTime(list)
    ensures InTime(Inserted(list, a))
  {
    if list != [] && list[0].time < a.time {
      InsertedInTime(list[1..], a);
      InsertedItems(list[1..], a);
      var rest := Inserted(list[1..], a);
      forall j | 0 <= j < |rest| ensures list[0].time <= rest[j].time {
        assert rest[j] in rest;
        if b :| 0 <= b < |list[1..]| && list[1..][b] == rest[j] { assert list[b + 1] == rest[j]; }
      }
    }
  }

  // What alarm_insert does to current_alarm.
  function CurrentAfter(current: int, time: int): int {
    if current == 0 || time < current then time else current
  }

  // Then it wakes the alarm thread.
  predicate Signals(current: int, time: int) {
    current == 0 || time < current
  }

  // ----- alarm_insert on the list -----

  class Node {
    const alarm: Alarm
    var link: Node?

    constructor (alarm: Alarm)
      ensures this.alarm == alarm && link == null
    {
      this.alarm, link := alarm, null;
    }
  }

  function AlarmsOf(nodes: seq<Node>): (r: seq<Alarm>)
    ensures |r| == |nodes| && forall i :: 0 <= i < |r| ==> r[i] == nodes[i].alarm
  {
    if nodes == [] then [] else AlarmsOf(nodes[..|nodes| - 1]) + [nodes[|nodes| - 1].alarm]
  }

  class AlarmQueue {
    var alarmList: Node?
    var currentAlarm: int
    ghost var nodes: seq<Node>

    // The list leads through the nodes, each once.
    ghost predicate Valid()
      reads this`alarmList, this`nodes, nodes
    {
      alarmList == (if nodes == [] then null else nodes[0]) &&
      (forall i :: 0 <= i < |nodes| - 1 ==> nodes[i].link == nodes[i + 1]) &&
      (nodes != [] ==> nodes[|nodes| - 1].link == null) &&
      forall i, j :: 0 <= i < j < |nodes| ==> nodes[i] != nodes[j]
    }

    ghost function Alarms(): (r: seq<Alarm>)
      reads this`nodes
      ensures |r| == |nodes| && forall i :: 0 <= i < |r| ==> r[i] == nodes[i].alarm
    {
      AlarmsOf(nodes)
    }

    constructor ()
      ensures Valid() && Alarms() == [] && currentAlarm == 0
    {
      alarmList, currentAlarm, nodes := null, 0, [];
    }

    // The source keeps the address of the link it may have to change; here it is
    // the link of last, or alarm_list if there is no last.
    method FindPlace(time: int) returns (last: Node?, next: Node?, ghost k: nat)
      requires Valid()
      ensures k <= |nodes| && next == (if k < |nodes| then nodes[k] else null)
      ensures last == if k == 0 then null else nodes[k - 1]
      ensures (forall i :: 0 <= i < k ==> nodes[i].alarm.time < time) && (k < |nodes| ==> nodes[k].alarm.time >= time)
    {
      last, next, k := null, alarmList, 0;
      while next != null && next.alarm.time < time
        invariant Valid() && k <= |nodes| && next == (if k < |nodes| then nodes[k] else null)
        invariant last == if k == 0 then null else nodes[k - 1]
        invariant forall i :: 0 <= i < k ==> nodes[i].alarm.time < time
        decreases |nodes| - k
      {
        last := next;
        next := next.link;
        k := k + 1;
      }
    }

    method AlarmInsert(alarm: Node) returns (signalled: bool)
      requires Valid() && alarm !in nodes
      modifies this, alarm, nodes
      ensures Valid() && Alarms() == Inserted(old(Alarms()), alarm.alarm)
      ensures currentAlarm == CurrentAfter(old(currentAlarm), alarm.alarm.time)
      ensures signalled == Signals(old(currentAlarm), alarm.alarm.time)
    {
      var last, next, k := FindPlace(alarm.alarm.time);
      Link(alarm, last, next, k);
      signalled := false;
      if currentAlarm == 0 || alarm.alarm.time < currentAlarm {
        currentAlarm := alarm.alarm.time;
        signalled := true;
      }
    }

    // Both branches of the source: before next, or at the end if next is null.
    method Link(alarm: Node, last: Node?, next: Node?, ghost k: nat)
      requires Valid() && alarm !in nodes && k <= |nodes| && next == (if k < |nodes| then nodes[k] else null)
      requires last == if k == 0 then null else nodes[k - 1]
      requires (forall i :: 0 <= i < k ==> nodes[i].alarm.time < alarm.alarm.time)
      requires k < |nodes| ==> nodes[k].alarm.time >= alarm.alarm.time
      modifies this`alarmList, this`nodes, alarm, nodes
      ensures Valid() && Alarms() == Inserted(old(Alarms()), alarm.alarm)
    {
      hide AlarmsOf, Inserted;
      ghost var before, list := Alarms(), nodes;
      InsertedAt(before, alarm.alarm, k);
      Spliced(list, alarm, k);
      Spliced(before, alarm.alarm, k);
      assert forall i :: 0 <= i < |list| && i != k - 1 ==> list[i] != last && list[i] != alarm;
      alarm.link := next;
      if last == null {
        alarmList := alarm;
      } else {
        last.link := alarm;
      }
      nodes := list[..k] + [alarm] + list[k..];
      assert forall i :: 0 <= i < |nodes| - 1 ==> nodes[i].link == nodes[i + 1];
      assert Alarms() == before[..k] + [alarm.alarm] + before[k..];
    }
  }

  lemma Spliced<T>(list: seq<T>, x: T, k: nat)
    requires k <= |list|
    ensures var r := list[..k] + [x] + list[k..];
      |r| == |list| + 1 && r[k] == x && (forall i :: 0 <= i < k ==> r[i] == list[i]) && forall i :: k < i < |r| ==> r[i] == list[i - 1]
  {
  }

  lemma {:induction false} InsertedAt(list: seq<Alarm>, a: Alarm, k: nat)
    requires k <= |list| && (forall i :: 0 <= i < k ==> list[i].time < a.time) && (k < |list| ==> list[k].time >= a.time)
    ensures Inserted(list, a) == list[..k] + [a] + list[k..]
  {
    if k > 0 {
      InsertedAt(list[1..], a, k - 1);
      assert [list[0]] + (list[1..][..k - 1] + [a] + list[1..][k - 1..]) == list[..k] + [a] + list[k..];
    }
  }

  // ----- The protocol -----

  // The alarm thread has not begun, waits for work, holds the mutex at the top of
  // its loop, or waits for the deadline of the alarm it took.
  datatype Place = Born | Idle | Top | Holding(alarm: Alarm)

  datatype Firing = Firing(alarm: Alarm, at: int)

  datatype State = State(list: seq<Alarm>, current: int, place: Place, now: int, inserted: seq<Alarm>, fired: seq<Firing>)

  datatype Step = Insert(time: int) | Begin | Work | TimeOut | Woken | Tick(now: int)

  predicate Enabled(s: State, step: Step) {
    match step
    case Insert(_) => !s.place.Top?
    case Begin => s.place.Born? || s.place.Top?
    case Work => s.place.Idle? && s.list != []
    case TimeOut => s.place.Holding? && s.now >= s.place.alarm.time
    case Woken => s.place.Holding? && s.current != s.place.alarm.time
    case Tick(n) => n >= s.now
  }

  // The first alarm is taken, to wait for it or to fire it.
  function Taken(s: State): State
    requires s.list != []
  {
    var a, s' := s.list[0], s.(list := s.list[1..]);
    if a.time > s.now then s'.(current := a.time, place := Holding(a))
    else s'.(fired := s.fired + [Firing(a, s.now)], place := Top)
  }

  function Next(s: State, step: Step): State
    requires Enabled(s, step)
  {
    match step
    case Insert(time) =>
      var a := Alarm(|s.inserted|, time);
      s.(list := Inserted(s.list, a), current := CurrentAfter(s.current, time), inserted := s.inserted + [a])
    case Begin =>
      var s' := s.(current := 0);
      if s.list == [] then s'.(place := Idle) else Taken(s')
    case Work => Taken(s)
    case TimeOut => s.(fired := s.fired + [Firing(s.place.alarm, s.now)], place := Top)
    case Woken =>
      var a := s.place.alarm;
      s.(list := Inserted(s.list, a), current := CurrentAfter(s.current, a.time), place := Top)
    case Tick(n) => s.(now := n)
  }

  predicate Initial(s: State) {
    s.list == [] && s.current == 0 && s.place.Born? && s.inserted == [] && s.fired == []
  }

  ghost predicate IsRun(run: seq<State>, steps: seq<Step>) {
    |run| == |steps| + 1 && Initial(run[0]) &&
    forall i :: 0 <= i < |steps| ==> Enabled(run[i], steps[i]) && run[i + 1] == Next(run[i], steps[i])
  }

  function Held(s: State): multiset<Alarm> {
    if s.place.Holding? then multiset{s.place.alarm} else multiset{}
  }

  function FiredAlarms(fired: seq<Firing>): multiset<Alarm> {
    if fired == [] then multiset{} else FiredAlarms(fired[..|fired| - 1]) + multiset{fired[|fired| - 1].alarm}
  }

  lemma FiredOne(fired: seq<Firing>, f: Firing)
    ensures FiredAlarms(fired + [f]) == FiredAlarms(fired) + multiset{f.alarm}
  {
    assert (fired + [f])[..|fired|] == fired;
  }

  ghost predicate Inv(s: State) {
    InTime(s.list) && multiset(s.list) + Held(s) + FiredAlarms(s.fired) == multiset(s.inserted) &&
    (forall i :: 0 <= i < |s.fired| ==> s.fired[i].at >= s.fired[i].alarm.time) &&
    forall i :: 0 <= i < |s.inserted| ==> s.inserted[i].id == i
  }

  // As long as current_alarm is its time, the alarm waited for is the earliest.
  ghost predicate WaitsForEarliest(s: State) {
    s.place.Holding? && s.current == s.place.alarm.time ==> forall a :: a in s.list ==> s.place.alarm.time <= a.time
  }

  // The items of the list, held and fired, regrouped.
  lemma Regroup(l: multiset<Alarm>, h: multiset<Alarm>, f: multiset<Alarm>, a: multiset<Alarm>)
    ensures (l + a) + h + f == (l + h + f) + a
    ensures (a + l) + multiset{} + f == l + a + f == l + multiset{} + (f + a)
  {
  }

  lemma TakenKeeps(s: State)
    requires Inv(s) && s.list != [] && !s.place.Holding?
    ensures Inv(Taken(s)) && WaitsForEarliest(Taken(s))
  {
    hide FiredAlarms;
    var a, rest, f := s.list[0], s.list[1..], FiredAlarms(s.fired);
    assert s.list == [a] + rest;
    assert multiset(s.inserted) == (multiset{a} + multiset(rest)) + multiset{} + f;
    Regroup(multiset(rest), multiset{}, f, multiset{a});
    FiredOne(s.fired, Firing(a, s.now));
  }

  lemma ReturnedKeeps(s: State, a: Alarm)
    requires Inv(s) && s.place == Holding(a)
    ensures Inv(s.(list := Inserted(s.list, a), current := CurrentAfter(s.current, a.time), place := Top))
  {
    hide FiredAlarms, Inserted, InTime;
    InsertedInTime(s.list, a);
    InsertedItems(s.list, a);
    Regroup(multiset(s.list), multiset{}, FiredAlarms(s.fired), multiset{a});
  }

  lemma InsertKeeps(s: State, time: int)
    requires Inv(s) && Enabled(s, Insert(time))
    ensures Inv(Next(s, Insert(time)))
  {
    hide FiredAlarms, Inserted, InTime;
    var a := Alarm(|s.inserted|, time);
    InsertedInTime(s.list, a);
    InsertedItems(s.list, a);
    Regroup(multiset(s.list), Held(s), FiredAlarms(s.fired), multiset{a});
  }

  lemma TimeOutKeeps(s: State)
    requires Inv(s) && Enabled(s, TimeOut)
    ensures Inv(Next(s, TimeOut))
  {
    hide FiredAlarms;
    var a, l, f := s.place.alarm, multiset(s.list), FiredAlarms(s.fired);
    FiredOne(s.fired, Firing(a, s.now));
    assert l + multiset{a} + f == l + multiset{} + (f + multiset{a});
  }

  lemma StepKeeps(s: State, step: Step)
    requires Inv(s) && Enabled(s, step)
    ensures Inv(Next(s, step))
  {
    hide FiredAlarms, Inserted, InTime;
    match step
    case Insert(time) => InsertKeeps(s, time);
    case Begin => if s.list != [] { TakenKeeps(s.(current := 0)); }
    case Work => TakenKeeps(s);
    case TimeOut => TimeOutKeeps(s);
    case Woken => ReturnedKeeps(s, s.place.alarm);
    case Tick(_) =>
  }

  lemma {:induction false} RunKeeps(run: seq<State>, steps: seq<Step>, i: nat)
    requires IsRun(run, steps) && i <= |steps|
    ensures Inv(run[i])
  {
    if i > 0 {
      RunKeeps(run, steps, i - 1);
      StepKeeps(run[i - 1], steps[i - 1]);
    }
  }

  // ----- What the program is for -----

  // Each alarm is in the list, or held, or has fired, and only one of these; the
  // list is in order; nothing has fired early.
  lemma EachAlarmOnce(run: seq<State>, steps: seq<Step>, i: nat, k: nat)
    requires IsRun(run, steps) && i <= |steps| && k < |run[i].inserted|
    ensures var s := run[i];
      InTime(s.list) && (multiset(s.list) + Held(s) + FiredAlarms(s.fired))[s.inserted[k]] == 1 &&
      forall j :: 0 <= j < |s.fired| ==> s.fired[j].at >= s.fired[j].alarm.time
  {
    RunKeeps(run, steps, i);
    OnlyOnce(run[i].inserted, k);
  }

  lemma OnlyOnce(list: seq<Alarm>, k: nat)
    requires k < |list| && forall i :: 0 <= i < |list| ==> list[i].id == i
    ensures multiset(list)[list[k]] == 1
  {
    assert list == list[..k] + [list[k]] + list[k + 1..];
    assert list[k] !in list[..k] && list[k] !in list[k + 1..];
  }

  // A step keeps the earliest alarm waited for, except for an insertion that puts
  // current_alarm back to the time of the held alarm, after it was 0 or later
  // than that: 0 is taken to mean that nothing is waited for.
  lemma EarliestKeptExactly(s: State, step: Step)
    requires Inv(s) && WaitsForEarliest(s) && Enabled(s, step)
    ensures WaitsForEarliest(Next(s, step)) <==>
      !(step.Insert? && s.place.Holding? && step.time == s.place.alarm.time && s.current != step.time &&
        (s.current == 0 || s.current > step.time) && exists a :: a in s.list && a.time < step.time)
  {
    match step
    case Insert(time) =>
      InsertedItems(s.list, Alarm(|s.inserted|, time));
      if a :| a in s.list && a.time < time { assert a in Next(s, step).list; }
    case Begin => if s.list != [] { TakenKeeps(s.(current := 0)); }
    case Work => TakenKeeps(s);
    case _ =>
  }

  // No alarm has the time 0.
  ghost predicate NoZero(steps: seq<Step>) {
    forall i :: 0 <= i < |steps| && steps[i].Insert? ==> steps[i].time != 0
  }

  // Then current_alarm is 0 only while no alarm is held.
  lemma {:induction false} EarliestAlways(run: seq<State>, steps: seq<Step>, i: nat)
    requires IsRun(run, steps) && i <= |steps| && NoZero(steps)
    ensures WaitsForEarliest(run[i]) && (run[i].place.Holding? ==> run[i].current != 0 && run[i].current <= run[i].place.alarm.time)
    ensures forall a :: a in run[i].inserted ==> a.time != 0
  {
    if i > 0 {
      EarliestAlways(run, steps, i - 1);
      RunKeeps(run, steps, i - 1);
      EarliestKeptExactly(run[i - 1], steps[i - 1]);
      ListedWereInserted(run[i - 1]);
      assert run[i - 1].list != [] ==> run[i - 1].list[0] in run[i - 1].inserted;
      assert run[i] == Next(run[i - 1], steps[i - 1]);
    }
  }

  lemma ListedWereInserted(s: State)
    requires Inv(s)
    ensures forall a :: a in s.list ==> a in s.inserted
  {
    assert forall a :: a in s.list ==> a in multiset(s.list) + Held(s) + FiredAlarms(s.fired);
  }

  // The thread waits for the time 9 while the list begins with the time 0.
  lemma MissedAlarm() returns (run: seq<State>, steps: seq<Step>)
    ensures IsRun(run, steps) && !WaitsForEarliest(run[|steps|])
  {
    var held, zero, again := Alarm(0, 9), Alarm(1, 0), Alarm(2, 9);
    var s0 := State([], 0, Born, 5, [], []);
    var s1 := State([held], 9, Born, 5, [held], []);
    var s2 := State([], 9, Holding(held), 5, [held], []);
    var s3 := State([zero], 0, Holding(held), 5, [held, zero], []);
    var s4 := State([zero, again], 9, Holding(held), 5, [held, zero, again], []);
    steps := [Insert(9), Begin, Insert(0), Insert(9)];
    run := [s0, s1, s2, s3, s4];
    assert Next(s0, steps[0]) == s1 && Next(s1, steps[1]) == s2;
    assert Next(s2, steps[2]) == s3;
    assert Inserted([zero], again) == [zero] + Inserted([zero][1..], again);
    assert Next(s3, steps[3]) == s4;
    assert zero in s4.list;
  }
}
