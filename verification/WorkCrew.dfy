// The work crew (crew.c): workers, a queue of paths and a count of outstanding work.
module WorkCrew {
  import opened LinkedItems

  // What a path names. A directory has the entries that readdir_r delivers
  // without . and .., if it can be opened at all.
  datatype File = Plain | Directory(opens: bool, entries: seq<File>)

  // A path: the call of crew_start it belongs to, then positions in directories.
  type Path = seq<nat>

  function Entries(f: File): seq<File> {
    if f.Directory? && f.opens then f.entries else []
  }

  // The file a path leads to; roots are the arguments of the crew_start calls.
  predicate Exists(roots: seq<File>, p: Path)
    decreases |p|, 0
  {
    |p| > 0 &&
    if |p| == 1 then p[0] < |roots|
    else Exists(roots, p[..|p| - 1]) && p[|p| - 1] < |Entries(At(roots, p[..|p| - 1]))|
  }

  function At(roots: seq<File>, p: Path): File
    requires Exists(roots, p)
    decreases |p|, 1
  {
    if |p| == 1 then roots[p[0]] else Entries(At(roots, p[..|p| - 1]))[p[|p| - 1]]
  }

  // ----- The crew structure: one critical section a method -----

  datatype Shared = Shared(workCount: int, queue: seq<Path>)

  function Queued(sh: Shared, p: Path): Shared {
    Shared(sh.workCount + 1, sh.queue + [p])
  }

  function Taken(sh: Shared): Shared
    requires sh.queue != []
  {
    sh.(queue := sh.queue[1..])
  }

  function Counted(sh: Shared): Shared {
    sh.(workCount := sh.workCount - 1)
  }

  class Crew {
    var workCount: int
    var first: Item?<Path>
    var last: Item?<Path>
    ghost var items: seq<Item<Path>>

    // The list leads through the items to the last.
    ghost predicate Linked()
      reads this, items
    {
      Chained(first, items) && last == if items == [] then null else items[|items| - 1]
    }

    ghost function Value(): Shared
      reads this, items
    {
      Shared(workCount, Values(items))
    }

    constructor ()
      ensures Linked() && Value() == Shared(0, [])
    {
      workCount, first, last, items := 0, null, null, [];
    }

    method Put(work: Item<Path>)
      requires Linked() && work !in items && work.next == null
      modifies this, work, items
      ensures Linked() && items == old(items) + [work] && Value() == Queued(old(Value()), work.value)
    {
      if first == null {
        first := work;
        last := work;
      } else {
        last.next := work;
        last := work;
      }
      ValuesAdded(items, work);
      items := items + [work];
      workCount := workCount + 1;
    }

    // The item stays counted until it has been processed.
    method Take() returns (work: Item<Path>)
      requires Linked() && first != null
      modifies this`first, this`last, this`items
      ensures Linked() && old(items) == [work] + items
      ensures old(Value()).queue != [] && work.value == old(Value()).queue[0] && Value() == Taken(old(Value()))
    {
      work := first;
      first := work.next;
      if first == null {
        last := null;
      }
      ValuesTaken(items);
      items := items[1..];
    }

    method FinishOne() returns (last: bool)
      modifies this`workCount
      ensures Value() == Counted(old(Value())) && last == (workCount <= 0)
    {
      workCount := workCount - 1;
      last := workCount <= 0;
    }
  }

  // ----- The threads -----

  // A worker has not passed its first wait, looks for work, has an item of which
  // it has listed some entries, or has returned.
  datatype Worker = Starting | Looking | Busy(work: Path, listed: nat) | Gone

  // A call of crew_start.
  datatype Caller = Calling | Waiting | Returned

  // done and abandoned are the items processed so far, and the directories that
  // could not be opened.
  datatype State = State(shared: Shared, workers: seq<Worker>, callers: seq<Caller>, done: seq<Path>, abandoned: seq<Path>)

  datatype Step = Start(i: nat) | Return(i: nat) | Begin(w: nat) | Take(w: nat) | List(w: nat) | Abandon(w: nat) | Finish(w: nat)

  predicate Enabled(roots: seq<File>, s: State, step: Step) {
    match step
    case Start(i) => i < |s.callers| && s.callers[i].Calling? && s.shared.workCount <= 0
    case Return(i) => i < |s.callers| && s.callers[i].Waiting? && s.shared.workCount <= 0
    case Begin(w) => w < |s.workers| && s.workers[w].Starting? && s.shared.workCount != 0
    case Take(w) => w < |s.workers| && s.workers[w].Looking? && s.shared.queue != []
    case List(w) =>
      w < |s.workers| && s.workers[w].Busy? && Exists(roots, s.workers[w].work) &&
      s.workers[w].listed < |Entries(At(roots, s.workers[w].work))|
    case Abandon(w) =>
      w < |s.workers| && s.workers[w].Busy? && Exists(roots, s.workers[w].work) &&
      var f := At(roots, s.workers[w].work); f.Directory? && !f.opens
    case Finish(w) =>
      w < |s.workers| && s.workers[w].Busy? && Exists(roots, s.workers[w].work) &&
      var f := At(roots, s.workers[w].work); f.Plain? || (f.opens && s.workers[w].listed == |f.entries|)
  }

  function Next(roots: seq<File>, s: State, step: Step): State
    requires Enabled(roots, s, step)
  {
    match step
    case Start(i) => s.(shared := Queued(s.shared, [i]), callers := s.callers[i := Waiting])
    case Return(i) => s.(callers := s.callers[i := Returned])
    case Begin(w) => s.(workers := s.workers[w := Looking])
    case Take(w) => s.(shared := Taken(s.shared), workers := s.workers[w := Busy(s.shared.queue[0], 0)])
    case List(w) =>
      var (p, n) := (s.workers[w].work, s.workers[w].listed);
      s.(shared := Queued(s.shared, p + [n]), workers := s.workers[w := Busy(p, n + 1)])
    case Abandon(w) =>
      // The count is not taken back: the loop goes on before it gets there.
      s.(workers := s.workers[w := Looking], abandoned := s.abandoned + [s.workers[w].work])
    case Finish(w) =>
      var shared := Counted(s.shared);
      s.(shared := shared, done := s.done + [s.workers[w].work],
         workers := s.workers[w := if shared.workCount <= 0 then Gone else Looking])
  }

  predicate Initial(roots: seq<File>, s: State) {
    s.shared == Shared(0, []) && s.done == [] && s.abandoned == [] && |s.callers| == |roots| &&
    (forall w :: 0 <= w < |s.workers| ==> s.workers[w].Starting?) &&
    forall i :: 0 <= i < |s.callers| ==> s.callers[i].Calling?
  }

  ghost predicate IsRun(roots: seq<File>, run: seq<State>, steps: seq<Step>) {
    |run| == |steps| + 1 && Initial(roots, run[0]) &&
    forall i :: 0 <= i < |steps| ==> Enabled(roots, run[i], steps[i]) && run[i + 1] == Next(roots, run[i], steps[i])
  }

  // ----- Every item is in one place -----

  function WorkOf(w: Worker): multiset<Path> {
    if w.Busy? then multiset{w.work} else multiset{}
  }

  function InWork(ws: seq<Worker>): multiset<Path> {
    if ws == [] then multiset{} else WorkOf(ws[0]) + InWork(ws[1..])
  }

  lemma {:induction false} InWorkUpdate(ws: seq<Worker>, i: nat, w: Worker)
    requires i < |ws|
    ensures InWork(ws[i := w]) + WorkOf(ws[i]) == InWork(ws) + WorkOf(w)
    ensures |InWork(ws[i := w])| + |WorkOf(ws[i])| == |InWork(ws)| + |WorkOf(w)|
  {
    hide WorkOf;
    var ws', a := ws[i := w], WorkOf(ws[0]);
    if i == 0 {
      assert ws'[1..] == ws[1..];
      var rest := InWork(ws[1..]);
      assert InWork(ws') == WorkOf(w) + rest && InWork(ws) == a + rest;
    } else {
      assert ws'[1..] == ws[1..][i - 1 := w];
      InWorkUpdate(ws[1..], i - 1, w);
      var x, y := InWork(ws[1..][i - 1 := w]), InWork(ws[1..]);
      assert InWork(ws') == a + x && InWork(ws) == a + y;
      assert (a + x) + WorkOf(ws[i]) == a + (x + WorkOf(ws[i]));
      assert (a + y) + WorkOf(w) == a + (y + WorkOf(w));
    }
  }

  lemma {:induction false} InWorkHas(ws: seq<Worker>, p: Path)
    ensures p in InWork(ws) <==> exists i :: 0 <= i < |ws| && ws[i].Busy? && ws[i].work == p
  {
    if ws != [] {
      InWorkHas(ws[1..], p);
      if i :| 0 <= i < |ws| && ws[i].Busy? && ws[i].work == p {
        assert i > 0 ==> ws[1..][i - 1] == ws[i];
      }
      if i :| 0 <= i < |ws[1..]| && ws[1..][i].Busy? && ws[1..][i].work == p {
        assert ws[i + 1] == ws[1..][i];
      }
    }
  }

  lemma {:induction false} InWorkTwice(ws: seq<Worker>, i: nat, j: nat)
    requires i < j < |ws| && ws[i].Busy? && ws[j].Busy? && ws[i].work == ws[j].work
    ensures InWork(ws)[ws[i].work] >= 2
  {
    if i == 0 {
      InWorkHas(ws[1..], ws[0].work);
      assert ws[1..][j - 1] == ws[j];
    } else {
      InWorkTwice(ws[1..], i - 1, j - 1);
    }
  }

  // All items there are, wherever they are.
  function Items(s: State): multiset<Path> {
    multiset(s.shared.queue) + InWork(s.workers) + multiset(s.done) + multiset(s.abandoned)
  }

  // How many entries of p have been put on the queue.
  ghost predicate Listed(roots: seq<File>, s: State, p: Path, n: nat) {
    Exists(roots, p) &&
    ((p in s.done && n < |Entries(At(roots, p))|) ||
     exists w :: 0 <= w < |s.workers| && s.workers[w].Busy? && s.workers[w].work == p && n < s.workers[w].listed)
  }

  // Items there should be: the starting paths of the calls, and what was listed.
  ghost predicate Due(roots: seq<File>, s: State, p: Path) {
    |p| > 0 &&
    if |p| == 1 then p[0] < |s.callers| && !s.callers[p[0]].Calling?
    else Listed(roots, s, p[..|p| - 1], p[|p| - 1])
  }

  ghost predicate Inv(roots: seq<File>, s: State) {
    |s.callers| == |roots| &&
    s.shared.workCount == |s.shared.queue| + |InWork(s.workers)| + |s.abandoned| &&
    (forall p :: Items(s)[p] == if Due(roots, s, p) then 1 else 0) &&
    (forall p :: p in Items(s) ==> Exists(roots, p)) &&
    (forall p :: p in s.abandoned ==> Exists(roots, p) && Entries(At(roots, p)) == []) &&
    (forall w :: 0 <= w < |s.workers| && s.workers[w].Busy? && Exists(roots, s.workers[w].work) ==>
      s.workers[w].listed <= |Entries(At(roots, s.workers[w].work))|)
  }

  lemma InitialHolds(roots: seq<File>, s: State)
    requires Initial(roots, s)
    ensures Inv(roots, s)
  {
    NoneBusy(s.workers);
  }

  lemma {:induction false} NoneBusy(ws: seq<Worker>)
    requires forall w :: 0 <= w < |ws| ==> !ws[w].Busy?
    ensures InWork(ws) == multiset{}
  {
    if ws != [] { NoneBusy(ws[1..]); }
  }

  // An item a worker has is nowhere else.
  lemma BusyIsAlone(roots: seq<File>, s: State, w: nat)
    requires Inv(roots, s) && w < |s.workers| && s.workers[w].Busy?
    ensures var p := s.workers[w].work;
      Exists(roots, p) && p !in s.done && p !in s.shared.queue && p !in s.abandoned &&
      forall v :: 0 <= v < |s.workers| && s.workers[v].Busy? && s.workers[v].work == p ==> v == w
  {
    var p := s.workers[w].work;
    InWorkHas(s.workers, p);
    assert p in Items(s) && Items(s)[p] == 1;
    forall v | 0 <= v < |s.workers| && s.workers[v].Busy? && s.workers[v].work == p ensures v == w {
      if v < w { InWorkTwice(s.workers, v, w); }
      if w < v { InWorkTwice(s.workers, w, v); }
    }
  }

  lemma FirstAndRest(q: seq<Path>)
    requires q != []
    ensures multiset(q) == multiset{q[0]} + multiset(q[1..])
  {
    assert q == [q[0]] + q[1..];
  }

  // Due looks at the callers, at done and at what the workers have listed.
  lemma SameDue(roots: seq<File>, s: State, s': State)
    requires s'.done == s.done && |s'.callers| == |s.callers| && |s'.workers| == |s.workers|
    requires forall i :: 0 <= i < |s.callers| ==> (s'.callers[i].Calling? <==> s.callers[i].Calling?)
    requires forall w :: 0 <= w < |s.workers| ==>
      s'.workers[w] == s.workers[w] ||
      ((s.workers[w].Busy? ==> s.workers[w].listed == 0) && (s'.workers[w].Busy? ==> s'.workers[w].listed == 0))
    ensures forall p :: Due(roots, s', p) <==> Due(roots, s, p)
  {
    forall p, n: nat ensures Listed(roots, s', p, n) <==> Listed(roots, s, p, n) {}
  }

  // A step that adds the items x, all of them due from now on and existing.
  lemma Keeps(roots: seq<File>, s: State, s': State, x: multiset<Path>)
    requires Inv(roots, s) && |s'.callers| == |roots| && Items(s') == Items(s) + x
    requires s'.shared.workCount == |s'.shared.queue| + |InWork(s'.workers)| + |s'.abandoned|
    requires forall p :: Due(roots, s', p) <==> Due(roots, s, p) || p in x
    requires forall p :: p in x ==> x[p] == 1 && !Due(roots, s, p) && Exists(roots, p)
    requires forall p :: p in s'.abandoned ==> p in s.abandoned || (Exists(roots, p) && Entries(At(roots, p)) == [])
    requires forall w :: 0 <= w < |s'.workers| && s'.workers[w].Busy? && Exists(roots, s'.workers[w].work) ==>
      s'.workers[w].listed <= |Entries(At(roots, s'.workers[w].work))|
    ensures Inv(roots, s')
  {
    hide Items, InWork, Due, Exists;
  }

  // Moving items about: the multisets of one worker's change.
  lemma WorkerChanged(s: State, s': State, w: nat, out: multiset<Path>)
    requires w < |s.workers| == |s'.workers| && s'.workers == s.workers[w := s'.workers[w]]
    requires multiset(s'.shared.queue) + WorkOf(s'.workers[w]) + multiset(s'.done) + multiset(s'.abandoned) ==
      multiset(s.shared.queue) + WorkOf(s.workers[w]) + multiset(s.done) + multiset(s.abandoned) + out
    ensures Items(s') == Items(s) + out
    ensures |InWork(s'.workers)| + |WorkOf(s.workers[w])| == |InWork(s.workers)| + |WorkOf(s'.workers[w])|
  {
    hide InWork, WorkOf;
    InWorkUpdate(s.workers, w, s'.workers[w]);
    Exchange(multiset(s'.shared.queue), InWork(s'.workers), multiset(s'.done), multiset(s'.abandoned), WorkOf(s'.workers[w]),
             multiset(s.shared.queue), InWork(s.workers), multiset(s.done), multiset(s.abandoned), WorkOf(s.workers[w]), out);
  }

  lemma Exchange(q': multiset<Path>, i': multiset<Path>, d': multiset<Path>, a': multiset<Path>, w': multiset<Path>,
                 q: multiset<Path>, i: multiset<Path>, d: multiset<Path>, a: multiset<Path>, w: multiset<Path>, out: multiset<Path>)
    requires i' + w == i + w' && q' + w' + d' + a' == q + w + d + a + out
    ensures q' + i' + d' + a' == q + i + d + a + out
  {
    forall p ensures (q' + i' + d' + a')[p] == (q + i + d + a + out)[p] {
      assert (i' + w)[p] == (i + w')[p];
      assert (q' + w' + d' + a')[p] == (q + w + d + a + out)[p];
    }
  }

  lemma BeginKeeps(roots: seq<File>, s: State, w: nat)
    requires Inv(roots, s) && Enabled(roots, s, Begin(w))
    ensures Inv(roots, Next(roots, s, Begin(w)))
  {
    hide Items, InWork, Due;
    var s' := Next(roots, s, Begin(w));
    WorkerChanged(s, s', w, multiset{});
    SameDue(roots, s, s');
    Keeps(roots, s, s', multiset{});
  }

  lemma TakeKeeps(roots: seq<File>, s: State, w: nat)
    requires Inv(roots, s) && Enabled(roots, s, Take(w))
    ensures Inv(roots, Next(roots, s, Take(w)))
  {
    hide Items, InWork, Due;
    var s' := Next(roots, s, Take(w));
    FirstAndRest(s.shared.queue);
    WorkerChanged(s, s', w, multiset{});
    SameDue(roots, s, s');
    Keeps(roots, s, s', multiset{});
  }

  lemma ReturnKeeps(roots: seq<File>, s: State, i: nat)
    requires Inv(roots, s) && Enabled(roots, s, Return(i))
    ensures Inv(roots, Next(roots, s, Return(i)))
  {
    SameDue(roots, s, Next(roots, s, Return(i)));
  }

  lemma StartKeeps(roots: seq<File>, s: State, i: nat)
    requires Inv(roots, s) && Enabled(roots, s, Start(i))
    ensures Inv(roots, Next(roots, s, Start(i)))
  {
    var s' := Next(roots, s, Start(i));
    assert Items(s') == Items(s) + multiset{[i]};
    forall p, n: nat ensures Listed(roots, s', p, n) <==> Listed(roots, s, p, n) {}
    forall p ensures Due(roots, s', p) <==> Due(roots, s, p) || p == [i] {
      assert |p| == 1 ==> p == [p[0]];
    }
    assert !Due(roots, s, [i]);
  }

  lemma AbandonKeeps(roots: seq<File>, s: State, w: nat)
    requires Inv(roots, s) && Enabled(roots, s, Abandon(w))
    ensures Inv(roots, Next(roots, s, Abandon(w)))
  {
    hide Items, InWork, Due, Exists;
    var s' := Next(roots, s, Abandon(w));
    WorkerChanged(s, s', w, multiset{});
    SameDue(roots, s, s');
    Keeps(roots, s, s', multiset{});
  }

  lemma FinishKeeps(roots: seq<File>, s: State, w: nat)
    requires Inv(roots, s) && Enabled(roots, s, Finish(w))
    ensures Inv(roots, Next(roots, s, Finish(w)))
  {
    hide Items, InWork, Due, Exists, Listed;
    var s' := Next(roots, s, Finish(w));
    WorkerChanged(s, s', w, multiset{});
    FinishDue(roots, s, w);
    Keeps(roots, s, s', multiset{});
  }

  lemma FinishDue(roots: seq<File>, s: State, w: nat)
    requires Inv(roots, s) && Enabled(roots, s, Finish(w))
    ensures forall q :: Due(roots, Next(roots, s, Finish(w)), q) <==> Due(roots, s, q)
  {
    hide Items, InWork, Exists;
    var s', p := Next(roots, s, Finish(w)), s.workers[w].work;
    BusyIsAlone(roots, s, w);
    assert s.workers[w].listed == |Entries(At(roots, p))|;
    forall q, n: nat ensures Listed(roots, s', q, n) <==> Listed(roots, s, q, n) {
      if v :| 0 <= v < |s.workers| && s.workers[v].Busy? && s.workers[v].work == q && n < s.workers[v].listed {
        assert v != w ==> s'.workers[v] == s.workers[v];
      }
    }
  }

  lemma ListKeeps(roots: seq<File>, s: State, w: nat)
    requires Inv(roots, s) && Enabled(roots, s, List(w))
    ensures Inv(roots, Next(roots, s, List(w)))
  {
    hide Items, InWork, Due, Listed;
    var s', p, n := Next(roots, s, List(w)), s.workers[w].work, s.workers[w].listed;
    WorkerChanged(s, s', w, multiset{p + [n]});
    ListDue(roots, s, w);
    assert (p + [n])[..|p|] == p;
    assert Exists(roots, p + [n]);
    Keeps(roots, s, s', multiset{p + [n]});
  }

  lemma ListDue(roots: seq<File>, s: State, w: nat)
    requires Inv(roots, s) && Enabled(roots, s, List(w))
    ensures var (p, n) := (s.workers[w].work, s.workers[w].listed);
      !Due(roots, s, p + [n]) && forall q :: Due(roots, Next(roots, s, List(w)), q) <==> Due(roots, s, q) || q == p + [n]
  {
    hide Items, InWork, Exists;
    var s', p, n := Next(roots, s, List(w)), s.workers[w].work, s.workers[w].listed;
    BusyIsAlone(roots, s, w);
    ExistsLong(roots, p);
    forall q, m: nat ensures Listed(roots, s', q, m) <==> Listed(roots, s, q, m) || (q == p && m == n) {
      if v :| 0 <= v < |s.workers| && s.workers[v].Busy? && s.workers[v].work == q && m < s.workers[v].listed {
        assert s'.workers[v].Busy? && s'.workers[v].work == q && m < s'.workers[v].listed;
      }
      if q == p && m == n { assert s'.workers[w].Busy? && m < s'.workers[w].listed; }
    }
    assert !Listed(roots, s, p, n);
    assert (p + [n])[..|p|] == p;
    forall q ensures Due(roots, s', q) <==> Due(roots, s, q) || q == p + [n] {
      assert |q| > 0 ==> q == q[..|q| - 1] + [q[|q| - 1]];
    }
  }

  lemma ExistsLong(roots: seq<File>, p: Path)
    requires Exists(roots, p)
    ensures |p| > 0
  {
  }

  lemma StepKeeps(roots: seq<File>, s: State, step: Step)
    requires Inv(roots, s) && Enabled(roots, s, step)
    ensures Inv(roots, Next(roots, s, step))
  {
    match step
    case Start(i) => StartKeeps(roots, s, i);
    case Return(i) => ReturnKeeps(roots, s, i);
    case Begin(w) => BeginKeeps(roots, s, w);
    case Take(w) => TakeKeeps(roots, s, w);
    case List(w) => ListKeeps(roots, s, w);
    case Abandon(w) => AbandonKeeps(roots, s, w);
    case Finish(w) => FinishKeeps(roots, s, w);
  }

  lemma {:induction false} RunKeeps(roots: seq<File>, run: seq<State>, steps: seq<Step>, i: nat)
    requires IsRun(roots, run, steps) && i <= |steps|
    ensures Inv(roots, run[i])
  {
    if i == 0 {
      InitialHolds(roots, run[0]);
    } else {
      RunKeeps(roots, run, steps, i - 1);
      StepKeeps(roots, run[i - 1], steps[i - 1]);
    }
  }

  // ----- What crew_start is for -----

  // The count covers the queue and everything in work.
  lemma CountCovers(roots: seq<File>, run: seq<State>, steps: seq<Step>, i: nat)
    requires IsRun(roots, run, steps) && i <= |steps|
    ensures run[i].shared.workCount >= |run[i].shared.queue| + |InWork(run[i].workers)|
    ensures run[i].shared.workCount == 0 <==>
      run[i].shared.queue == [] && run[i].abandoned == [] && forall w :: 0 <= w < |run[i].workers| ==> !run[i].workers[w].Busy?
  {
    RunKeeps(roots, run, steps, i);
    var s := run[i];
    if s.shared.workCount == 0 {
      forall w | 0 <= w < |s.workers| ensures !s.workers[w].Busy? {
        if s.workers[w].Busy? { InWorkHas(s.workers, s.workers[w].work); }
      }
    } else if forall w :: 0 <= w < |s.workers| ==> !s.workers[w].Busy? {
      NoneBusy(s.workers);
    }
  }

  // With nothing outstanding, everything below a starting path is done.
  lemma {:induction false} AllBelowDone(roots: seq<File>, s: State, p: Path)
    requires Inv(roots, s) && s.shared.queue == [] && s.abandoned == [] && InWork(s.workers) == multiset{}
    requires Exists(roots, p) && !s.callers[First(roots, p)].Calling?
    ensures multiset(s.done)[p] == 1
    decreases |p|
  {
    assert Items(s) == multiset(s.done);
    if |p| > 1 {
      var up := p[..|p| - 1];
      AllBelowDone(roots, s, up);
      assert up in s.done;
      assert Listed(roots, s, up, p[|p| - 1]);
    }
    assert Due(roots, s, p);
  }

  function First(roots: seq<File>, p: Path): (i: nat)
    requires Exists(roots, p)
    ensures i < |roots|
    decreases |p|
  {
    if |p| == 1 then p[0] else First(roots, p[..|p| - 1])
  }

  // When a call of crew_start returns, every file below its path has been
  // processed exactly once, and no directory there failed to open.
  lemma StartReturnsWhenDone(roots: seq<File>, run: seq<State>, steps: seq<Step>, i: nat, p: Path)
    requires IsRun(roots, run, steps) && i < |steps| && steps[i].Return?
    requires Exists(roots, p) && p[0] == steps[i].i
    ensures multiset(run[i].done)[p] == 1
    ensures At(roots, p).Directory? ==> At(roots, p).opens
  {
    RunKeeps(roots, run, steps, i);
    CountCovers(roots, run, steps, i);
    NoneBusy(run[i].workers);
    FirstIsHead(roots, p);
    AllBelowDone(roots, run[i], p);
    DoneOpened(roots, run, steps, i, p);
  }

  lemma {:induction false} FirstIsHead(roots: seq<File>, p: Path)
    requires Exists(roots, p)
    ensures First(roots, p) == p[0]
    decreases |p|
  {
    if |p| > 1 { FirstIsHead(roots, p[..|p| - 1]); }
  }

  lemma {:induction false} DoneOpened(roots: seq<File>, run: seq<State>, steps: seq<Step>, i: nat, p: Path)
    requires IsRun(roots, run, steps) && i <= |steps| && p in run[i].done
    ensures Exists(roots, p) && (At(roots, p).Directory? ==> At(roots, p).opens)
  {
    if i > 0 && p in run[i - 1].done {
      DoneOpened(roots, run, steps, i - 1, p);
    } else if i > 0 {
      assert run[i] == Next(roots, run[i - 1], steps[i - 1]);
    }
  }

  // A directory that cannot be opened keeps its count for good: no call returns
  // any more.
  lemma AbandonedNeverReturns(roots: seq<File>, run: seq<State>, steps: seq<Step>, i: nat, j: nat)
    requires IsRun(roots, run, steps) && i <= j < |steps| && run[i].abandoned != []
    ensures !steps[j].Return? && !steps[j].Start?
  {
    RunKeeps(roots, run, steps, j);
    AbandonedStays(roots, run, steps, i, j);
  }

  lemma {:induction false} AbandonedStays(roots: seq<File>, run: seq<State>, steps: seq<Step>, i: nat, j: nat)
    requires IsRun(roots, run, steps) && i <= j <= |steps|
    ensures |run[i].abandoned| <= |run[j].abandoned|
  {
    if i < j {
      AbandonedStays(roots, run, steps, i, j - 1);
      assert run[j] == Next(roots, run[j - 1], steps[j - 1]);
    }
  }
}
