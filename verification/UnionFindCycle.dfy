// Cycle detection by union-find (FindCycleInGraph.h).
module UnionFindCycle {
  import opened EdgeWalks

  // The parent links lead upwards in rank, and so to a root.
  ghost predicate Ranked(parent: seq<int>, rank: seq<nat>) {
    |rank| == |parent| &&
    forall x :: 0 <= x < |parent| && parent[x] != -1 ==> 0 <= parent[x] < |parent| && rank[x] < rank[parent[x]]
  }

  function {:induction false} Highest(rank: seq<nat>): (m: nat)
    ensures forall x :: 0 <= x < |rank| ==> rank[x] <= m
  {
    if rank == [] then 0
    else
      var m := Highest(rank[1..]);
      assert forall x :: 0 < x < |rank| ==> rank[x] == rank[1..][x - 1];
      if rank[0] > m then rank[0] else m
  }

  function Find(parent: seq<int>, i: int, ghost rank: seq<nat>): (r: int)
    requires Ranked(parent, rank) && 0 <= i < |parent|
    ensures 0 <= r < |parent| && parent[r] == -1
    decreases Highest(rank) - rank[i]
  {
    if parent[i] == -1 then i else Find(parent, parent[i], rank)
  }

  // The root y put above all others.
  ghost function Raised(rank: seq<nat>, y: int): (r: seq<nat>)
    requires 0 <= y < |rank|
    ensures |r| == |rank|
  {
    rank[y := Highest(rank) + 1]
  }

  // Hanging the root x below the root y turns x into y wherever it was found.
  lemma {:induction false} FindAfterUnion(parent: seq<int>, rank: seq<nat>, x: int, y: int, i: int)
    requires Ranked(parent, rank) && 0 <= i < |parent| && 0 <= x < |parent| && 0 <= y < |parent|
    requires parent[x] == -1 && parent[y] == -1 && x != y
    ensures Ranked(parent[x := y], Raised(rank, y))
    ensures Find(parent[x := y], i, Raised(rank, y)) == var r := Find(parent, i, rank); if r == x then y else r
    decreases Highest(rank) - rank[i]
  {
    if parent[i] != -1 { FindAfterUnion(parent, rank, x, y, parent[i]); }
  }

  predicate InRange(edges: seq<Edge>, vertices: nat) {
    forall i :: 0 <= i < |edges| ==> 0 <= edges[i].src < vertices && 0 <= edges[i].dest < vertices
  }

  // After n edges without a cycle: roots tell what these edges connect.
  ghost predicate Inv(edges: seq<Edge>, n: nat, parent: seq<int>, rank: seq<nat>) {
    n <= |edges| && Ranked(parent, rank) && InRange(edges, |parent|) && !HasCycle(edges, n) &&
    forall x, y :: 0 <= x < |parent| && 0 <= y < |parent| ==>
      (Find(parent, x, rank) == Find(parent, y, rank) <==> Connected(edges, n, x, y))
  }

  lemma Starts(edges: seq<Edge>, parent: seq<int>, rank: seq<nat>)
    requires InRange(edges, |parent|) && |rank| == |parent| && forall x :: 0 <= x < |parent| ==> parent[x] == -1
    ensures Inv(edges, 0, parent, rank)
  {
    forall x ensures Connected(edges, 0, x, x) { ConnectedSelf(edges, 0, x); }
  }

  // The edge n joins two components.
  lemma Joined(edges: seq<Edge>, n: nat, parent: seq<int>, rank: seq<nat>)
    requires Inv(edges, n, parent, rank) && n < |edges|
    requires Find(parent, edges[n].src, rank) != Find(parent, edges[n].dest, rank)
    ensures var x, y := Find(parent, edges[n].src, rank), Find(parent, edges[n].dest, rank);
      Inv(edges, n + 1, parent[x := y], Raised(rank, y))
  {
    var e := edges[n];
    var r, r' := Find(parent, e.src, rank), Find(parent, e.dest, rank);
    var parent', rank' := parent[r := r'], Raised(rank, r');
    FindAfterUnion(parent, rank, r, r', e.src);
    if HasCycle(edges, n + 1) {
      CycleConnects(edges, n);
    }
    forall x, y | 0 <= x < |parent| && 0 <= y < |parent|
      ensures Find(parent', x, rank') == Find(parent', y, rank') <==> Connected(edges, n + 1, x, y)
    {
      FindAfterUnion(parent, rank, r, r', x);
      FindAfterUnion(parent, rank, r, r', y);
      if Connected(edges, n + 1, x, y) {
        var w :| Joins(edges, n + 1, w, x, y);
        ConnectedLess(edges, n, w, x, y);
      }
      if Find(parent', x, rank') == Find(parent', y, rank') {
        JoinedConnect(edges, n, parent, rank, x, y);
      }
    }
  }

  lemma JoinedConnect(edges: seq<Edge>, n: nat, parent: seq<int>, rank: seq<nat>, x: int, y: int)
    requires Inv(edges, n, parent, rank) && n < |edges| && 0 <= x < |parent| && 0 <= y < |parent|
    requires var r, r' := Find(parent, edges[n].src, rank), Find(parent, edges[n].dest, rank);
      var rx, ry := Find(parent, x, rank), Find(parent, y, rank);
      rx == ry || (rx == r && ry == r') || (rx == r' && ry == r)
    ensures Connected(edges, n + 1, x, y)
  {
    var e := edges[n];
    var r, rx, ry := Find(parent, e.src, rank), Find(parent, x, rank), Find(parent, y, rank);
    if rx == ry {
      ConnectedMore(edges, n, x, y);
    } else {
      ConnectedEdge(edges, n);
      ConnectedSym(edges, n + 1, e.src, e.dest);
      var (a, b) := if rx == r then (e.src, e.dest) else (e.dest, e.src);
      ConnectedMore(edges, n, x, a);
      ConnectedMore(edges, n, b, y);
      ConnectedTrans(edges, n + 1, x, a, b);
      ConnectedTrans(edges, n + 1, x, b, y);
    }
  }

  // Equal roots: the edge closes a cycle.
  lemma Closed(edges: seq<Edge>, n: nat, parent: seq<int>, rank: seq<nat>)
    requires Inv(edges, n, parent, rank) && n < |edges|
    requires Find(parent, edges[n].src, rank) == Find(parent, edges[n].dest, rank)
    ensures HasCycle(edges, n + 1) && HasCycle(edges, |edges|)
  {
    EdgeCloses(edges, n);
    var w: seq<Step>, x: int :| IsCycleAt(edges, n + 1, w, x);
    assert IsCycleAt(edges, |edges|, w, x);
  }

  // Hangs the root of x below the root of y. If that is the same root, it is its own
  // parent afterwards, and find would not come to an end.
  method Union(parent: array<int>, x: int, y: int, ghost rank: seq<nat>) returns (ghost rank': seq<nat>)
    requires Ranked(parent[..], rank) && 0 <= x < parent.Length && 0 <= y < parent.Length
    modifies parent
    ensures var (r, r') := (Find(old(parent[..]), x, rank), Find(old(parent[..]), y, rank));
      parent[..] == old(parent[..])[r := r'] && rank' == Raised(rank, r') &&
      if r != r' then Ranked(parent[..], rank') else forall other :: !Ranked(parent[..], other)
  {
    var xset := Find(parent[..], x, rank);
    var yset := Find(parent[..], y, rank);
    if xset != yset { FindAfterUnion(parent[..], rank, xset, yset, x); }
    parent[xset] := yset;
    rank' := Raised(rank, yset);
    assert parent[..][xset] == yset;
  }

  // isCycle
  method IsCycle(vertices: nat, edges: seq<Edge>) returns (answer: int)
    requires InRange(edges, vertices)
    ensures answer == if HasCycle(edges, |edges|) then 1 else 0
  {
    var parent := new int[vertices](i => -1);
    ghost var rank: seq<nat> := seq(vertices, i => 0);
    Starts(edges, parent[..], rank);
    for i := 0 to |edges|
      invariant Inv(edges, i, parent[..], rank)
    {
      var x := Find(parent[..], edges[i].src, rank);
      var y := Find(parent[..], edges[i].dest, rank);
      if x == y {
        Closed(edges, i, parent[..], rank);
        return 1;
      }
      Joined(edges, i, parent[..], rank);
      rank := Union(parent, x, y, rank);
    }
    answer := 0;
  }
}
