// Graph (articulation.cpp): addEdge, and the search of APUtil and AP on the arrays
// AP allocates, with the conclusion that the vertices printed are the cut vertices
// of the graph.
module GraphSearch {
  import opened Connectivity
  import opened ArticulationPoints
  import opened CutVertices

  // The arrays allocated by AP and passed down to APUtil.
  datatype Arrays = Arrays(visited: array<bool>, disc: array<int>, low: array<int>, parent: array<int>, ap: array<bool>)
  {
    ghost function Objects(): set<object> {
      {visited, disc, low, parent, ap}
    }

    ghost predicate Apart(n: int) {
      visited.Length == disc.Length == low.Length == parent.Length == ap.Length == n &&
      visited != ap && disc != low && disc != parent && low != parent
    }

    ghost function At(time: int): State
      reads Objects()
    {
      State(visited[..], disc[..], low[..], parent[..], ap[..], time)
    }
  }

  // The vertices not reached yet.
  function Unreached(s: State): set<int> {
    set x | 0 <= x < |s.visited| && !s.visited[x]
  }

  lemma FewerUnreached(s: State, s': State, u: int)
    requires Grown(s, s') && 0 <= u < |s.visited| && !s.visited[u] && s'.visited[u]
    ensures |Unreached(s')| < |Unreached(s)|
  {
    SmallerSet(Unreached(s'), Unreached(s) - {u});
  }

  // Inside APUtil: the search started at s and has come to s', looking at the
  // i-th neighbour of u.
  ghost predicate Standing(adj: Lists, s: State, u: int, i: int, children: int, s': State) {
    Undirected(adj) && CanEnter(adj, s, u) && Below(adj, s, u, s') && Inv(adj, s', u) &&
    0 <= i <= |adj[u]| && Partial(adj, s', u, i, children)
  }

  lemma StandAtEntry(adj: Lists, s: State, u: int)
    requires Undirected(adj) && CanEnter(adj, s, u)
    ensures 0 <= u < |adj| && Sized(adj, s) && Standing(adj, s, u, 0, 0, Entered(s, u))
  {
    hide Done, LowHit, Above, Partial;
    Enter(adj, s, u);
    BelowEnter(adj, s, u);
  }

  lemma StandSeesVertex(adj: Lists, s: State, u: int, i: int, children: int, s': State)
    requires Standing(adj, s, u, i, children, s') && 0 <= u < |adj| && 0 <= i < |adj[u]|
    ensures IsVertex(adj, adj[u][i]) && Sized(adj, s') && Visited(s', u)
  {
    hide Done, LowHit, Above, Partial, Inv;
    assert adj[u][i] in adj[u];
  }

  lemma StandCalls(adj: Lists, s: State, u: int, i: int, children: int, s': State)
    requires Standing(adj, s, u, i, children, s') && 0 <= u < |adj| && 0 <= i < |adj[u]|
    requires IsVertex(adj, adj[u][i]) && Sized(adj, s') && !s'.visited[adj[u][i]]
    ensures var t := Adopted(s', adj[u][i], u);
      CanEnter(adj, t, adj[u][i]) && |Unreached(t)| < |Unreached(s)|
  {
    hide Done, LowHit, Above, Partial, Inv, Unreached;
    Descend(adj, s', u, i, children);
    FewerUnreached(s, Adopted(s', adj[u][i], u), u);
  }

  lemma StandReturns(adj: Lists, s: State, u: int, i: int, children: int, s': State, s'': State)
    requires Standing(adj, s, u, i, children, s') && 0 <= u < |adj| && 0 <= i < |adj[u]|
    requires IsVertex(adj, adj[u][i]) && Sized(adj, s') && !s'.visited[adj[u][i]]
    requires Explored(adj, Adopted(s', adj[u][i], u), adj[u][i], s'')
    ensures Sized(adj, s'') && Visited(s'', u) && Visited(s'', adj[u][i])
    ensures Standing(adj, s, u, i + 1, children + 1, Returned(s'', u, adj[u][i], children + 1))
  {
    hide Done, LowHit, Above, Partial, Inv;
    var v := adj[u][i];
    Descend(adj, s', u, i, children);
    Return(adj, Adopted(s', v, u), u, i, children, s'');
    BelowReturn(adj, s, u, s', v, s'');
    BelowTop(adj, s, u, s'', Returned(s'', u, v, children + 1));
  }

  lemma StandPasses(adj: Lists, s: State, u: int, i: int, children: int, s': State)
    requires Standing(adj, s, u, i, children, s') && 0 <= u < |adj| && 0 <= i < |adj[u]|
    requires IsVertex(adj, adj[u][i]) && Sized(adj, s') && s'.visited[adj[u][i]]
    ensures var v := adj[u][i];
      var s'' := if v == s'.parent[u] then s' else s'.(low := s'.low[u := Min(s'.low[u], s'.disc[v])]);
      Standing(adj, s, u, i + 1, children, s'')
  {
    hide Done, LowHit, Above, Partial, Inv;
    var v := adj[u][i];
    SeeVisited(adj, s', u, i, children);
    if v != s'.parent[u] {
      BelowTop(adj, s, u, s', s'.(low := s'.low[u := Min(s'.low[u], s'.disc[v])]));
    }
  }

  lemma StandLeaves(adj: Lists, s: State, u: int, children: int, s': State)
    requires 0 <= u < |adj| && Standing(adj, s, u, |adj[u]|, children, s')
    ensures Explored(adj, s, u, s')
  {
    hide Done, LowHit, Above, Partial, Inv;
    Leave(adj, s', u, children);
  }

  // Between the searches: everything reached has been left, the first i vertices among it.
  ghost predicate Searching(adj: Lists, s: State, i: int) {
    Sized(adj, s) && Inv(adj, s, NIL) && Clean(s, NIL) && forall j :: 0 <= j < i && j < |adj| ==> s.visited[j]
  }

  lemma SearchStarts(adj: Lists, s: State)
    requires Sized(adj, s) && forall j :: 0 <= j < |adj| ==> s.parent[j] == NIL && !s.visited[j] && !s.ap[j]
    ensures Searching(adj, s, 0)
  {
  }

  lemma SearchGoesOn(adj: Lists, s: State, i: int)
    requires Searching(adj, s, i) && 0 <= i < |adj| && 0 <= i < |s.visited| && !s.visited[i]
    ensures CanEnter(adj, s, i) && s.parent[i] == NIL
  {
  }

  lemma SearchWentOn(adj: Lists, s: State, i: int, s': State)
    requires Searching(adj, s, i) && 0 <= i < |adj| && s.parent[i] == NIL && Explored(adj, s, i, s')
    ensures Searching(adj, s', i + 1)
  {
  }

  lemma SearchPasses(adj: Lists, s: State, i: int)
    requires Searching(adj, s, i) && 0 <= i < |s.visited| && s.visited[i]
    ensures Searching(adj, s, i + 1)
  {
  }

  lemma SearchEnds(adj: Lists, s: State)
    requires Searching(adj, s, |adj|)
    ensures AllDone(adj, s)
  {
  }

  class Graph {
    const V: nat
    var adj: seq<seq<int>>
    // The static variable of APUtil.
    var time: int

    ghost predicate Valid()
      reads this
    {
      |adj| == V && Undirected(adj) && time >= 0
    }

    constructor (V: nat)
      ensures Valid() && this.V == V && forall v :: 0 <= v < V ==> adj[v] == []
    {
      this.V := V;
      adj := seq(V, i => []);
      time := 0;
    }

    method AddEdge(v: int, w: int)
      requires Valid() && 0 <= v < V && 0 <= w < V
      modifies this`adj
      ensures Valid()
      ensures forall x :: 0 <= x < V ==>
        adj[x] == old(adj)[x] + (if x == v then [w] else []) + (if x == w then [v] else [])
    {
      adj := adj[v := adj[v] + [w]];
      adj := adj[w := adj[w] + [v]];
      assert forall x, y :: 0 <= x < V ==>
        (y in adj[x] <==> y in old(adj)[x] || (x == v && y == w) || (x == w && y == v));
      forall x, y | IsVertex(adj, x) && y in adj[x] ensures IsVertex(adj, y) && x in adj[y] {
        assert y in old(adj)[x] ==> IsVertex(old(adj), y) && x in old(adj)[y];
      }
    }

    // The search from u, which has its parent already.
    method APUtil(u: int, a: Arrays)
      requires Valid() && a.Apart(V) && CanEnter(adj, a.At(time), u)
      modifies this`time, a.Objects()
      ensures Valid() && Explored(adj, old(a.At(time)), u, a.At(time))
      decreases |Unreached(a.At(time))|
    {
      hide Standing, Explored, CanEnter, Undirected;
      ghost var s := a.At(time);
      StandAtEntry(adj, s, u);
      var children := 0;
      a.visited[u] := true;
      time := time + 1;
      a.low[u] := time;
      a.disc[u] := time;
      assert a.At(time) == Entered(s, u);
      for i := 0 to |adj[u]|
        invariant Valid() && Standing(adj, s, u, i, children, a.At(time))
      {
        var v := adj[u][i];
        ghost var s1 := a.At(time);
        StandSeesVertex(adj, s, u, i, children, s1);
        if !a.visited[v] {
          children := children + 1;
          a.parent[v] := u;
          assert a.At(time) == Adopted(s1, v, u);
          StandCalls(adj, s, u, i, children - 1, s1);
          APUtil(v, a);
          ghost var s3 := a.At(time);
          StandReturns(adj, s, u, i, children - 1, s1, s3);
          a.low[u] := Min(a.low[u], a.low[v]);
          if a.parent[u] == NIL && children > 1 {
            a.ap[u] := true;
          }
          if a.parent[u] != NIL && a.low[v] >= a.disc[u] {
            a.ap[u] := true;
          }
          assert a.At(time) == Returned(s3, u, v, children);
        } else {
          StandPasses(adj, s, u, i, children, s1);
          if v != a.parent[u] {
            a.low[u] := Min(a.low[u], a.disc[v]);
            assert a.At(time) == s1.(low := s1.low[u := Min(s1.low[u], s1.disc[v])]);
          }
        }
      }
      StandLeaves(adj, s, u, children, a.At(time));
    }

    // A search from every vertex that is not reached yet.
    method Search(a: Arrays)
      requires Valid() && a.Apart(V)
      requires forall j :: 0 <= j < V ==> a.parent[j] == NIL && !a.visited[j] && !a.ap[j]
      modifies this`time, a.Objects()
      ensures Valid() && AllDone(adj, a.At(time))
    {
      hide Searching, Undirected, Explored, CanEnter, AllDone;
      SearchStarts(adj, a.At(time));
      for i := 0 to V
        invariant Valid() && Searching(adj, a.At(time), i)
      {
        if a.visited[i] == false {
          SearchGoesOn(adj, a.At(time), i);
          ghost var s := a.At(time);
          APUtil(i, a);
          SearchWentOn(adj, s, i, a.At(time));
        } else {
          SearchPasses(adj, a.At(time), i);
        }
      }
      SearchEnds(adj, a.At(time));
    }

    // The vertices that are printed are the cut vertices, in ascending order.
    method AP() returns (points: seq<int>)
      requires Valid()
      modifies this`time
      ensures forall u :: u in points <==> 0 <= u < V && IsCutVertex(adj, u)
      ensures forall i, j :: 0 <= i < j < |points| ==> points[i] < points[j]
    {
      hide IsCutVertex, Undirected, AllDone;
      var visited := new bool[V];
      var disc := new int[V];
      var low := new int[V];
      var parent := new int[V];
      var ap := new bool[V];
      for i := 0 to V
        invariant Valid() && forall j :: 0 <= j < i ==> parent[j] == NIL && !visited[j] && !ap[j]
      {
        parent[i] := NIL;
        visited[i] := false;
        ap[i] := false;
      }
      var a := Arrays(visited, disc, low, parent, ap);
      Search(a);
      ghost var s := a.At(time);
      points := [];
      for i := 0 to V
        invariant Valid() && s.ap == ap[..]
        invariant forall u :: u in points <==> 0 <= u < i && ap[u]
        invariant forall j :: 0 <= j < |points| ==> points[j] < i
        invariant forall j, k :: 0 <= j < k < |points| ==> points[j] < points[k]
      {
        if ap[i] == true {
          points := points + [i];
        }
      }
      forall u | 0 <= u < V ensures ap[u] <==> IsCutVertex(adj, u) {
        MarksAreCutVertices(adj, s, u);
      }
    }
  }
}
