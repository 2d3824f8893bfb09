// Tarjan's articulation points (articulation.cpp): the arrays of the depth-first
// search as a value, what the search knows at every point of it, and that each of
// its steps keeps this.
module ArticulationPoints {
  import opened Connectivity

  const NIL := -1

  // The arrays of the search, and its clock.
  datatype State = State(visited: seq<bool>, disc: seq<int>, low: seq<int>, parent: seq<int>, ap: seq<bool>, time: int)

  predicate Sized(adj: Lists, s: State) {
    |s.visited| == |s.disc| == |s.low| == |s.parent| == |s.ap| == |adj| && s.time >= 0
  }

  predicate Visited(s: State, x: int) {
    0 <= x < |s.visited| && s.visited[x]
  }

  // The visited vertices form trees along the parent links, with discovery
  // times growing away from the roots.
  ghost predicate Rooted(adj: Lists, s: State) {
    Sized(adj, s) &&
    forall x :: Visited(s, x) ==>
      0 < s.disc[x] <= s.time &&
      (s.parent[x] == NIL || (Visited(s, s.parent[x]) && s.disc[s.parent[x]] < s.disc[x] && x in adj[s.parent[x]]))
  }

  // a is x or an ancestor of x.
  ghost predicate Above(adj: Lists, s: State, a: int, x: int)
    requires Rooted(adj, s) && Visited(s, x)
    decreases s.disc[x]
  {
    x == a || (s.parent[x] != NIL && Above(adj, s, a, s.parent[x]))
  }

  ghost predicate Comparable(adj: Lists, s: State, x: int, y: int)
    requires Rooted(adj, s) && Visited(s, x) && Visited(s, y)
  {
    Above(adj, s, x, y) || Above(adj, s, y, x)
  }

  predicate IsKid(s: State, u: int, c: int)
    requires |s.parent| == |s.visited|
  {
    Visited(s, c) && s.parent[c] == u
  }

  // low[x] is at most what x and its children see.
  ghost predicate LowBound(adj: Lists, s: State, x: int)
    requires Rooted(adj, s) && Visited(s, x)
  {
    s.low[x] <= s.disc[x] &&
    (forall w :: w in adj[x] && w != s.parent[x] && Visited(s, w) ==> s.low[x] <= s.disc[w]) &&
    forall c :: IsKid(s, x, c) ==> s.low[x] <= s.low[c]
  }

  // Below x, the vertex y sees the discovery time d: its own or that of a
  // neighbour other than its parent.
  ghost predicate Sees(adj: Lists, s: State, x: int, y: int, d: int)
    requires Rooted(adj, s)
  {
    Visited(s, y) && Above(adj, s, x, y) &&
    (d == s.disc[y] || exists w :: w in adj[y] && w != s.parent[y] && Visited(s, w) && d == s.disc[w])
  }

  ghost predicate LowHit(adj: Lists, s: State, x: int)
    requires Rooted(adj, s) && Visited(s, x)
  {
    exists y :: Sees(adj, s, x, y, s.low[x])
  }

  ghost predicate TwoKids(s: State, x: int)
    requires |s.parent| == |s.visited|
  {
    exists c, c' :: c != c' && IsKid(s, x, c) && IsKid(s, x, c')
  }

  ghost predicate StuckKid(s: State, x: int)
    requires |s.parent| == |s.visited| == |s.low| == |s.disc| && Visited(s, x)
  {
    exists c :: IsKid(s, x, c) && s.low[c] >= s.disc[x]
  }

  // What the search knows of a vertex it has left.
  ghost predicate Done(adj: Lists, s: State, x: int)
    requires Rooted(adj, s) && Visited(s, x)
  {
    (forall w :: w in adj[x] ==> Visited(s, w) && Comparable(adj, s, x, w)) &&
    LowBound(adj, s, x) && LowHit(adj, s, x) &&
    (s.ap[x] <==> if s.parent[x] == NIL then TwoKids(s, x) else StuckKid(s, x))
  }

  // The search stands at top; it has left every visited vertex but top's ancestors.
  ghost predicate Inv(adj: Lists, s: State, top: int) {
    Rooted(adj, s) && (top == NIL || Visited(s, top)) &&
    forall x :: Visited(s, x) ==> (top != NIL && Above(adj, s, x, top)) || Done(adj, s, x)
  }

  // ----- Ancestors -----

  lemma {:induction false} AboveDisc(adj: Lists, s: State, a: int, x: int)
    requires Rooted(adj, s) && Visited(s, x) && Above(adj, s, a, x)
    ensures Visited(s, a) && s.disc[a] <= s.disc[x] && (a != x ==> s.disc[a] < s.disc[x])
    decreases s.disc[x]
  {
    if x != a { AboveDisc(adj, s, a, s.parent[x]); }
  }

  lemma {:induction false} AboveTrans(adj: Lists, s: State, a: int, b: int, x: int)
    requires Rooted(adj, s) && Visited(s, x) && Above(adj, s, b, x) && Visited(s, b) && Above(adj, s, a, b)
    ensures Above(adj, s, a, x)
    decreases s.disc[x]
  {
    if x != b { AboveTrans(adj, s, a, b, s.parent[x]); }
  }

  // Two ancestors of one vertex are comparable.
  lemma {:induction false} AboveChain(adj: Lists, s: State, a: int, b: int, x: int)
    requires Rooted(adj, s) && Visited(s, x) && Above(adj, s, a, x) && Above(adj, s, b, x)
    ensures Visited(s, a) && Visited(s, b) && Comparable(adj, s, a, b)
    decreases s.disc[x]
  {
    AboveDisc(adj, s, a, x);
    AboveDisc(adj, s, b, x);
    if x != a && x != b { AboveChain(adj, s, a, b, s.parent[x]); }
  }

  // ----- What later steps leave alone -----

  // s' visits more; the links and times of what s visited are the same.
  ghost predicate Grown(s: State, s': State) {
    |s'.visited| == |s.visited| == |s.disc| == |s'.disc| == |s.parent| == |s'.parent| &&
    forall x :: Visited(s, x) ==> s'.visited[x] && s'.disc[x] == s.disc[x] && s'.parent[x] == s.parent[x]
  }

  lemma {:induction false} AboveKept(adj: Lists, s: State, s': State, a: int, x: int)
    requires Rooted(adj, s) && Rooted(adj, s') && Grown(s, s') && Visited(s, x)
    ensures Above(adj, s', a, x) <==> Above(adj, s, a, x)
    decreases s.disc[x]
  {
    if x != a && s.parent[x] != NIL { AboveKept(adj, s, s', a, s.parent[x]); }
  }

  // x itself, its low and ap, its children and their low are as before.
  ghost predicate SameAt(s: State, s': State, x: int)
    requires Visited(s, x) && Visited(s', x)
    requires |s.parent| == |s.visited| == |s.low| == |s.ap| && |s'.parent| == |s'.visited| == |s'.low| == |s'.ap|
  {
    s'.low[x] == s.low[x] && s'.ap[x] == s.ap[x] &&
    forall c :: (IsKid(s', x, c) <==> IsKid(s, x, c)) && (IsKid(s, x, c) ==> s'.low[c] == s.low[c])
  }

  lemma DoneKept(adj: Lists, s: State, s': State, x: int)
    requires Undirected(adj) && Rooted(adj, s) && Rooted(adj, s') && Grown(s, s') && Visited(s, x) && Done(adj, s, x)
    requires SameAt(s, s', x)
    ensures Done(adj, s', x)
  {
    forall w | w in adj[x] ensures Visited(s', w) && Comparable(adj, s', x, w) {
      AboveKept(adj, s, s', x, w);
      AboveKept(adj, s, s', w, x);
    }
    var y :| Sees(adj, s, x, y, s.low[x]);
    AboveKept(adj, s, s', x, y);
    assert Sees(adj, s', x, y, s'.low[x]);
    if TwoKids(s, x) {
      var c, c' :| c != c' && IsKid(s, x, c) && IsKid(s, x, c');
      assert IsKid(s', x, c) && IsKid(s', x, c');
    }
    if TwoKids(s', x) {
      var c, c' :| c != c' && IsKid(s', x, c) && IsKid(s', x, c');
      assert IsKid(s, x, c) && IsKid(s, x, c');
    }
    if StuckKid(s, x) {
      var c :| IsKid(s, x, c) && s.low[c] >= s.disc[x];
      assert IsKid(s', x, c);
    }
    if StuckKid(s', x) {
      var c :| IsKid(s', x, c) && s'.low[c] >= s'.disc[x];
      assert IsKid(s, x, c);
    }
  }

  // ----- At the top: what is known of the vertex being searched -----

  function Kids(s: State, u: int): set<int>
    requires |s.parent| == |s.visited|
  {
    set c | 0 <= c < |s.visited| && IsKid(s, u, c)
  }

  // The first i neighbours of u have been looked at.
  ghost predicate Partial(adj: Lists, s: State, u: int, i: int, children: int)
    requires Rooted(adj, s) && Visited(s, u) && 0 <= i <= |adj[u]|
  {
    (forall j :: 0 <= j < i ==> Visited(s, adj[u][j]) && Comparable(adj, s, u, adj[u][j])) &&
    s.low[u] <= s.disc[u] &&
    (forall j :: 0 <= j < i && adj[u][j] != s.parent[u] ==> s.low[u] <= s.disc[adj[u][j]]) &&
    (forall c :: IsKid(s, u, c) ==> s.low[u] <= s.low[c]) &&
    LowHit(adj, s, u) && children == |Kids(s, u)| &&
    (s.ap[u] <==> if s.parent[u] == NIL then children > 1 else StuckKid(s, u))
  }

  // A vertex is no child of its own, and no child of what it is above.
  lemma KidBelow(adj: Lists, s: State, u: int, c: int)
    requires Rooted(adj, s) && Visited(s, u) && IsKid(s, u, c)
    ensures s.disc[u] < s.disc[c] && !Above(adj, s, c, u)
  {
    if Above(adj, s, c, u) { AboveDisc(adj, s, c, u); }
  }

  function Entered(s: State, u: int): State
    requires 0 <= u < |s.visited| == |s.disc| == |s.low|
  {
    s.(visited := s.visited[u := true], time := s.time + 1, disc := s.disc[u := s.time + 1], low := s.low[u := s.time + 1])
  }

  lemma Enter(adj: Lists, s: State, u: int)
    requires Undirected(adj) && Sized(adj, s) && IsVertex(adj, u) && !s.visited[u] && !s.ap[u]
    requires Inv(adj, s, s.parent[u]) && (s.parent[u] != NIL ==> u in adj[s.parent[u]])
    ensures var s' := Entered(s, u); Inv(adj, s', u) && Partial(adj, s', u, 0, 0) && Grown(s, s')
  {
    var s', top := Entered(s, u), s.parent[u];
    assert Grown(s, s') && Rooted(adj, s');
    forall x | Visited(s', x) ensures Above(adj, s', x, u) || Done(adj, s', x) {
      if x != u {
        if top != NIL && Above(adj, s, x, top) {
          AboveKept(adj, s, s', x, top);
        } else {
          assert x != top;
          assert SameAt(s, s', x);
          DoneKept(adj, s, s', x);
        }
      }
    }
    assert Kids(s', u) == {};
    assert Sees(adj, s', u, u, s'.low[u]);
  }

  // Only u's low and ap have changed.
  ghost predicate OnlyTop(s: State, s': State, u: int) {
    Visited(s, u) && u < |s.low| && u < |s.ap| && u < |s'.low| && u < |s'.ap| &&
    s' == s.(low := s.low[u := s'.low[u]], ap := s.ap[u := s'.ap[u]])
  }

  lemma TopChanges(adj: Lists, s: State, s': State, u: int)
    requires Undirected(adj) && Inv(adj, s, u) && u != NIL && OnlyTop(s, s', u)
    ensures Inv(adj, s', u) && Grown(s, s')
  {
    hide Done;
    assert Grown(s, s') && Rooted(adj, s');
    forall x | Visited(s', x) ensures Above(adj, s', x, u) || Done(adj, s', x) {
      AboveKept(adj, s, s', x, u);
      if !Above(adj, s, x, u) {
        assert !IsKid(s, x, u);
        assert SameAt(s, s', x);
        DoneKept(adj, s, s', x);
      }
    }
  }

  // A visited neighbour of u is an ancestor of u, or the search has left it.
  lemma NeighbourComparable(adj: Lists, s: State, u: int, w: int)
    requires Undirected(adj) && Inv(adj, s, u) && IsVertex(adj, u) && Visited(s, u) && w in adj[u] && Visited(s, w)
    ensures Comparable(adj, s, u, w)
  {
    if !Above(adj, s, w, u) { assert Done(adj, s, w) && u in adj[w]; }
  }

  lemma LowHitKept(adj: Lists, s: State, s': State, u: int)
    requires Rooted(adj, s) && Rooted(adj, s') && Grown(s, s') && Visited(s, u) && LowHit(adj, s, u)
    ensures s'.low[u] == s.low[u] ==> LowHit(adj, s', u)
  {
    var y :| Sees(adj, s, u, y, s.low[u]);
    AboveKept(adj, s, s', u, y);
    assert s'.low[u] == s.low[u] ==> Sees(adj, s', u, y, s'.low[u]);
  }

  // A neighbour that was visited before.
  lemma SeeVisited(adj: Lists, s: State, u: int, i: int, children: int)
    requires Undirected(adj) && Inv(adj, s, u) && IsVertex(adj, u) && Visited(s, u)
    requires 0 <= i < |adj[u]| && Partial(adj, s, u, i, children) && Visited(s, adj[u][i])
    ensures var v := adj[u][i];
      var s' := if v == s.parent[u] then s else s.(low := s.low[u := Min(s.low[u], s.disc[v])]);
      Inv(adj, s', u) && Partial(adj, s', u, i + 1, children) && Grown(s, s')
  {
    hide Above, Done, LowHit, Sees, Kids, StuckKid;
    var v := adj[u][i];
    var s' := if v == s.parent[u] then s else s.(low := s.low[u := Min(s.low[u], s.disc[v])]);
    assert OnlyTop(s, s', u);
    TopChanges(adj, s, s', u);
    forall j | 0 <= j < i + 1 ensures Visited(s', adj[u][j]) && Comparable(adj, s', u, adj[u][j]) {
      NeighbourComparable(adj, s', u, adj[u][j]);
    }
    LowHitKept(adj, s, s', u);
    if s'.low[u] != s.low[u] { SeesDirectly(adj, s', u, v); }
    SameKids(adj, s, s', u);
  }

  lemma SeesDirectly(adj: Lists, s: State, u: int, v: int)
    requires Rooted(adj, s) && IsVertex(adj, u) && Visited(s, u) && Visited(s, v) && v in adj[u] && v != s.parent[u]
    requires s.low[u] == s.disc[v]
    ensures LowHit(adj, s, u)
  {
    assert Sees(adj, s, u, u, s.low[u]);
  }

  function Min(a: int, b: int): int {
    if a < b then a else b
  }

  lemma SameKids(adj: Lists, s: State, s': State, u: int)
    requires Rooted(adj, s) && Visited(s, u) && OnlyTop(s, s', u)
    ensures Kids(s', u) == Kids(s, u) && (StuckKid(s', u) <==> StuckKid(s, u)) && !IsKid(s, u, u)
    ensures forall c :: IsKid(s', u, c) <==> IsKid(s, u, c)
  {
    assert forall c :: IsKid(s', u, c) <==> IsKid(s, u, c);
    if StuckKid(s, u) {
      var c :| IsKid(s, u, c) && s.low[c] >= s.disc[u];
      assert IsKid(s', u, c) && s'.low[c] >= s'.disc[u];
    }
  }

  // ----- The recursive call -----

  // Vertices not reached yet, but for u, have no parent and no mark.
  predicate Clean(s: State, u: int)
    requires |s.visited| == |s.parent| == |s.ap|
  {
    forall x :: 0 <= x < |s.visited| && !s.visited[x] && x != u ==> s.parent[x] == NIL && !s.ap[x]
  }

  ghost predicate CanEnter(adj: Lists, s: State, u: int) {
    Sized(adj, s) && IsVertex(adj, u) && !s.visited[u] && !s.ap[u] && Inv(adj, s, s.parent[u]) &&
    (s.parent[u] != NIL ==> u in adj[s.parent[u]]) && Clean(s, u)
  }

  // From s to s' the search has only gone on below u.
  ghost predicate Below(adj: Lists, s: State, u: int, s': State) {
    Sized(adj, s) && Rooted(adj, s') && Grown(s, s') && Visited(s', u) && s'.parent[u] == s.parent[u] && Clean(s', u) &&
    forall x :: Visited(s', x) ==>
      if s.visited[x] then s'.low[x] == s.low[x] && s'.ap[x] == s.ap[x] else Above(adj, s', u, x)
  }

  // What the search from u does.
  ghost predicate Explored(adj: Lists, s: State, u: int, s': State) {
    Below(adj, s, u, s') && Inv(adj, s', s.parent[u])
  }

  function Adopted(s: State, v: int, u: int): State
    requires 0 <= v < |s.parent|
  {
    s.(parent := s.parent[v := u])
  }

  lemma Descend(adj: Lists, s: State, u: int, i: int, children: int)
    requires Undirected(adj) && Inv(adj, s, u) && IsVertex(adj, u) && Visited(s, u) && Clean(s, u)
    requires 0 <= i < |adj[u]| && Partial(adj, s, u, i, children) && IsVertex(adj, adj[u][i]) && !Visited(s, adj[u][i])
    ensures var s' := Adopted(s, adj[u][i], u);
      CanEnter(adj, s', adj[u][i]) && Partial(adj, s', u, i, children) && Grown(s, s')
  {
    hide Done, LowHit, Above;
    var s' := Adopted(s, adj[u][i], u);
    assert Grown(s, s') && Rooted(adj, s');
    forall x | Visited(s', x) ensures Above(adj, s', x, u) || Done(adj, s', x) {
      AboveKept(adj, s, s', x, u);
      if !Above(adj, s, x, u) {
        assert SameAt(s, s', x);
        DoneKept(adj, s, s', x);
      }
    }
    forall j | 0 <= j < i ensures Comparable(adj, s', u, adj[u][j]) {
      NeighbourComparable(adj, s', u, adj[u][j]);
    }
    LowHitKept(adj, s, s', u);
    SameFamily(s, s', u);
  }

  lemma SameFamily(s: State, s': State, u: int)
    requires |s.parent| == |s.visited| == |s.low| == |s.disc| && |s'.parent| == |s'.visited| == |s'.low| == |s'.disc|
    requires Visited(s, u) && Visited(s', u) && |s.visited| == |s'.visited| && s.disc[u] == s'.disc[u]
    requires forall c :: IsKid(s', u, c) <==> IsKid(s, u, c)
    requires forall c :: IsKid(s, u, c) ==> s'.low[c] == s.low[c]
    ensures Kids(s', u) == Kids(s, u) && (StuckKid(s', u) <==> StuckKid(s, u))
  {
    if StuckKid(s, u) {
      var c :| IsKid(s, u, c) && s.low[c] >= s.disc[u];
      assert IsKid(s', u, c) && s'.low[c] >= s'.disc[u];
    }
  }

  // u after the search from its new child v.
  function Returned(s: State, u: int, v: int, children: int): State
    requires Visited(s, u) && Visited(s, v) && |s.visited| == |s.low| == |s.disc| == |s.parent| == |s.ap|
  {
    var mark := s.ap[u] || (s.parent[u] == NIL && children > 1) || (s.parent[u] != NIL && s.low[v] >= s.disc[u]);
    s.(low := s.low[u := Min(s.low[u], s.low[v])], ap := s.ap[u := mark])
  }

  // The new vertices' parents are new, or it is v below u.
  lemma NewKids(adj: Lists, s: State, u: int, v: int, s': State)
    requires Undirected(adj) && Rooted(adj, s) && Visited(s, u) && IsVertex(adj, v) && s.parent[v] == u && !s.visited[v]
    requires Below(adj, s, v, s')
    ensures IsKid(s', u, v) && forall c :: IsKid(s', u, c) <==> IsKid(s, u, c) || c == v
    ensures v !in Kids(s, u) && Kids(s', u) == Kids(s, u) + {v}
  {
    forall c ensures IsKid(s', u, c) <==> IsKid(s, u, c) || c == v {
      if IsKid(s', u, c) && !Visited(s, c) && c != v {
        assert Above(adj, s', v, c) && Above(adj, s', v, u);
        AboveDisc(adj, s', v, u);
      }
    }
  }

  // v has been left, and its low speaks for a vertex below u.
  lemma ChildDone(adj: Lists, s: State, u: int, v: int)
    requires Rooted(adj, s) && Visited(s, u) && Inv(adj, s, u) && u != NIL && IsKid(s, u, v)
    ensures Done(adj, s, v) && Above(adj, s, u, v)
    ensures exists y :: Sees(adj, s, u, y, s.low[v])
  {
    KidBelow(adj, s, u, v);
    assert Above(adj, s, u, u);
    assert Done(adj, s, v);
    var y :| Sees(adj, s, v, y, s.low[v]);
    AboveTrans(adj, s, u, v, y);
    assert Sees(adj, s, u, y, s.low[v]);
  }

  // What the recursive call left of u and of the vertices before it.
  lemma ExploredAt(adj: Lists, s: State, u: int, v: int, s': State)
    requires Undirected(adj) && Rooted(adj, s) && Visited(s, u) && IsVertex(adj, v) && !s.visited[v] && s.parent[v] == u
    requires u != NIL && Explored(adj, s, v, s')
    ensures Rooted(adj, s') && Inv(adj, s', u) && Grown(s, s') && Visited(s', u) && Visited(s', v) && IsKid(s', u, v)
    ensures forall x :: Visited(s, x) ==> s'.low[x] == s.low[x] && s'.ap[x] == s.ap[x]
    ensures forall c :: IsKid(s', u, c) <==> IsKid(s, u, c) || c == v
    ensures v !in Kids(s, u) && Kids(s', u) == Kids(s, u) + {v}
    ensures LowBound(adj, s', v) && s'.disc[u] < s'.disc[v]
  {
    hide Done, Above;
    NewKids(adj, s, u, v, s');
    ChildDone(adj, s', u, v);
    DoneLow(adj, s', v);
    KidBelow(adj, s', u, v);
  }

  lemma Return(adj: Lists, s: State, u: int, i: int, children: int, s': State)
    requires Undirected(adj) && Rooted(adj, s) && IsVertex(adj, u) && Visited(s, u)
    requires 0 <= i < |adj[u]| && Partial(adj, s, u, i, children)
    requires var v := adj[u][i]; IsVertex(adj, v) && !s.visited[v] && s.parent[v] == u && Explored(adj, s, v, s')
    ensures var s'' := Returned(s', u, adj[u][i], children + 1);
      Inv(adj, s'', u) && Partial(adj, s'', u, i + 1, children + 1) && Grown(s', s'')
  {
    hide Done, LowHit, Above, Sees, Explored, Below, Kids, StuckKid, LowBound;
    var v := adj[u][i];
    ExploredAt(adj, s, u, v, s');
    var s'' := Returned(s', u, v, children + 1);
    assert OnlyTop(s', s'', u);
    TopChanges(adj, s', s'', u);
    forall j | 0 <= j < i + 1 ensures Visited(s'', adj[u][j]) && Comparable(adj, s'', u, adj[u][j]) {
      NeighbourComparable(adj, s'', u, adj[u][j]);
    }
    ReturnHit(adj, s, s', s'', u, v);
    ReturnLow(adj, s, u, i, children, s');
    ReturnMark(adj, s, u, v, children, s');
  }

  lemma ReturnHit(adj: Lists, s: State, s': State, s'': State, u: int, v: int)
    requires Rooted(adj, s) && Inv(adj, s', u) && u != NIL && IsKid(s', u, v) && Visited(s, u) && LowHit(adj, s, u)
    requires Rooted(adj, s') && Rooted(adj, s'') && Grown(s, s') && Grown(s', s'')
    requires s'.low[u] == s.low[u] && s''.low[u] == Min(s'.low[u], s'.low[v])
    ensures LowHit(adj, s'', u)
  {
    hide Done, Above, Inv;
    if s''.low[u] == s.low[u] {
      LowHitKept(adj, s, s'', u);
    } else {
      ChildSees(adj, s', u, v);
      var y :| Sees(adj, s', u, y, s'.low[v]);
      AboveKept(adj, s', s'', u, y);
      assert Sees(adj, s'', u, y, s''.low[u]);
    }
  }

  lemma ChildSees(adj: Lists, s: State, u: int, v: int)
    requires Inv(adj, s, u) && u != NIL && IsKid(s, u, v)
    ensures Rooted(adj, s) && exists y :: Sees(adj, s, u, y, s.low[v])
  {
    ChildDone(adj, s, u, v);
  }

  lemma ReturnLow(adj: Lists, s: State, u: int, i: int, children: int, s': State)
    requires Undirected(adj) && Rooted(adj, s) && IsVertex(adj, u) && Visited(s, u)
    requires 0 <= i < |adj[u]| && Partial(adj, s, u, i, children)
    requires var v := adj[u][i]; IsVertex(adj, v) && !s.visited[v] && s.parent[v] == u && Explored(adj, s, v, s')
    ensures var s'' := Returned(s', u, adj[u][i], children + 1);
      s''.low[u] <= s''.disc[u] &&
      (forall j :: 0 <= j < i + 1 && adj[u][j] != s''.parent[u] ==> s''.low[u] <= s''.disc[adj[u][j]]) &&
      (forall c :: IsKid(s'', u, c) ==> s''.low[u] <= s''.low[c])
  {
    hide Done, Above, LowHit, Explored, Below, Inv, Comparable, Kids, StuckKid;
    var v := adj[u][i];
    ExploredAt(adj, s, u, v, s');
    var s'' := Returned(s', u, v, children + 1);
    forall c | IsKid(s'', u, c) ensures s''.low[u] <= s''.low[c] {
      assert IsKid(s', u, c) && c != u;
    }
  }

  lemma ReturnMark(adj: Lists, s: State, u: int, v: int, children: int, s': State)
    requires Undirected(adj) && Rooted(adj, s) && IsVertex(adj, u) && Visited(s, u) && children == |Kids(s, u)|
    requires IsVertex(adj, v) && !s.visited[v] && s.parent[v] == u && Explored(adj, s, v, s')
    requires s.ap[u] <==> if s.parent[u] == NIL then children > 1 else StuckKid(s, u)
    ensures var s'' := Returned(s', u, v, children + 1);
      Sized(adj, s'') && Visited(s'', u) && children + 1 == |Kids(s'', u)| &&
      (s''.ap[u] <==> if s''.parent[u] == NIL then children + 1 > 1 else StuckKid(s'', u))
  {
    hide Done, Above, LowHit, Explored, Below, Inv, StuckKid;
    ExploredAt(adj, s, u, v, s');
    var s'' := Returned(s', u, v, children + 1);
    assert OnlyTop(s', s'', u);
    SameKids(adj, s', s'', u);
    StuckAfter(s, s', u, v);
  }

  lemma DoneLow(adj: Lists, s: State, x: int)
    requires Rooted(adj, s) && Visited(s, x) && Done(adj, s, x)
    ensures LowBound(adj, s, x)
  {
  }

  lemma StuckAfter(s: State, s': State, u: int, v: int)
    requires |s.parent| == |s.visited| == |s.low| == |s.disc| && |s'.parent| == |s'.visited| == |s'.low| == |s'.disc|
    requires Visited(s, u) && Visited(s', u) && s.disc[u] == s'.disc[u]
    requires |s.visited| == |s'.visited| && 0 <= v < |s.visited|
    requires forall c :: IsKid(s', u, c) <==> IsKid(s, u, c) || c == v
    requires forall c :: IsKid(s, u, c) ==> s'.low[c] == s.low[c]
    ensures StuckKid(s', u) <==> StuckKid(s, u) || s'.low[v] >= s'.disc[u]
  {
    if StuckKid(s, u) {
      var c :| IsKid(s, u, c) && s.low[c] >= s.disc[u];
      assert IsKid(s', u, c) && s'.low[c] >= s'.disc[u];
    }
    assert IsKid(s', u, v);
  }

  // The search has looked at all neighbours and leaves u.
  lemma Leave(adj: Lists, s: State, u: int, children: int)
    requires Inv(adj, s, u) && IsVertex(adj, u) && Visited(s, u) && Partial(adj, s, u, |adj[u]|, children)
    ensures Done(adj, s, u) && Inv(adj, s, s.parent[u])
  {
    hide LowHit, StuckKid;
    KidsCounted(s, u);
    assert forall w :: w in adj[u] ==> exists j :: 0 <= j < |adj[u]| && adj[u][j] == w;
    assert Done(adj, s, u);
  }

  lemma KidsCounted(s: State, u: int)
    requires |s.parent| == |s.visited|
    ensures |Kids(s, u)| > 1 <==> TwoKids(s, u)
  {
    if TwoKids(s, u) {
      var c, c' :| c != c' && IsKid(s, u, c) && IsKid(s, u, c');
      SmallerSet({c, c'}, Kids(s, u));
    }
    if |Kids(s, u)| > 1 {
      var c :| c in Kids(s, u);
      var rest := Kids(s, u) - {c};
      assert |rest| > 0;
      var c' :| c' in rest;
      assert c != c' && IsKid(s, u, c) && IsKid(s, u, c');
    }
  }

  lemma SmallerSet(a: set<int>, b: set<int>)
    requires a <= b
    ensures |a| <= |b|
  {
    assert b == a + (b - a) && a !! (b - a);
  }

  // ----- What the search leaves alone, step by step -----

  lemma BelowEnter(adj: Lists, s: State, u: int)
    requires Undirected(adj) && CanEnter(adj, s, u)
    ensures Below(adj, s, u, Entered(s, u))
  {
    Enter(adj, s, u);
  }

  lemma BelowTop(adj: Lists, s: State, u: int, s': State, s'': State)
    requires Below(adj, s, u, s') && !Visited(s, u) && OnlyTop(s', s'', u)
    ensures Below(adj, s, u, s'')
  {
    forall x | Visited(s'', x) && !s.visited[x] ensures Rooted(adj, s'') && Above(adj, s'', u, x) {
      AboveKept(adj, s', s'', u, x);
    }
  }

  lemma BelowReturn(adj: Lists, s: State, u: int, s': State, v: int, s'': State)
    requires Below(adj, s, u, s') && IsVertex(adj, u) && !Visited(s, u) && IsVertex(adj, v) && !Visited(s', v)
    requires Below(adj, Adopted(s', v, u), v, s'')
    ensures Below(adj, s, u, s'')
  {
    hide Rooted;
    var t := Adopted(s', v, u);
    assert Grown(s', t) && Grown(s', s'');
    RootedSized(adj, s');
    RootedSized(adj, s'');
    RootedAdopted(adj, s', v, u);
    forall x | Visited(s'', x) && !s.visited[x] ensures Above(adj, s'', u, x) {
      if Visited(s', x) {
        AboveKept(adj, s', s'', u, x);
      } else {
        assert Above(adj, s'', v, x) && s''.parent[v] == u;
        AboveParent(adj, s'', v);
        AboveTrans(adj, s'', u, v, x);
      }
    }
  }

  lemma RootedSized(adj: Lists, s: State)
    requires Rooted(adj, s)
    ensures Sized(adj, s)
  {
  }

  lemma RootedAdopted(adj: Lists, s: State, v: int, u: int)
    requires Rooted(adj, s) && IsVertex(adj, v) && !Visited(s, v)
    ensures Rooted(adj, Adopted(s, v, u))
  {
  }

  lemma AboveParent(adj: Lists, s: State, v: int)
    requires Rooted(adj, s) && Visited(s, v) && s.parent[v] != NIL
    ensures Visited(s, s.parent[v]) && Above(adj, s, s.parent[v], v)
  {
  }
}
