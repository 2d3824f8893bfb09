// What the finished search of ArticulationPoints says about the graph: a vertex
// is marked exactly if it is a cut vertex.
module CutVertices {
  import opened Connectivity
  import opened ArticulationPoints

  ghost predicate AllDone(adj: Lists, s: State) {
    Rooted(adj, s) && forall x :: IsVertex(adj, x) ==> Visited(s, x) && Done(adj, s, x)
  }

  // ----- A mark separates -----

  ghost function Subtree(adj: Lists, s: State, v: int): set<int>
    requires Rooted(adj, s)
    ensures forall x :: x in Subtree(adj, s, v) <==> Visited(s, x) && Above(adj, s, v, x)
  {
    set x | 0 <= x < |adj| && Visited(s, x) && Above(adj, s, v, x)
  }

  // low grows downwards.
  lemma {:induction false} LowChain(adj: Lists, s: State, v: int, x: int)
    requires AllDone(adj, s) && Visited(s, x) && Above(adj, s, v, x)
    ensures Visited(s, v) && s.low[v] <= s.low[x]
    decreases s.disc[x]
  {
    if x != v {
      LowChain(adj, s, v, s.parent[x]);
      assert IsKid(s, s.parent[x], x);
      DoneLow(adj, s, s.parent[x]);
    }
  }

  // Edges leave the subtree of a stuck child of u, or of a child of a root u,
  // only to u.
  lemma LeavesOnlyTo(adj: Lists, s: State, u: int, v: int, x: int, w: int)
    requires Undirected(adj) && AllDone(adj, s) && Visited(s, u) && IsKid(s, u, v)
    requires s.parent[u] == NIL || s.low[v] >= s.disc[u]
    requires Visited(s, x) && Above(adj, s, v, x) && w in adj[x]
    ensures Visited(s, w) && (Above(adj, s, v, w) || w == u)
  {
    assert Done(adj, s, x) && Comparable(adj, s, x, w);
    if !Above(adj, s, v, w) {
      if Above(adj, s, x, w) {
        AboveTrans(adj, s, v, x, w);
      } else {
        AboveChain(adj, s, v, w, x);
        assert Above(adj, s, w, v) && w != v;
        AboveDisc(adj, s, w, u);
        if w != u {
          DoneLow(adj, s, x);
          LowChain(adj, s, v, x);
        }
      }
    }
  }

  lemma Separated(adj: Lists, s: State, u: int, v: int, y: int)
    requires Undirected(adj) && AllDone(adj, s) && Visited(s, u) && IsKid(s, u, v)
    requires s.parent[u] == NIL || s.low[v] >= s.disc[u]
    requires Visited(s, y) && !Above(adj, s, v, y)
    ensures !LinkedWithout(adj, u, v, y)
  {
    if LinkedWithout(adj, u, v, y) {
      var p :| Connects(adj, p, u, v, y);
      var S := Subtree(adj, s, v);
      forall x, w | x in S && IsVertex(adj, x) && w in adj[x] ensures w in S || w == u {
        LeavesOnlyTo(adj, s, u, v, x, w);
      }
      assert Above(adj, s, v, v) && v in S;
      Enclosed(adj, u, S, p, v, y);
    }
  }

  // The children and the parent of u are linked through u.
  lemma LinkedThrough(adj: Lists, s: State, u: int, v: int, y: int)
    requires Undirected(adj) && Rooted(adj, s) && Visited(s, u) && IsKid(s, u, v)
    requires IsKid(s, u, y) || (y == s.parent[u] && y != NIL)
    ensures Linked(adj, v, y) && v != u && y != u
  {
    assert v in adj[u] && IsVertex(adj, v);
    LinkedEdge(adj, -1, v, u);
    LinkedEdge(adj, -1, u, y);
    LinkedTrans(adj, -1, v, u, y);
    KidBelow(adj, s, u, v);
    if IsKid(s, u, y) { KidBelow(adj, s, u, y); }
  }

  lemma MarkedIsCut(adj: Lists, s: State, u: int)
    requires Undirected(adj) && AllDone(adj, s) && IsVertex(adj, u) && s.ap[u]
    ensures IsCutVertex(adj, u)
  {
    assert Done(adj, s, u);
    if s.parent[u] == NIL {
      var c, c' :| c != c' && IsKid(s, u, c) && IsKid(s, u, c');
      KidBelow(adj, s, u, c);
      Separated(adj, s, u, c, c');
      LinkedThrough(adj, s, u, c, c');
    } else {
      var v :| IsKid(s, u, v) && s.low[v] >= s.disc[u];
      var p := s.parent[u];
      KidBelow(adj, s, u, v);
      if Above(adj, s, v, p) { AboveDisc(adj, s, v, p); }
      Separated(adj, s, u, v, p);
      LinkedThrough(adj, s, u, v, p);
    }
  }

  // ----- Without a mark nothing is separated -----

  ghost function TreeRoot(adj: Lists, s: State, x: int): int
    requires Rooted(adj, s) && Visited(s, x)
    decreases s.disc[x]
  {
    if s.parent[x] == NIL then x else TreeRoot(adj, s, s.parent[x])
  }

  lemma {:induction false} RootAbove(adj: Lists, s: State, x: int)
    requires Rooted(adj, s) && Visited(s, x)
    ensures var r := TreeRoot(adj, s, x); Visited(s, r) && Above(adj, s, r, x) && s.parent[r] == NIL
    decreases s.disc[x]
  {
    if s.parent[x] != NIL { RootAbove(adj, s, s.parent[x]); }
  }

  lemma {:induction false} AboveSameRoot(adj: Lists, s: State, a: int, x: int)
    requires Rooted(adj, s) && Visited(s, x) && Above(adj, s, a, x)
    ensures Visited(s, a) && TreeRoot(adj, s, a) == TreeRoot(adj, s, x)
    decreases s.disc[x]
  {
    if x != a { AboveSameRoot(adj, s, a, s.parent[x]); }
  }

  lemma {:induction false} PathSameRoot(adj: Lists, s: State, p: seq<int>)
    requires AllDone(adj, s) && Path(adj, p)
    ensures Visited(s, p[0]) && Visited(s, p[|p| - 1]) && TreeRoot(adj, s, p[0]) == TreeRoot(adj, s, p[|p| - 1])
    decreases |p|
  {
    assert Visited(s, p[0]);
    if |p| > 1 {
      var q := p[1..];
      forall i | 0 <= i < |q| - 1 ensures q[i + 1] in adj[q[i]] {
        assert p[i + 1 + 1] in adj[p[i + 1]];
      }
      PathSameRoot(adj, s, q);
      assert p[0 + 1] in adj[p[0]];
      assert Done(adj, s, p[0]) && Comparable(adj, s, p[0], p[1]);
      if Above(adj, s, p[0], p[1]) { AboveSameRoot(adj, s, p[0], p[1]); } else { AboveSameRoot(adj, s, p[1], p[0]); }
    }
  }

  // From below v up to v, past a vertex u that is above v.
  lemma {:induction false} LinkedUp(adj: Lists, s: State, u: int, v: int, z: int)
    requires Undirected(adj) && Rooted(adj, s) && Visited(s, u) && Visited(s, v) && s.disc[u] < s.disc[v]
    requires Visited(s, z) && Above(adj, s, v, z)
    ensures LinkedWithout(adj, u, z, v)
    decreases s.disc[z]
  {
    AboveDisc(adj, s, v, z);
    if z == v {
      LinkedSelf(adj, u, v);
    } else {
      var p := s.parent[z];
      LinkedUp(adj, s, u, v, p);
      AboveDisc(adj, s, v, p);
      LinkedEdge(adj, u, z, p);
      LinkedTrans(adj, u, z, p, v);
    }
  }

  // From outside u's subtree up to the root.
  lemma {:induction false} LinkedOut(adj: Lists, s: State, u: int, z: int)
    requires Undirected(adj) && Rooted(adj, s) && Visited(s, z) && !Above(adj, s, u, z)
    ensures LinkedWithout(adj, u, z, TreeRoot(adj, s, z))
    decreases s.disc[z]
  {
    if s.parent[z] == NIL {
      LinkedSelf(adj, u, z);
    } else {
      var p := s.parent[z];
      LinkedOut(adj, s, u, p);
      assert Above(adj, s, p, p) && p != u;
      LinkedEdge(adj, u, z, p);
      LinkedTrans(adj, u, z, p, TreeRoot(adj, s, p));
    }
  }

  lemma {:induction false} KidToward(adj: Lists, s: State, u: int, z: int) returns (v: int)
    requires Rooted(adj, s) && Visited(s, z) && Above(adj, s, u, z) && z != u
    ensures IsKid(s, u, v) && Above(adj, s, v, z)
    decreases s.disc[z]
  {
    if s.parent[z] == u {
      v := z;
    } else {
      v := KidToward(adj, s, u, s.parent[z]);
    }
  }

  // A child v of u that is not stuck has a way around u to the root.
  lemma KidEscapes(adj: Lists, s: State, u: int, v: int)
    requires Undirected(adj) && AllDone(adj, s) && Visited(s, u) && IsKid(s, u, v) && s.low[v] < s.disc[u]
    ensures LinkedWithout(adj, u, v, TreeRoot(adj, s, u))
  {
    KidBelow(adj, s, u, v);
    assert Done(adj, s, v);
    var y :| Sees(adj, s, v, y, s.low[v]);
    AboveDisc(adj, s, v, y);
    var w :| w in adj[y] && w != s.parent[y] && Visited(s, w) && s.low[v] == s.disc[w];
    assert Done(adj, s, y) && Comparable(adj, s, y, w);
    if Above(adj, s, y, w) { AboveDisc(adj, s, y, w); }
    if Above(adj, s, u, w) { AboveDisc(adj, s, u, w); }
    LinkedUp(adj, s, u, v, y);
    LinkedSym(adj, u, y, v);
    LinkedEdge(adj, u, y, w);
    LinkedTrans(adj, u, v, y, w);
    LinkedOut(adj, s, u, w);
    LinkedTrans(adj, u, v, w, TreeRoot(adj, s, w));
    AboveSameRoot(adj, s, w, y);
    AboveSameRoot(adj, s, v, y);
    AboveSameRoot(adj, s, u, v);
  }

  lemma ToRoot(adj: Lists, s: State, u: int, z: int)
    requires Undirected(adj) && AllDone(adj, s) && Visited(s, u) && s.parent[u] != NIL && !s.ap[u]
    requires Visited(s, z) && z != u && TreeRoot(adj, s, z) == TreeRoot(adj, s, u)
    ensures LinkedWithout(adj, u, z, TreeRoot(adj, s, u))
  {
    if Above(adj, s, u, z) {
      var v := KidToward(adj, s, u, z);
      assert Done(adj, s, u) && s.low[v] < s.disc[u];
      KidBelow(adj, s, u, v);
      KidEscapes(adj, s, u, v);
      LinkedUp(adj, s, u, v, z);
      LinkedTrans(adj, u, z, v, TreeRoot(adj, s, u));
    } else {
      LinkedOut(adj, s, u, z);
    }
  }

  lemma UnmarkedLinks(adj: Lists, s: State, u: int, x: int, y: int)
    requires Undirected(adj) && AllDone(adj, s) && IsVertex(adj, u) && !s.ap[u]
    requires x != u && y != u && Linked(adj, x, y)
    ensures LinkedWithout(adj, u, x, y)
  {
    var p :| Connects(adj, p, -1, x, y);
    PathSameRoot(adj, s, p);
    var r := TreeRoot(adj, s, x);
    if r != TreeRoot(adj, s, u) {
      OutsideTree(adj, s, u, x);
      OutsideTree(adj, s, u, y);
      LinkedSym(adj, u, y, r);
      LinkedTrans(adj, u, x, r, y);
    } else if s.parent[u] == NIL {
      RootAbove(adj, s, x);
      RootAbove(adj, s, y);
      var v := KidToward(adj, s, u, x);
      var v' := KidToward(adj, s, u, y);
      assert Done(adj, s, u) && v == v';
      KidBelow(adj, s, u, v);
      LinkedUp(adj, s, u, v, x);
      LinkedUp(adj, s, u, v, y);
      LinkedSym(adj, u, y, v);
      LinkedTrans(adj, u, x, v, y);
    } else {
      ToRoot(adj, s, u, x);
      ToRoot(adj, s, u, y);
      LinkedSym(adj, u, y, r);
      LinkedTrans(adj, u, x, r, y);
    }
  }

  lemma OutsideTree(adj: Lists, s: State, u: int, z: int)
    requires Undirected(adj) && Rooted(adj, s) && Visited(s, u) && Visited(s, z)
    requires TreeRoot(adj, s, z) != TreeRoot(adj, s, u)
    ensures LinkedWithout(adj, u, z, TreeRoot(adj, s, z))
  {
    if Above(adj, s, u, z) { AboveSameRoot(adj, s, u, z); }
    LinkedOut(adj, s, u, z);
  }

  // The marks are the cut vertices.
  lemma MarksAreCutVertices(adj: Lists, s: State, u: int)
    requires Undirected(adj) && AllDone(adj, s) && IsVertex(adj, u)
    ensures s.ap[u] <==> IsCutVertex(adj, u)
  {
    if s.ap[u] {
      MarkedIsCut(adj, s, u);
    } else {
      forall x, y | x != u && y != u && Linked(adj, x, y) ensures LinkedWithout(adj, u, x, y) {
        UnmarkedLinks(adj, s, u, x, y);
      }
    }
  }
}
