// Undirected graphs as adjacency lists: paths that avoid a vertex, what it means that
// two vertices are connected around it, and that it is a cut vertex, which parts what
// was connected.
module Connectivity {
  // The adjacency lists of an undirected graph, self-loops and parallel edges included.
  type Lists = seq<seq<int>>

  predicate IsVertex(adj: Lists, v: int) {
    0 <= v < |adj|
  }

  ghost predicate Undirected(adj: Lists) {
    forall v, w :: IsVertex(adj, v) && w in adj[v] ==> IsVertex(adj, w) && v in adj[w]
  }

  ghost predicate Path(adj: Lists, p: seq<int>) {
    |p| > 0 && (forall i :: 0 <= i < |p| ==> IsVertex(adj, p[i])) &&
    forall i :: 0 <= i < |p| - 1 ==> p[i + 1] in adj[p[i]]
  }

  // A path from x to y that does not go through u.
  ghost predicate Connects(adj: Lists, p: seq<int>, u: int, x: int, y: int) {
    Path(adj, p) && p[0] == x && p[|p| - 1] == y && u !in p
  }

  ghost predicate LinkedWithout(adj: Lists, u: int, x: int, y: int) {
    exists p :: Connects(adj, p, u, x, y)
  }

  ghost predicate Linked(adj: Lists, x: int, y: int) {
    LinkedWithout(adj, -1, x, y)
  }

  // Without u, two other vertices that were linked are no longer.
  ghost predicate IsCutVertex(adj: Lists, u: int) {
    exists x, y :: x != u && y != u && Linked(adj, x, y) && !LinkedWithout(adj, u, x, y)
  }

  lemma LinkedSelf(adj: Lists, u: int, x: int)
    requires IsVertex(adj, x) && x != u
    ensures LinkedWithout(adj, u, x, x)
  {
    assert Connects(adj, [x], u, x, x);
  }

  lemma LinkedEdge(adj: Lists, u: int, x: int, y: int)
    requires IsVertex(adj, x) && IsVertex(adj, y) && y in adj[x] && x != u && y != u
    ensures LinkedWithout(adj, u, x, y)
  {
    assert Connects(adj, [x, y], u, x, y);
  }

  lemma LinkedTrans(adj: Lists, u: int, x: int, y: int, z: int)
    requires LinkedWithout(adj, u, x, y) && LinkedWithout(adj, u, y, z)
    ensures LinkedWithout(adj, u, x, z)
  {
    var p :| Connects(adj, p, u, x, y);
    var q :| Connects(adj, q, u, y, z);
    var r := p + q[1..];
    forall i | 0 <= i < |r| - 1 ensures r[i + 1] in adj[r[i]] {
      assert i >= |p| - 1 ==> r[i] == q[i - |p| + 1] && r[i + 1] == q[i - |p| + 2];
    }
    assert r[|r| - 1] == z;
    assert Connects(adj, r, u, x, z);
  }

  lemma LinkedSym(adj: Lists, u: int, x: int, y: int)
    requires Undirected(adj) && LinkedWithout(adj, u, x, y)
    ensures LinkedWithout(adj, u, y, x)
  {
    var p :| Connects(adj, p, u, x, y);
    var r := seq(|p|, i requires 0 <= i < |p| => p[|p| - 1 - i]);
    assert forall v :: v in r ==> v in p;
    forall i | 0 <= i < |r| - 1 ensures r[i + 1] in adj[r[i]] {
      var j := |p| - 2 - i;
      assert p[j + 1] in adj[p[j]] && p[j] in adj[p[j + 1]];
    }
    assert Connects(adj, r, u, y, x);
  }

  // A set that no edge leaves but to u cannot be left without u.
  lemma {:induction false} Enclosed(adj: Lists, u: int, S: set<int>, p: seq<int>, x: int, y: int)
    requires Connects(adj, p, u, x, y) && x in S
    requires forall v, w :: v in S && IsVertex(adj, v) && w in adj[v] ==> w in S || w == u
    ensures y in S
    decreases |p|
  {
    if |p| > 1 {
      assert p[0 + 1] in adj[p[0]] && p[1] in p;
      var q := p[1..];
      forall i | 0 <= i < |q| - 1 ensures q[i + 1] in adj[q[i]] {
        assert p[i + 1 + 1] in adj[p[i + 1]];
      }
      assert Connects(adj, q, u, p[1], y);
      Enclosed(adj, u, S, q, p[1], y);
    }
  }
}
