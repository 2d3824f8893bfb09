// Walks along the edges of a list, trails, which use no edge twice, and the cycles they
// close: when a new edge closes one, and what a cycle that needs an edge connects
// without it.
module EdgeWalks {
  datatype Edge = Edge(src: int, dest: int)

  // An edge of the list, taken from src to dest or back.
  datatype Step = Step(edge: nat, forward: bool)

  function From(edges: seq<Edge>, s: Step): int
    requires s.edge < |edges|
  {
    if s.forward then edges[s.edge].src else edges[s.edge].dest
  }

  function To(edges: seq<Edge>, s: Step): int
    requires s.edge < |edges|
  {
    if s.forward then edges[s.edge].dest else edges[s.edge].src
  }

  // The steps follow one another from x on.
  predicate IsWalk(edges: seq<Edge>, w: seq<Step>, x: int) {
    w == [] || (w[0].edge < |edges| && From(edges, w[0]) == x && IsWalk(edges, w[1..], To(edges, w[0])))
  }

  function End(edges: seq<Edge>, w: seq<Step>, x: int): int
    requires IsWalk(edges, w, x)
  {
    if w == [] then x else End(edges, w[1..], To(edges, w[0]))
  }

  // No edge is used twice.
  predicate IsTrail(w: seq<Step>) {
    forall i, j :: 0 <= i < j < |w| ==> w[i].edge != w[j].edge
  }

  predicate Among(w: seq<Step>, n: nat) {
    forall i :: 0 <= i < |w| ==> w[i].edge < n
  }

  // A closed trail of the first n edges.
  ghost predicate IsCycleAt(edges: seq<Edge>, n: nat, w: seq<Step>, x: int) {
    w != [] && IsWalk(edges, w, x) && End(edges, w, x) == x && IsTrail(w) && Among(w, n)
  }

  ghost predicate HasCycle(edges: seq<Edge>, n: nat) {
    exists w, x :: IsCycleAt(edges, n, w, x)
  }

  ghost predicate Joins(edges: seq<Edge>, n: nat, w: seq<Step>, x: int, y: int) {
    IsWalk(edges, w, x) && End(edges, w, x) == y && Among(w, n)
  }

  ghost predicate Connected(edges: seq<Edge>, n: nat, x: int, y: int) {
    exists w :: Joins(edges, n, w, x, y)
  }

  // ----- Walks -----

  lemma {:induction false} WalkSplit(edges: seq<Edge>, a: seq<Step>, b: seq<Step>, x: int)
    ensures IsWalk(edges, a + b, x) <==> IsWalk(edges, a, x) && IsWalk(edges, b, End(edges, a, x))
    ensures IsWalk(edges, a + b, x) ==> End(edges, a + b, x) == End(edges, b, End(edges, a, x))
  {
    if a == [] {
      assert a + b == b;
    } else {
      assert (a + b)[1..] == a[1..] + b && (a + b)[0] == a[0];
      if a[0].edge < |edges| { WalkSplit(edges, a[1..], b, To(edges, a[0])); }
    }
  }

  lemma OneStep(edges: seq<Edge>, s: Step, x: int)
    ensures IsWalk(edges, [s], x) <==> s.edge < |edges| && From(edges, s) == x
    ensures IsWalk(edges, [s], x) ==> End(edges, [s], x) == To(edges, s)
  {
  }

  function Back(w: seq<Step>): seq<Step> {
    if w == [] then [] else Back(w[1..]) + [w[0].(forward := !w[0].forward)]
  }

  lemma {:induction false} WalkBack(edges: seq<Edge>, w: seq<Step>, x: int, n: nat)
    requires IsWalk(edges, w, x) && Among(w, n)
    ensures IsWalk(edges, Back(w), End(edges, w, x)) && End(edges, Back(w), End(edges, w, x)) == x && Among(Back(w), n)
  {
    if w != [] {
      var back := w[0].(forward := !w[0].forward);
      WalkBack(edges, w[1..], To(edges, w[0]), n);
      OneStep(edges, back, To(edges, w[0]));
      WalkSplit(edges, Back(w[1..]), [back], End(edges, w, x));
    }
  }

  lemma ConnectedTrans(edges: seq<Edge>, n: nat, x: int, y: int, z: int)
    requires Connected(edges, n, x, y) && Connected(edges, n, y, z)
    ensures Connected(edges, n, x, z)
  {
    var a :| Joins(edges, n, a, x, y);
    var b :| Joins(edges, n, b, y, z);
    WalkSplit(edges, a, b, x);
    assert Joins(edges, n, a + b, x, z);
  }

  lemma ConnectedSym(edges: seq<Edge>, n: nat, x: int, y: int)
    requires Connected(edges, n, x, y)
    ensures Connected(edges, n, y, x)
  {
    var w :| Joins(edges, n, w, x, y);
    WalkBack(edges, w, x, n);
    assert Joins(edges, n, Back(w), y, x);
  }

  lemma ConnectedMore(edges: seq<Edge>, n: nat, x: int, y: int)
    requires Connected(edges, n, x, y)
    ensures Connected(edges, n + 1, x, y)
  {
    var w :| Joins(edges, n, w, x, y);
    assert Joins(edges, n + 1, w, x, y);
  }

  lemma ConnectedSelf(edges: seq<Edge>, n: nat, x: int)
    ensures Connected(edges, n, x, x)
  {
    assert Joins(edges, n, [], x, x);
  }

  lemma ConnectedEdge(edges: seq<Edge>, n: nat)
    requires n < |edges|
    ensures Connected(edges, n + 1, edges[n].src, edges[n].dest)
  {
    OneStep(edges, Step(n, true), edges[n].src);
    assert Joins(edges, n + 1, [Step(n, true)], edges[n].src, edges[n].dest);
  }

  // Cutting out what lies between two uses of an edge leaves a shorter walk.
  lemma Shortcut(edges: seq<Edge>, n: nat, w: seq<Step>, x: int, y: int, i: int, j: int) returns (v: seq<Step>)
    requires Joins(edges, n, w, x, y) && 0 <= i < j < |w| && w[i].edge == w[j].edge
    ensures Joins(edges, n, v, x, y) && |v| < |w|
  {
    hide IsWalk, End;
    var a, b, c := w[..i], w[i + 1..j], w[j + 1..];
    assert w == a + ([w[i]] + (b + ([w[j]] + c)));
    WalkSplit(edges, a, [w[i]] + (b + ([w[j]] + c)), x);
    var u := End(edges, a, x);
    WalkSplit(edges, [w[i]], b + ([w[j]] + c), u);
    OneStep(edges, w[i], u);
    var u' := To(edges, w[i]);
    WalkSplit(edges, b, [w[j]] + c, u');
    var z := End(edges, b, u');
    WalkSplit(edges, [w[j]], c, z);
    OneStep(edges, w[j], z);
    if w[i].forward == w[j].forward {
      WalkSplit(edges, [w[j]], c, u);
      OneStep(edges, w[j], u);
      WalkSplit(edges, a, [w[j]] + c, x);
      v := a + ([w[j]] + c);
    } else {
      WalkSplit(edges, a, c, x);
      v := a + c;
    }
    assert forall k :: 0 <= k < |v| ==> v[k] in w;
  }

  lemma {:induction false} TrailFromWalk(edges: seq<Edge>, n: nat, w: seq<Step>, x: int, y: int) returns (t: seq<Step>)
    requires Joins(edges, n, w, x, y)
    ensures Joins(edges, n, t, x, y) && IsTrail(t)
    decreases |w|
  {
    if IsTrail(w) {
      t := w;
    } else {
      var i, j :| 0 <= i < j < |w| && w[i].edge == w[j].edge;
      var v := Shortcut(edges, n, w, x, y, i, j);
      t := TrailFromWalk(edges, n, v, x, y);
    }
  }

  // ----- Adding an edge -----

  // An edge between connected vertices closes a cycle.
  lemma EdgeCloses(edges: seq<Edge>, n: nat)
    requires n < |edges| && Connected(edges, n, edges[n].dest, edges[n].src)
    ensures HasCycle(edges, n + 1)
  {
    var w :| Joins(edges, n, w, edges[n].dest, edges[n].src);
    var t := TrailFromWalk(edges, n, w, edges[n].dest, edges[n].src);
    var c := [Step(n, true)] + t;
    WalkSplit(edges, [Step(n, true)], t, edges[n].src);
    OneStep(edges, Step(n, true), edges[n].src);
    assert IsCycleAt(edges, n + 1, c, edges[n].src);
  }

  // A closed walk without its k-th step, begun after it.
  lemma Opened(edges: seq<Edge>, w: seq<Step>, x: int, k: int)
    requires IsWalk(edges, w, x) && End(edges, w, x) == x && 0 <= k < |w|
    ensures w[k].edge < |edges|
    ensures var r, v := w[k + 1..] + w[..k], To(edges, w[k]); IsWalk(edges, r, v) && End(edges, r, v) == From(edges, w[k])
  {
    hide IsWalk, End;
    var a, b := w[..k], w[k + 1..];
    assert w == a + ([w[k]] + b);
    WalkSplit(edges, a, [w[k]] + b, x);
    var u := End(edges, a, x);
    WalkSplit(edges, [w[k]], b, u);
    OneStep(edges, w[k], u);
    WalkSplit(edges, b, a, To(edges, w[k]));
  }

  // A cycle that needs the edge n connects its ends without it.
  lemma CycleConnects(edges: seq<Edge>, n: nat)
    requires n < |edges| && HasCycle(edges, n + 1) && !HasCycle(edges, n)
    ensures Connected(edges, n, edges[n].dest, edges[n].src)
  {
    hide IsWalk, End;
    var w: seq<Step>, x: int :| IsCycleAt(edges, n + 1, w, x);
    assert Among(w, n) ==> IsCycleAt(edges, n, w, x);
    var k :| 0 <= k < |w| && w[k].edge == n;
    Opened(edges, w, x, k);
    var r, u, v := w[k + 1..] + w[..k], From(edges, w[k]), To(edges, w[k]);
    forall i | 0 <= i < |r| ensures r[i].edge < n {
      var j := if i < |w| - k - 1 then k + 1 + i else i - (|w| - k - 1);
      assert r[i] == w[j] && j != k;
      assert w[j].edge != w[k].edge;
    }
    assert Joins(edges, n, r, v, u);
    if !w[k].forward { ConnectedSym(edges, n, v, u); }
  }

  // What the edge n adds to the connections.
  lemma {:induction false} ConnectedLess(edges: seq<Edge>, n: nat, w: seq<Step>, x: int, y: int)
    requires n < |edges| && Joins(edges, n + 1, w, x, y)
    ensures var e := edges[n];
      Connected(edges, n, x, y) ||
      (Connected(edges, n, x, e.src) && Connected(edges, n, e.dest, y)) ||
      (Connected(edges, n, x, e.dest) && Connected(edges, n, e.src, y))
    decreases |w|
  {
    ConnectedSelf(edges, n, x);
    if w != [] {
      var z := To(edges, w[0]);
      ConnectedLess(edges, n, w[1..], z, y);
      if w[0].edge < n {
        OneStep(edges, w[0], x);
        assert Joins(edges, n, [w[0]], x, z);
        forall v | Connected(edges, n, z, v) ensures Connected(edges, n, x, v) { ConnectedTrans(edges, n, x, z, v); }
      } else if Connected(edges, n, z, x) {
        forall v | Connected(edges, n, z, v) ensures Connected(edges, n, x, v) {
          ConnectedSym(edges, n, z, x);
          ConnectedTrans(edges, n, x, z, v);
        }
      }
    }
  }
}
