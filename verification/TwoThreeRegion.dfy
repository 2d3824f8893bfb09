// A parent p, a hole below it and a neighbour d of the hole, as pieces of one
// region of the tree: what moving d's outer subtree to the hole makes of them, and
// that nothing else changes.
module TwoThreeRegion {
  import opened TwoThreeNode
  import opened TwoThreeShape
  import opened TwoThreeRotation

  // The hole with a key and a subtree to the right, or to the left, of its child.
  function FilledRight(h: Tree, sep: int, b: Tree): Tree
    requires IsHole(h)
  {
    Two(h.n, h.l, sep, b)
  }

  function FilledLeft(h: Tree, b: Tree, sep: int): Tree
    requires IsHole(h)
  {
    Two(h.n, b, sep, h.l)
  }

  // A three node without its first, or its last, key and subtree.
  function ButFirst(d: Tree): Tree
    requires IsThree(d)
  {
    Two(d.n, d.m, d.keys.k2, d.r)
  }

  function ButLast(d: Tree): Tree
    requires IsThree(d)
  {
    Two(d.n, d.l, d.keys.k1, d.m)
  }

  // The hole h under q; its right child link does not matter.
  ghost predicate Gap(h: Tree, q: CNode, s: Store) {
    IsHole(h) && h.n in s && s[h.n].parent == q && !s[h.n].body.bigSet &&
    s[h.n].body.children.left == Root(h.l) && s[h.n].body.children.middle == null && Rep(h.l, h.n, s)
  }

  ghost predicate Avoids(t: Tree, X: set<CNode>) {
    forall x :: x in X ==> Count(t, x) == 0
  }

  function RootSet(t: Tree): set<CNode> {
    if t.Nil? then {} else {t.n}
  }

  predicate RootOnce(t: Tree) {
    t.Nil? || Count(t, t.n) == 1
  }

  lemma RootCounts(t: Tree)
    ensures !t.Nil? ==> Count(t, t.n) > 0
  {
  }

  lemma KeptOutside(t: Tree, q: CNode?, s: Store, s': Store, X: set<CNode>)
    requires Rep(t, q, s) && Avoids(t, X)
    requires s'.Keys == s.Keys && forall x :: x in s && x !in X ==> s'[x] == s[x]
    ensures Rep(t, q, s')
  {
    Kept(t, q, s, s');
  }

  // A subtree whose root alone has moved, to another parent.
  lemma MovedOutside(t: Tree, q: CNode?, s: Store, q': CNode?, s': Store, X: set<CNode>)
    requires Rep(t, q, s) && Avoids(t, X) && RootOnce(t)
    requires s'.Keys == s.Keys && forall x :: x in s && x !in X && x != Root(t) ==> s'[x] == s[x]
    requires t.Nil? || s'[t.n] == s[t.n].(parent := q')
    ensures Rep(t, q', s')
  {
    if !t.Nil? {
      Kept(t.l, t.n, s, s');
      Kept(t.m, t.n, s, s');
      Kept(t.r, t.n, s, s');
    }
  }

  // How often n occurs in the parent, the hole and the neighbour together.
  function Pieces(p: CNode, h: Tree, d: Tree, n: CNode): nat {
    One(p, n) + Count(h, n) + Count(d, n)
  }

  // The three nodes and the subtrees of h and d have nothing in common.
  ghost predicate Apart(p: CNode, h: Tree, d: Tree)
    requires IsHole(h) && d.Node?
  {
    var X := {p, h.n, d.n};
    p != h.n && p != d.n && h.n != d.n &&
    Avoids(h.l, X + RootSet(d.l) + RootSet(d.r)) && Avoids(d.m, X + RootSet(d.l) + RootSet(d.r)) &&
    Avoids(d.l, X + RootSet(d.r) + RootSet(h.l)) && Avoids(d.r, X + RootSet(d.l) + RootSet(h.l)) &&
    RootOnce(d.l) && RootOnce(d.r) && RootOnce(h.l)
  }

  lemma ApartNodes(p: CNode, h: Tree, d: Tree)
    requires IsHole(h) && d.Node? && Apart(p, h, d)
    ensures p != h.n && p != d.n && h.n != d.n
  {
  }

  // The same, one level further down.
  function Parts(p: CNode, h: Tree, d: Tree, n: CNode): nat
    requires IsHole(h) && d.Node?
  {
    One(p, n) + One(h.n, n) + Count(h.l, n) + One(d.n, n) + Count(d.l, n) + Count(d.m, n) + Count(d.r, n)
  }

  lemma PiecesAreParts(p: CNode, h: Tree, d: Tree, n: CNode)
    requires IsHole(h) && d.Node?
    ensures Pieces(p, h, d, n) == Parts(p, h, d, n)
  {
    assert Count(h, n) == One(h.n, n) + Count(h.l, n) + Count(h.m, n) + Count(h.r, n);
  }

  lemma OnlyOnce(S: set<CNode>, p: CNode, h: Tree, d: Tree)
    requires IsHole(h) && d.Node? && p in S && h.n in S && d.n in S
    requires IsIn(Root(h.l), S) && IsIn(Root(d.l), S) && IsIn(Root(d.r), S)
    requires forall n :: n in S ==> Pieces(p, h, d, n) <= 1
    ensures Apart(p, h, d)
  {
    hide Count, Pieces;
    forall n | n in S
      ensures Parts(p, h, d, n) <= 1
    {
      PiecesAreParts(p, h, d, n);
    }
    NodesOnce(S, p, h, d);
    RootsOnce(S, p, h, d);
  }

  lemma NodesOnce(S: set<CNode>, p: CNode, h: Tree, d: Tree)
    requires IsHole(h) && d.Node? && p in S && h.n in S && d.n in S
    requires forall n :: n in S ==> Parts(p, h, d, n) <= 1
    ensures var X := {p, h.n, d.n};
      p != h.n && p != d.n && h.n != d.n && Avoids(h.l, X) && Avoids(d.l, X) && Avoids(d.m, X) && Avoids(d.r, X)
  {
    hide Count;
    assert Parts(p, h, d, p) <= 1 && Parts(p, h, d, h.n) <= 1 && Parts(p, h, d, d.n) <= 1;
  }

  lemma RootsOnce(S: set<CNode>, p: CNode, h: Tree, d: Tree)
    requires IsHole(h) && d.Node?
    requires IsIn(Root(h.l), S) && IsIn(Root(d.l), S) && IsIn(Root(d.r), S)
    requires forall n :: n in S ==> Parts(p, h, d, n) <= 1
    ensures Avoids(h.l, RootSet(d.l) + RootSet(d.r)) && Avoids(d.m, RootSet(d.l) + RootSet(d.r))
    ensures Avoids(d.l, RootSet(d.r) + RootSet(h.l)) && Avoids(d.r, RootSet(d.l) + RootSet(h.l))
    ensures RootOnce(d.l) && RootOnce(d.r) && RootOnce(h.l)
  {
    hide Count;
    RootCounts(d.l);
    RootCounts(d.r);
    RootCounts(h.l);
    assert d.l.Nil? || Parts(p, h, d, d.l.n) <= 1;
    assert d.r.Nil? || Parts(p, h, d, d.r.n) <= 1;
    assert h.l.Nil? || Parts(p, h, d, h.l.n) <= 1;
  }

  // A node that is none of the pieces' is not one of their topmost nodes either.
  lemma Elsewhere(p: CNode, h: Tree, d: Tree, n: CNode)
    requires IsHole(h) && d.Node? && Pieces(p, h, d, n) == 0
    ensures n !in {p, h.n, d.n}
    ensures n != Root(h.l) && n != Root(d.l) && n != Root(d.m) && n != Root(d.r)
  {
    PiecesAreParts(p, h, d, n);
    RootCounts(h.l);
    RootCounts(d.l);
    RootCounts(d.m);
    RootCounts(d.r);
  }

  // ----- The neighbour is to the right and gives its first subtree -----

  lemma FirstMovedTrees(s: Store, s': Store, p: CNode, h: Tree, sep: int, d: Tree)
    requires p in s && Gap(h, p, s) && IsThree(d) && Rep(d, p, s) && Apart(p, h, d)
    requires FirstMoved(s, s', p, h.n, d.n, sep)
    ensures Rep(FilledRight(h, sep, d.l), p, s') && Rep(ButFirst(d), p, s')
    ensures s'[p].parent == s[p].parent
  {
    hide Count;
    var X := {p, h.n, d.n} + RootSet(d.l);
    RootCounts(d.l);
    RootCounts(d.m);
    KeptOutside(h.l, h.n, s, s', X);
    KeptOutside(d.m, d.n, s, s', X);
    KeptOutside(d.r, d.n, s, s', X);
    MovedOutside(d.l, d.n, s, h.n, s', {p, h.n, d.n});
  }

  lemma FirstMovedUntouched(s: Store, s': Store, p: CNode, h: Tree, sep: int, d: Tree, n: CNode)
    requires p in s && IsHole(h) && h.n in s && IsThree(d) && Rep(d, p, s)
    requires FirstMoved(s, s', p, h.n, d.n, sep)
    requires n in s && Pieces(p, h, d, n) == 0
    ensures s'[n] == s[n]
  {
    Elsewhere(p, h, d, n);
  }

  // ----- The neighbour is to the left and gives its last subtree -----

  lemma LastMovedTrees(s: Store, s': Store, p: CNode, h: Tree, sep: int, d: Tree)
    requires p in s && Gap(h, p, s) && IsThree(d) && Rep(d, p, s) && Apart(p, h, d)
    requires LastMoved(s, s', p, h.n, d.n, sep)
    ensures Rep(FilledLeft(h, d.r, sep), p, s') && Rep(ButLast(d), p, s')
    ensures s'[p].parent == s[p].parent
  {
    hide Count;
    var X := {p, h.n, d.n} + RootSet(d.r);
    RootCounts(d.r);
    RootCounts(d.m);
    RootCounts(h.l);
    KeptOutside(h.l, h.n, s, s', X);
    KeptOutside(d.m, d.n, s, s', X);
    KeptOutside(d.l, d.n, s, s', X);
    MovedOutside(d.r, d.n, s, h.n, s', {p, h.n, d.n});
  }

  lemma LastMovedUntouched(s: Store, s': Store, p: CNode, h: Tree, sep: int, d: Tree, n: CNode)
    requires p in s && Gap(h, p, s) && IsThree(d) && Rep(d, p, s)
    requires LastMoved(s, s', p, h.n, d.n, sep)
    requires n in s && Pieces(p, h, d, n) == 0
    ensures s'[n] == s[n]
  {
    Elsewhere(p, h, d, n);
  }

  // ----- The neighbour is a two node and becomes the hole itself -----

  lemma FirstLentTrees(s: Store, s': Store, p: CNode, h: Tree, d: Tree)
    requires p in s && Gap(h, p, s) && IsTwo(d) && Rep(d, p, s) && Apart(p, h, d)
    requires FirstLent(s, s', p, h.n, d.n)
    ensures Rep(FilledRight(h, s[p].body.small, d.l), p, s') && Gap(Hole(d.n, d.r), p, s')
    ensures s'[p].parent == s[p].parent && s'[d.n].body.smallSet
  {
    hide Count;
    var X := {p, h.n, d.n} + RootSet(d.l);
    RootCounts(d.l);
    RootCounts(d.r);
    KeptOutside(h.l, h.n, s, s', X);
    KeptOutside(d.r, d.n, s, s', X);
    MovedOutside(d.l, d.n, s, h.n, s', {p, h.n, d.n});
  }

  lemma FirstLentUntouched(s: Store, s': Store, p: CNode, h: Tree, d: Tree, n: CNode)
    requires p in s && Gap(h, p, s) && IsTwo(d) && Rep(d, p, s)
    requires FirstLent(s, s', p, h.n, d.n)
    requires n in s && Pieces(p, h, d, n) == 0
    ensures s'[n] == s[n]
  {
    Elsewhere(p, h, d, n);
  }

  lemma LastLentTrees(s: Store, s': Store, p: CNode, h: Tree, d: Tree)
    requires p in s && Gap(h, p, s) && IsTwo(d) && Rep(d, p, s) && Apart(p, h, d)
    requires LastLent(s, s', p, h.n, d.n)
    ensures Rep(FilledLeft(h, d.r, s[p].body.big), p, s') && Gap(Hole(d.n, d.l), p, s')
    ensures s'[p].parent == s[p].parent
  {
    hide Count;
    var X := {p, h.n, d.n} + RootSet(d.r);
    RootCounts(d.r);
    RootCounts(h.l);
    KeptOutside(h.l, h.n, s, s', X);
    KeptOutside(d.l, d.n, s, s', X);
    MovedOutside(d.r, d.n, s, h.n, s', {p, h.n, d.n});
  }

  lemma LastLentUntouched(s: Store, s': Store, p: CNode, h: Tree, d: Tree, n: CNode)
    requires p in s && Gap(h, p, s) && IsTwo(d) && Rep(d, p, s)
    requires LastLent(s, s', p, h.n, d.n)
    requires n in s && Pieces(p, h, d, n) == 0
    ensures s'[n] == s[n]
  {
    Elsewhere(p, h, d, n);
  }

  // ----- The same inside the parent's subtree t, whose third child is g -----

  ghost predicate Region(t: Tree, g: Tree, p: CNode, h: Tree, d: Tree, s: Store) {
    p in s && Distinct(t, s.Keys) && Rep(g, p, s) && Gap(h, p, s) && d.Node? && Rep(d, p, s) &&
    forall n :: n in s ==> Count(t, n) == Pieces(p, h, d, n) + Count(g, n)
  }

  lemma RegionApart(t: Tree, g: Tree, p: CNode, h: Tree, d: Tree, s: Store)
    requires Region(t, g, p, h, d, s)
    ensures Apart(p, h, d)
  {
    hide Count;
    assert Rep(d.l, d.n, s) && Rep(d.r, d.n, s) && Rep(h.l, h.n, s);
    OnlyOnce(s.Keys, p, h, d);
  }

  // What happens to the region leaves the third child and all outside t alone.
  ghost predicate KeptAround(t: Tree, g: Tree, p: CNode, s: Store, s': Store)
    requires p in s
  {
    s'.Keys == s.Keys && Rep(g, p, s') && s'[p].parent == s[p].parent &&
    forall n :: n in s && Count(t, n) == 0 ==> s'[n] == s[n]
  }

  lemma RegionKept(t: Tree, g: Tree, p: CNode, h: Tree, d: Tree, s: Store, s': Store)
    requires Region(t, g, p, h, d, s)
    requires s'.Keys == s.Keys && s'[p].parent == s[p].parent
    requires forall n :: n in s && Pieces(p, h, d, n) == 0 ==> s'[n] == s[n]
    ensures KeptAround(t, g, p, s, s')
  {
    hide Count;
    forall n | n in s && Count(g, n) > 0
      ensures s'[n] == s[n]
    {
      assert Count(t, n) <= 1;
    }
    Kept(g, p, s, s');
  }

  lemma FirstMovedInside(t: Tree, g: Tree, s: Store, s': Store, p: CNode, h: Tree, sep: int, d: Tree)
    requires Region(t, g, p, h, d, s) && IsThree(d) && FirstMoved(s, s', p, h.n, d.n, sep)
    ensures Rep(FilledRight(h, sep, d.l), p, s') && Rep(ButFirst(d), p, s') && KeptAround(t, g, p, s, s')
  {
    hide Count, Pieces;
    RegionApart(t, g, p, h, d, s);
    FirstMovedTrees(s, s', p, h, sep, d);
    forall n | n in s && Pieces(p, h, d, n) == 0 ensures s'[n] == s[n] {
      FirstMovedUntouched(s, s', p, h, sep, d, n);
    }
    RegionKept(t, g, p, h, d, s, s');
  }

  lemma LastMovedInside(t: Tree, g: Tree, s: Store, s': Store, p: CNode, h: Tree, sep: int, d: Tree)
    requires Region(t, g, p, h, d, s) && IsThree(d) && LastMoved(s, s', p, h.n, d.n, sep)
    ensures Rep(FilledLeft(h, d.r, sep), p, s') && Rep(ButLast(d), p, s') && KeptAround(t, g, p, s, s')
  {
    hide Count, Pieces;
    RegionApart(t, g, p, h, d, s);
    LastMovedTrees(s, s', p, h, sep, d);
    forall n | n in s && Pieces(p, h, d, n) == 0 ensures s'[n] == s[n] {
      LastMovedUntouched(s, s', p, h, sep, d, n);
    }
    RegionKept(t, g, p, h, d, s, s');
  }

  lemma FirstLentInside(t: Tree, g: Tree, s: Store, s': Store, p: CNode, h: Tree, d: Tree)
    requires Region(t, g, p, h, d, s) && IsTwo(d) && FirstLent(s, s', p, h.n, d.n)
    ensures Rep(FilledRight(h, s[p].body.small, d.l), p, s') && Gap(Hole(d.n, d.r), p, s')
    ensures s'[p].body == WithSmall(s[p].body, d.keys.k)
    ensures s'[d.n].body.smallSet && s'[d.n].body.small == s[p].body.big
    ensures KeptAround(t, g, p, s, s')
  {
    hide Count, Pieces;
    RegionApart(t, g, p, h, d, s);
    FirstLentTrees(s, s', p, h, d);
    forall n | n in s && Pieces(p, h, d, n) == 0 ensures s'[n] == s[n] {
      FirstLentUntouched(s, s', p, h, d, n);
    }
    RegionKept(t, g, p, h, d, s, s');
  }

  lemma LastLentInside(t: Tree, g: Tree, s: Store, s': Store, p: CNode, h: Tree, d: Tree)
    requires Region(t, g, p, h, d, s) && IsTwo(d) && LastLent(s, s', p, h.n, d.n)
    ensures Rep(FilledLeft(h, d.r, s[p].body.big), p, s') && Gap(Hole(d.n, d.l), p, s')
    ensures s'[p].body == WithBig(s[p].body, d.keys.k)
    ensures KeptAround(t, g, p, s, s')
  {
    hide Count, Pieces;
    RegionApart(t, g, p, h, d, s);
    LastLentTrees(s, s', p, h, d);
    forall n | n in s && Pieces(p, h, d, n) == 0 ensures s'[n] == s[n] {
      LastLentUntouched(s, s', p, h, d, n);
    }
    RegionKept(t, g, p, h, d, s, s');
  }
}
