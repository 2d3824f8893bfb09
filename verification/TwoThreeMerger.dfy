// The mergers that repair a hole when no neighbour can spare a key
// (CTree::localNodeMerger, cases 15 to 17, and CTree::globalNodeMerger, cases
// 18 and 19): two siblings become one node and the other one is deleted.
module TwoThreeMerger {
  import opened TwoThreeNode
  import opened TwoThreeShape
  import opened TwoThreeRotation
  import opened TwoThreeRegion
  import opened TwoThreeLocal

  // ----- The two siblings -----

  function AbsorbedRight(s: Store, p: CNode, h: CNode, d: CNode): Store
    requires p in s && h in s && d in s
  {
    var s1 := PutSmallKey(s, h, s[p].body.small);
    var s2 := PutBigKey(s1, h, s1[d].body.small);
    var s3 := PutChild(s2, h, MiddleChild, s2[d].body.children.left);
    PutChild(s3, h, RightChild, s3[d].body.children.right)
  }

  // Cases 15 and 18: the hole h takes over its right neighbour d.
  method AbsorbRight(p: CNode, h: CNode, d: CNode, ghost S: set<CNode>)
    requires p in S && h in S && d in S && p != h && p != d && h != d
    requires IsIn(d.children.left, S) && IsIn(d.children.right, S)
    modifies S
    ensures At(S) == AbsorbedRight(old(At(S)), p, h, d)
  {
    h.SetSmallKey(p.smallKey, S);
    h.SetBigKey(d.smallKey, S);
    h.SetChild(MiddleChild, d.children.left, S);
    h.SetChild(RightChild, d.children.right, S);
  }

  function FoldedLeft(s: Store, p: CNode, h: CNode, d: CNode): Store
    requires p in s && h in s && d in s
  {
    var s1 := PutBigKey(s, d, s[p].body.small);
    var s2 := PutChild(s1, d, MiddleChild, s1[d].body.children.right);
    PutChild(s2, d, RightChild, s2[h].body.children.left)
  }

  // Cases 16 and 19: the left neighbour d takes over the hole h.
  method FoldLeft(p: CNode, h: CNode, d: CNode, ghost S: set<CNode>)
    requires p in S && h in S && d in S && p != h && p != d && h != d
    requires IsIn(d.children.right, S) && IsIn(h.children.left, S)
    modifies S
    ensures At(S) == FoldedLeft(old(At(S)), p, h, d)
  {
    d.SetBigKey(p.smallKey, S);
    d.SetChild(MiddleChild, d.children.right, S);
    d.SetChild(RightChild, h.children.left, S);
  }

  function AbsorbedLeft(s: Store, p: CNode, h: CNode, d: CNode): Store
    requires p in s && h in s && d in s
  {
    var s1 := PutSmallKey(s, h, s[d].body.small);
    var s2 := PutBigKey(s1, h, s1[p].body.big);
    var s3 := PutChild(s2, h, RightChild, s2[h].body.children.left);
    var s4 := PutChild(s3, h, MiddleChild, s3[d].body.children.right);
    PutChild(s4, h, LeftChild, s4[d].body.children.left)
  }

  // Case 17: the hole h takes over its left neighbour d.
  method AbsorbLeft(p: CNode, h: CNode, d: CNode, ghost S: set<CNode>)
    requires p in S && h in S && d in S && p != h && p != d && h != d
    requires IsIn(d.children.left, S) && IsIn(d.children.right, S) && IsIn(h.children.left, S)
    modifies S
    ensures At(S) == AbsorbedLeft(old(At(S)), p, h, d)
  {
    hide PutChild, PutSmallKey, PutBigKey;
    h.SetSmallKey(d.smallKey, S);
    h.SetBigKey(p.bigKey, S);
    h.SetChild(RightChild, h.children.left, S);
    h.SetChild(MiddleChild, d.children.right, S);
    h.SetChild(LeftChild, d.children.left, S);
  }

  // All three: the body of keeper becomes b and it adopts the children of both.
  ghost predicate Merged(s: Store, s': Store, keeper: CNode, b: Body, gone: CNode)
    requires keeper in s && gone in s
  {
    s'.Keys == s.Keys && s'[keeper].body == b &&
    forall x :: x in s ==>
      (x != keeper ==> s'[x].body == s[x].body) &&
      s'[x].parent == if x == s[gone].body.children.left || x == s[gone].body.children.right then keeper else s[x].parent
  }

  lemma AbsorbedRightMoves(s: Store, p: CNode, h: CNode, d: CNode)
    requires p in s && h in s && d in s && p != h && p != d && h != d
    ensures var hb, db := s[h].body, s[d].body;
      Merged(s, AbsorbedRight(s, p, h, d), h,
        Body(s[p].body.small, true, db.small, true, Children(hb.children.left, db.children.left, db.children.right)), d)
  {
  }

  lemma FoldedLeftMoves(s: Store, p: CNode, h: CNode, d: CNode)
    requires p in s && h in s && d in s && p != h && p != d && h != d
    requires s[h].body.children.right == null
    requires d !in s || s[d].body.children.right == null || (s[d].body.children.right in s && s[s[d].body.children.right].parent == d)
    ensures var hb, db := s[h].body, s[d].body;
      Merged(s, FoldedLeft(s, p, h, d), d,
        WithBig(db, s[p].body.small).(children := Children(db.children.left, db.children.right, hb.children.left)), h)
  {
  }

  lemma AbsorbedLeftMoves(s: Store, p: CNode, h: CNode, d: CNode)
    requires p in s && h in s && d in s && p != h && p != d && h != d
    requires s[h].body.children.left == null || (s[h].body.children.left in s && s[s[h].body.children.left].parent == h)
    ensures var hb, db := s[h].body, s[d].body;
      Merged(s, AbsorbedLeft(s, p, h, d), h,
        Body(db.small, true, s[p].body.big, true, Children(db.children.left, db.children.right, hb.children.left)), d)
  {
  }

  // ----- The parent, which loses a child -----

  function ShrunkFirst(s: Store, p: CNode): Store
    requires p in s
  {
    var s1 := PutSmallKey(s, p, s[p].body.big);
    var s2 := DropBigKey(s1, p);
    PutChild(s2, p, MiddleChild, null)
  }

  // Cases 15 and 16.
  method ShrinkFirst(p: CNode, ghost S: set<CNode>)
    requires p in S
    modifies S
    ensures At(S) == ShrunkFirst(old(At(S)), p)
  {
    p.SetSmallKey(p.bigKey, S);
    p.UnsetBigKey(S);
    p.SetChild(MiddleChild, null, S);
  }

  function ShrunkLast(s: Store, p: CNode): Store
    requires p in s
  {
    PutChild(DropBigKey(s, p), p, MiddleChild, null)
  }

  // Case 17.
  method ShrinkLast(p: CNode, ghost S: set<CNode>)
    requires p in S
    modifies S
    ensures At(S) == ShrunkLast(old(At(S)), p)
  {
    p.UnsetBigKey(S);
    p.SetChild(MiddleChild, null, S);
  }

  function Hollowed(s: Store, p: CNode): Store
    requires p in s
  {
    PutChild(DropSmallKey(s, p), p, RightChild, null)
  }

  // Case 18.
  method HollowKeyFirst(p: CNode, ghost S: set<CNode>)
    requires p in S
    modifies S
    ensures At(S) == Hollowed(old(At(S)), p)
  {
    p.UnsetSmallKey(S);
    p.SetChild(RightChild, null, S);
  }

  // Case 19.
  method HollowChildFirst(p: CNode, ghost S: set<CNode>)
    requires p in S
    modifies S
    ensures At(S) == Hollowed(old(At(S)), p)
  {
    p.SetChild(RightChild, null, S);
    p.UnsetSmallKey(S);
  }

  lemma ShrunkFirstBody(s: Store, p: CNode)
    requires p in s
    ensures ShrunkFirst(s, p) ==
      PutBody(s, p, WithSmall(s[p].body, s[p].body.big).(bigSet := false, children := s[p].body.children.(middle := null)))
  {
  }

  lemma ShrunkLastBody(s: Store, p: CNode)
    requires p in s
    ensures ShrunkLast(s, p) == PutBody(s, p, s[p].body.(bigSet := false, children := s[p].body.children.(middle := null)))
  {
  }

  lemma HollowedBody(s: Store, p: CNode)
    requires p in s
    ensures Hollowed(s, p) == PutBody(s, p, s[p].body.(smallSet := false, children := s[p].body.children.(right := null)))
  {
  }

  // ----- The trees -----

  function RightAbsorbed(h: Tree, sep: int, d: Tree): Tree
    requires IsHole(h) && IsTwo(d)
  {
    Three(h.n, h.l, sep, d.l, d.keys.k, d.r)
  }

  function HoleFolded(d: Tree, sep: int, h: Tree): Tree
    requires IsHole(h) && IsTwo(d)
  {
    Three(d.n, d.l, d.keys.k, d.r, sep, h.l)
  }

  function LeftAbsorbed(d: Tree, sep: int, h: Tree): Tree
    requires IsHole(h) && IsTwo(d)
  {
    Three(h.n, d.l, d.keys.k, d.r, sep, h.l)
  }

  lemma RightAbsorbedTrees(s: Store, s': Store, p: CNode, h: Tree, sep: int, d: Tree)
    requires p in s && Gap(h, p, s) && IsTwo(d) && Rep(d, p, s) && Apart(p, h, d)
    requires Merged(s, s', h.n, Body(sep, true, d.keys.k, true, Children(Root(h.l), Root(d.l), Root(d.r))), d.n)
    ensures Rep(RightAbsorbed(h, sep, d), p, s') && s'[p] == s[p]
  {
    hide Count;
    RootCounts(d.l);
    RootCounts(d.r);
    var X := {h.n} + RootSet(d.l) + RootSet(d.r);
    KeptOutside(h.l, h.n, s, s', X);
    MovedOutside(d.l, d.n, s, h.n, s', {h.n} + RootSet(d.r));
    MovedOutside(d.r, d.n, s, h.n, s', {h.n} + RootSet(d.l));
  }

  lemma LeftAbsorbedTrees(s: Store, s': Store, p: CNode, h: Tree, sep: int, d: Tree)
    requires p in s && Gap(h, p, s) && IsTwo(d) && Rep(d, p, s) && Apart(p, h, d)
    requires Merged(s, s', h.n, Body(d.keys.k, true, sep, true, Children(Root(d.l), Root(d.r), Root(h.l))), d.n)
    ensures Rep(LeftAbsorbed(d, sep, h), p, s') && s'[p] == s[p]
  {
    hide Count;
    RootCounts(d.l);
    RootCounts(d.r);
    var X := {h.n} + RootSet(d.l) + RootSet(d.r);
    KeptOutside(h.l, h.n, s, s', X);
    MovedOutside(d.l, d.n, s, h.n, s', {h.n} + RootSet(d.r));
    MovedOutside(d.r, d.n, s, h.n, s', {h.n} + RootSet(d.l));
  }

  lemma HoleFoldedSubtrees(s: Store, s': Store, p: CNode, h: Tree, d: Tree, b: Body)
    requires p in s && Rep(h, p, s) && IsHole(h) && IsTwo(d) && Rep(d, p, s) && Apart(p, h, d)
    requires Merged(s, s', d.n, b, h.n)
    ensures Rep(d.l, d.n, s') && Rep(d.r, d.n, s') && Rep(h.l, d.n, s')
    ensures s'[p] == s[p] && s'[d.n].parent == s[d.n].parent
  {
    hide Count, Rep;
    RepNode(h, p, s);
    RepNode(d, p, s);
    RootCounts(h.l);
    var X := {d.n} + RootSet(h.l);
    KeptOutside(d.l, d.n, s, s', X);
    KeptOutside(d.r, d.n, s, s', X);
    MovedOutside(h.l, h.n, s, d.n, s', {d.n});
  }

  lemma HoleFoldedTrees(s: Store, s': Store, p: CNode, h: Tree, sep: int, d: Tree)
    requires p in s && Rep(h, p, s) && IsHole(h) && IsTwo(d) && Rep(d, p, s) && Apart(p, h, d)
    requires Merged(s, s', d.n, WithBig(s[d.n].body, sep).(children := Children(Root(d.l), Root(d.r), Root(h.l))), h.n)
    ensures Rep(HoleFolded(d, sep, h), p, s') && s'[p] == s[p]
  {
    hide Count, Rep, Apart;
    RepNode(d, p, s);
    HoleFoldedSubtrees(s, s', p, h, d, s'[d.n].body);
    RepMake(HoleFolded(d, sep, h), p, s');
  }

  lemma MergedUntouched(s: Store, s': Store, p: CNode, h: Tree, d: Tree, keeper: CNode, b: Body, gone: Tree, n: CNode)
    requires p in s && Rep(h, p, s) && IsHole(h) && IsTwo(d) && Rep(d, p, s)
    requires keeper in {h.n, d.n} && gone in {h, d}
    requires Merged(s, s', keeper, b, gone.n)
    requires n in s && Pieces(p, h, d, n) == 0
    ensures s'[n] == s[n]
  {
    Elsewhere(p, h, d, n);
  }

  // The merged tree beside the third child g, before the parent shrinks.
  ghost predicate MergedInside(t: Tree, g: Tree, p: CNode, s: Store, merged: Tree, s': Store) {
    p in s && p in s' && Rep(merged, p, s') && s'[p] == s[p] && KeptAround(t, g, p, s, s')
  }

  lemma RightAbsorbedInside(t: Tree, g: Tree, p: CNode, h: Tree, sep: int, d: Tree, s: Store, s': Store)
    requires Region(t, g, p, h, d, s) && IsTwo(d) && Rep(h, p, s)
    requires Merged(s, s', h.n, Body(sep, true, d.keys.k, true, Children(Root(h.l), Root(d.l), Root(d.r))), d.n)
    ensures MergedInside(t, g, p, s, RightAbsorbed(h, sep, d), s')
  {
    hide Count, Pieces;
    RegionApart(t, g, p, h, d, s);
    RightAbsorbedTrees(s, s', p, h, sep, d);
    forall n | n in s && Pieces(p, h, d, n) == 0 ensures s'[n] == s[n] {
      MergedUntouched(s, s', p, h, d, h.n, s'[h.n].body, d, n);
    }
    RegionKept(t, g, p, h, d, s, s');
  }

  lemma LeftAbsorbedInside(t: Tree, g: Tree, p: CNode, h: Tree, sep: int, d: Tree, s: Store, s': Store)
    requires Region(t, g, p, h, d, s) && IsTwo(d) && Rep(h, p, s)
    requires Merged(s, s', h.n, Body(d.keys.k, true, sep, true, Children(Root(d.l), Root(d.r), Root(h.l))), d.n)
    ensures MergedInside(t, g, p, s, LeftAbsorbed(d, sep, h), s')
  {
    hide Count, Pieces;
    RegionApart(t, g, p, h, d, s);
    LeftAbsorbedTrees(s, s', p, h, sep, d);
    forall n | n in s && Pieces(p, h, d, n) == 0 ensures s'[n] == s[n] {
      MergedUntouched(s, s', p, h, d, h.n, s'[h.n].body, d, n);
    }
    RegionKept(t, g, p, h, d, s, s');
  }

  lemma HoleFoldedInside(t: Tree, g: Tree, p: CNode, h: Tree, sep: int, d: Tree, s: Store, s': Store)
    requires Region(t, g, p, h, d, s) && IsTwo(d) && Rep(h, p, s)
    requires Merged(s, s', d.n, WithBig(s[d.n].body, sep).(children := Children(Root(d.l), Root(d.r), Root(h.l))), h.n)
    ensures MergedInside(t, g, p, s, HoleFolded(d, sep, h), s')
  {
    hide Count, Pieces;
    RegionApart(t, g, p, h, d, s);
    HoleFoldedTrees(s, s', p, h, sep, d);
    forall n | n in s && Pieces(p, h, d, n) == 0 ensures s'[n] == s[n] {
      MergedUntouched(s, s', p, h, d, d.n, s'[d.n].body, h, n);
    }
    RegionKept(t, g, p, h, d, s, s');
  }

  predicate OneOf(u: Tree, merged: Tree, g: Tree) {
    u == merged || u == g || u.Nil?
  }

  // The parent takes its new body and the node x is deleted.
  lemma MergeFinished(t: Tree, q: CNode?, g: Tree, s: Store, merged: Tree, s1: Store, t': Tree, b: Body, x: CNode)
    requires t.Node? && Rep(t, q, s) && Distinct(t, s.Keys)
    requires MergedInside(t, g, t.n, s, merged, s1) && x in s && x != t.n
    requires t'.Node? && t'.n == t.n && Fits(b, t'.keys, t'.l, t'.m, t'.r)
    requires OneOf(t'.l, merged, g) && OneOf(t'.m, merged, g) && OneOf(t'.r, merged, g)
    requires forall n :: n in s ==> Count(t, n) == One(t.n, n) + One(x, n) + Count(merged, n) + Count(g, n)
    requires forall n :: n in s ==> Count(t', n) == One(t.n, n) + Count(merged, n) + Count(g, n)
    ensures Replaced(t, q, s, t', PutBody(s1, t.n, b) - {x})
  {
    hide Count, Rep;
    RepNode(t, q, s);
    var p, s3 := t.n, PutBody(s1, t.n, b) - {x};
    forall n | n in s && (Count(merged, n) > 0 || Count(g, n) > 0)
      ensures n in s3 && s3[n] == s1[n]
    {
      assert Count(t, n) <= 1;
    }
    Kept(merged, p, s1, s3);
    Kept(g, p, s1, s3);
    RepNil(p, s3);
    RepMake(t', q, s3);
  }

  // ----- The five cases: the guard, the subtree that results, and the proof -----

  // Case 15.
  predicate MergesLeftHole(t: Tree) {
    IsThree(t) && IsHole(t.l) && IsTwo(t.m)
  }

  function Merged15(t: Tree): Tree
    requires MergesLeftHole(t)
  {
    Two(t.n, RightAbsorbed(t.l, t.keys.k1, t.m), t.keys.k2, t.r)
  }

  // Case 16.
  predicate MergesMiddleHole(t: Tree) {
    IsThree(t) && IsHole(t.m) && IsTwo(t.l)
  }

  function Merged16(t: Tree): Tree
    requires MergesMiddleHole(t)
  {
    Two(t.n, HoleFolded(t.l, t.keys.k1, t.m), t.keys.k2, t.r)
  }

  // Case 17.
  predicate MergesRightHole(t: Tree) {
    IsThree(t) && IsHole(t.r) && IsTwo(t.m)
  }

  function Merged17(t: Tree): Tree
    requires MergesRightHole(t)
  {
    Two(t.n, t.l, t.keys.k1, LeftAbsorbed(t.m, t.keys.k2, t.r))
  }

  // Case 18: the parent becomes the hole.
  predicate HollowsLeft(t: Tree) {
    IsTwo(t) && IsHole(t.l) && IsTwo(t.r)
  }

  function Merged18(t: Tree): Tree
    requires HollowsLeft(t)
  {
    Hole(t.n, RightAbsorbed(t.l, t.keys.k, t.r))
  }

  // Case 19: the parent becomes the hole.
  predicate HollowsRight(t: Tree) {
    IsTwo(t) && IsHole(t.r) && IsTwo(t.l)
  }

  function Merged19(t: Tree): Tree
    requires HollowsRight(t)
  {
    Hole(t.n, HoleFolded(t.l, t.keys.k, t.r))
  }

  lemma MergeCounts(p: CNode, h: Tree, sep: int, d: Tree, n: CNode)
    requires IsHole(h) && IsTwo(d)
    ensures Pieces(p, h, d, n) == One(p, n) + Count(h, n) + Count(d, n)
    ensures Count(h, n) + Count(d, n) == Count(RightAbsorbed(h, sep, d), n) + One(d.n, n)
    ensures Count(h, n) + Count(d, n) == Count(LeftAbsorbed(d, sep, h), n) + One(d.n, n)
    ensures Count(h, n) + Count(d, n) == Count(HoleFolded(d, sep, h), n) + One(h.n, n)
  {
    NodeCounts(h, n);
    NodeCounts(d, n);
  }
  lemma Case15Holds(t: Tree, q: CNode?, s: Store)
    requires MergesLeftHole(t) && Rep(t, q, s) && Distinct(t, s.Keys) && t.l.n in s && t.m.n in s
    ensures Apart(t.n, t.l, t.m)
    ensures Replaced(t, q, s, Merged15(t), ShrunkFirst(AbsorbedRight(s, t.n, t.l.n, t.m.n), t.n) - {t.m.n})
  {
    hide AbsorbedRight, Merged, ShrunkFirst, Count, Pieces, Rep, Apart;
    var p, h, d := t.n, t.l, t.m;
    RepNode(t, q, s);
    RepNode(h, p, s);
    RepNode(d, p, s);
    var s1 := AbsorbedRight(s, p, h.n, d.n);
    var merged := RightAbsorbed(h, t.keys.k1, d);
    forall n | n in s
      ensures Count(t, n) == Pieces(p, h, d, n) + Count(t.r, n)
      ensures Count(t, n) == One(p, n) + One(t.m.n, n) + Count(merged, n) + Count(t.r, n)
      ensures Count(Merged15(t), n) == One(p, n) + Count(merged, n) + Count(t.r, n)
    {
      NodeCounts(t, n);
      NodeCounts(Merged15(t), n);
      MergeCounts(p, h, t.keys.k1, d, n);
    }
    RepNil(p, s);
    RegionApart(t, t.r, p, h, d, s);
    ApartNodes(p, h, d);
    AbsorbedRightMoves(s, p, h.n, d.n);
    RightAbsorbedInside(t, t.r, p, h, t.keys.k1, d, s, s1);
    ShrunkFirstBody(s1, p);
    MergeFinished(t, q, t.r, s, merged, s1, Merged15(t),
      WithSmall(s[p].body, s[p].body.big).(bigSet := false, children := s[p].body.children.(middle := null)), t.m.n);
  }

  lemma Case16Holds(t: Tree, q: CNode?, s: Store)
    requires MergesMiddleHole(t) && Rep(t, q, s) && Distinct(t, s.Keys) && t.m.n in s && t.l.n in s
    ensures Apart(t.n, t.m, t.l)
    ensures Replaced(t, q, s, Merged16(t), ShrunkFirst(FoldedLeft(s, t.n, t.m.n, t.l.n), t.n) - {t.m.n})
  {
    hide FoldedLeft, Merged, ShrunkFirst, Count, Pieces, Rep, Apart;
    var p, h, d := t.n, t.m, t.l;
    RepNode(t, q, s);
    RepNode(h, p, s);
    RepNode(d, p, s);
    var s1 := FoldedLeft(s, p, h.n, d.n);
    var merged := HoleFolded(d, t.keys.k1, h);
    forall n | n in s
      ensures Count(t, n) == Pieces(p, h, d, n) + Count(t.r, n)
      ensures Count(t, n) == One(p, n) + One(t.m.n, n) + Count(merged, n) + Count(t.r, n)
      ensures Count(Merged16(t), n) == One(p, n) + Count(merged, n) + Count(t.r, n)
    {
      NodeCounts(t, n);
      NodeCounts(Merged16(t), n);
      MergeCounts(p, h, t.keys.k1, d, n);
    }
    RepNil(p, s);
    RegionApart(t, t.r, p, h, d, s);
    ApartNodes(p, h, d);
    FoldedLeftMoves(s, p, h.n, d.n);
    HoleFoldedInside(t, t.r, p, h, t.keys.k1, d, s, s1);
    ShrunkFirstBody(s1, p);
    MergeFinished(t, q, t.r, s, merged, s1, Merged16(t),
      WithSmall(s[p].body, s[p].body.big).(bigSet := false, children := s[p].body.children.(middle := null)), t.m.n);
  }

  lemma Case17Holds(t: Tree, q: CNode?, s: Store)
    requires MergesRightHole(t) && Rep(t, q, s) && Distinct(t, s.Keys) && t.r.n in s && t.m.n in s
    ensures Apart(t.n, t.r, t.m)
    ensures Replaced(t, q, s, Merged17(t), ShrunkLast(AbsorbedLeft(s, t.n, t.r.n, t.m.n), t.n) - {t.m.n})
  {
    hide AbsorbedLeft, Merged, ShrunkLast, Count, Pieces, Rep, Apart;
    var p, h, d := t.n, t.r, t.m;
    RepNode(t, q, s);
    RepNode(h, p, s);
    RepNode(d, p, s);
    var s1 := AbsorbedLeft(s, p, h.n, d.n);
    var merged := LeftAbsorbed(d, t.keys.k2, h);
    forall n | n in s
      ensures Count(t, n) == Pieces(p, h, d, n) + Count(t.l, n)
      ensures Count(t, n) == One(p, n) + One(t.m.n, n) + Count(merged, n) + Count(t.l, n)
      ensures Count(Merged17(t), n) == One(p, n) + Count(merged, n) + Count(t.l, n)
    {
      NodeCounts(t, n);
      NodeCounts(Merged17(t), n);
      MergeCounts(p, h, t.keys.k2, d, n);
    }
    RepNil(p, s);
    RegionApart(t, t.l, p, h, d, s);
    ApartNodes(p, h, d);
    AbsorbedLeftMoves(s, p, h.n, d.n);
    LeftAbsorbedInside(t, t.l, p, h, t.keys.k2, d, s, s1);
    ShrunkLastBody(s1, p);
    MergeFinished(t, q, t.l, s, merged, s1, Merged17(t),
      s[p].body.(bigSet := false, children := s[p].body.children.(middle := null)), t.m.n);
  }

  lemma Case18Holds(t: Tree, q: CNode?, s: Store)
    requires HollowsLeft(t) && Rep(t, q, s) && Distinct(t, s.Keys) && t.l.n in s && t.r.n in s
    ensures Apart(t.n, t.l, t.r)
    ensures Replaced(t, q, s, Merged18(t), Hollowed(AbsorbedRight(s, t.n, t.l.n, t.r.n), t.n) - {t.r.n})
  {
    hide AbsorbedRight, Merged, Hollowed, Count, Pieces, Rep, Apart;
    var p, h, d := t.n, t.l, t.r;
    RepNode(t, q, s);
    RepNode(h, p, s);
    RepNode(d, p, s);
    var s1 := AbsorbedRight(s, p, h.n, d.n);
    var merged := RightAbsorbed(h, t.keys.k, d);
    forall n | n in s
      ensures Count(t, n) == Pieces(p, h, d, n) + Count(Nil, n)
      ensures Count(t, n) == One(p, n) + One(t.r.n, n) + Count(merged, n) + Count(Nil, n)
      ensures Count(Merged18(t), n) == One(p, n) + Count(merged, n) + Count(Nil, n)
    {
      NodeCounts(t, n);
      NodeCounts(Merged18(t), n);
      MergeCounts(p, h, t.keys.k, d, n);
    }
    RepNil(p, s);
    RegionApart(t, Nil, p, h, d, s);
    ApartNodes(p, h, d);
    AbsorbedRightMoves(s, p, h.n, d.n);
    RightAbsorbedInside(t, Nil, p, h, t.keys.k, d, s, s1);
    HollowedBody(s1, p);
    MergeFinished(t, q, Nil, s, merged, s1, Merged18(t),
      s[p].body.(smallSet := false, children := s[p].body.children.(right := null)), t.r.n);
  }

  lemma Case19Holds(t: Tree, q: CNode?, s: Store)
    requires HollowsRight(t) && Rep(t, q, s) && Distinct(t, s.Keys) && t.r.n in s && t.l.n in s
    ensures Apart(t.n, t.r, t.l)
    ensures Replaced(t, q, s, Merged19(t), Hollowed(FoldedLeft(s, t.n, t.r.n, t.l.n), t.n) - {t.r.n})
  {
    hide FoldedLeft, Merged, Hollowed, Count, Pieces, Rep, Apart;
    var p, h, d := t.n, t.r, t.l;
    RepNode(t, q, s);
    RepNode(h, p, s);
    RepNode(d, p, s);
    var s1 := FoldedLeft(s, p, h.n, d.n);
    var merged := HoleFolded(d, t.keys.k, h);
    forall n | n in s
      ensures Count(t, n) == Pieces(p, h, d, n) + Count(Nil, n)
      ensures Count(t, n) == One(p, n) + One(t.r.n, n) + Count(merged, n) + Count(Nil, n)
      ensures Count(Merged19(t), n) == One(p, n) + Count(merged, n) + Count(Nil, n)
    {
      NodeCounts(t, n);
      NodeCounts(Merged19(t), n);
      MergeCounts(p, h, t.keys.k, d, n);
    }
    RepNil(p, s);
    RegionApart(t, Nil, p, h, d, s);
    ApartNodes(p, h, d);
    FoldedLeftMoves(s, p, h.n, d.n);
    HoleFoldedInside(t, Nil, p, h, t.keys.k, d, s, s1);
    HollowedBody(s1, p);
    MergeFinished(t, q, Nil, s, merged, s1, Merged19(t),
      s[p].body.(smallSet := false, children := s[p].body.children.(right := null)), t.r.n);
  }

  // ----- Each case on the nodes themselves; the caller deletes the spare node -----

  method Merge15(p: CNode, h: CNode, d: CNode, ghost t: Tree, ghost q: CNode?, ghost S: set<CNode>)
    requires MergesLeftHole(t) && Rep(t, q, At(S)) && Distinct(t, S) && p == t.n && h == t.l.n && d == t.m.n
    modifies S
    ensures Replaced(t, q, old(At(S)), Merged15(t), At(S - {d}))
  {
    hide Replaced, Rep, Count, Distinct, AbsorbedRight, FoldedLeft, AbsorbedLeft, ShrunkFirst, ShrunkLast, Hollowed;
    ghost var s := At(S);
    assert s.Keys == S;
    RepNode(t, q, s);
    RepLinks(t.l, p, s);
    RepLinks(t.m, p, s);
    Case15Holds(t, q, s);
    ApartNodes(p, t.l, t.m);
    AbsorbRight(p, h, d, S);
    ShrinkFirst(p, S);
    assert At(S - {d}) == At(S) - {d};
  }

  method Merge16(p: CNode, h: CNode, d: CNode, ghost t: Tree, ghost q: CNode?, ghost S: set<CNode>)
    requires MergesMiddleHole(t) && Rep(t, q, At(S)) && Distinct(t, S) && p == t.n && h == t.m.n && d == t.l.n
    modifies S
    ensures Replaced(t, q, old(At(S)), Merged16(t), At(S - {h}))
  {
    hide Replaced, Rep, Count, Distinct, AbsorbedRight, FoldedLeft, AbsorbedLeft, ShrunkFirst, ShrunkLast, Hollowed;
    ghost var s := At(S);
    assert s.Keys == S;
    RepNode(t, q, s);
    RepLinks(t.m, p, s);
    RepLinks(t.l, p, s);
    Case16Holds(t, q, s);
    ApartNodes(p, t.m, t.l);
    FoldLeft(p, h, d, S);
    ShrinkFirst(p, S);
    assert At(S - {h}) == At(S) - {h};
  }

  method Merge17(p: CNode, h: CNode, d: CNode, ghost t: Tree, ghost q: CNode?, ghost S: set<CNode>)
    requires MergesRightHole(t) && Rep(t, q, At(S)) && Distinct(t, S) && p == t.n && h == t.r.n && d == t.m.n
    modifies S
    ensures Replaced(t, q, old(At(S)), Merged17(t), At(S - {d}))
  {
    hide Replaced, Rep, Count, Distinct, AbsorbedRight, FoldedLeft, AbsorbedLeft, ShrunkFirst, ShrunkLast, Hollowed;
    ghost var s := At(S);
    assert s.Keys == S;
    RepNode(t, q, s);
    RepLinks(t.r, p, s);
    RepLinks(t.m, p, s);
    Case17Holds(t, q, s);
    ApartNodes(p, t.r, t.m);
    AbsorbLeft(p, h, d, S);
    ShrinkLast(p, S);
    assert At(S - {d}) == At(S) - {d};
  }

  method Merge18(p: CNode, h: CNode, d: CNode, ghost t: Tree, ghost q: CNode?, ghost S: set<CNode>)
    requires HollowsLeft(t) && Rep(t, q, At(S)) && Distinct(t, S) && p == t.n && h == t.l.n && d == t.r.n
    modifies S
    ensures Replaced(t, q, old(At(S)), Merged18(t), At(S - {d}))
  {
    hide Replaced, Rep, Count, Distinct, AbsorbedRight, FoldedLeft, AbsorbedLeft, ShrunkFirst, ShrunkLast, Hollowed;
    ghost var s := At(S);
    assert s.Keys == S;
    RepNode(t, q, s);
    RepLinks(t.l, p, s);
    RepLinks(t.r, p, s);
    Case18Holds(t, q, s);
    ApartNodes(p, t.l, t.r);
    AbsorbRight(p, h, d, S);
    HollowKeyFirst(p, S);
    assert At(S - {d}) == At(S) - {d};
  }

  method Merge19(p: CNode, h: CNode, d: CNode, ghost t: Tree, ghost q: CNode?, ghost S: set<CNode>)
    requires HollowsRight(t) && Rep(t, q, At(S)) && Distinct(t, S) && p == t.n && h == t.r.n && d == t.l.n
    modifies S
    ensures Replaced(t, q, old(At(S)), Merged19(t), At(S - {h}))
  {
    hide Replaced, Rep, Count, Distinct, AbsorbedRight, FoldedLeft, AbsorbedLeft, ShrunkFirst, ShrunkLast, Hollowed;
    ghost var s := At(S);
    assert s.Keys == S;
    RepNode(t, q, s);
    RepLinks(t.r, p, s);
    RepLinks(t.l, p, s);
    Case19Holds(t, q, s);
    ApartNodes(p, t.r, t.l);
    FoldLeft(p, h, d, S);
    HollowChildFirst(p, S);
    assert At(S - {h}) == At(S) - {h};
  }

  lemma MergedAhead(h: Tree, sep: int, d: Tree, rest: seq<int>)
    requires IsHole(h) && IsTwo(d)
    ensures Ahead(RightAbsorbed(h, sep, d), rest) == Ahead(h, [sep] + Ahead(d, rest))
    ensures Ahead(HoleFolded(d, sep, h), rest) == Ahead(d, [sep] + Ahead(h, rest))
    ensures Ahead(LeftAbsorbed(d, sep, h), rest) == Ahead(d, [sep] + Ahead(h, rest))
  {
    hide Ahead;
    AheadHole(h, [sep] + Ahead(d, rest));
    AheadHole(h, rest);
    AheadTwo(d, rest);
    AheadTwo(d, [sep] + Ahead(h, rest));
    AheadThree(RightAbsorbed(h, sep, d), rest);
    AheadThree(HoleFolded(d, sep, h), rest);
    AheadThree(LeftAbsorbed(d, sep, h), rest);
  }
}
