// Which deletions let CTree::globalRotation hit an inner hole, read off the tree
// before the call.
module TwoThreeMisfire {
  import opened SortedKeys
  import opened TwoThreeNode
  import opened TwoThreeShape
  import opened TwoThreeRegion
  import opened TwoThreeLocal
  import opened TwoThreeMerger
  import opened TwoThreeGlobal
  import opened TwoThreeSearch
  import opened TwoThreeRepair
  import opened TwoThreeDeletion

  // ----- What is read off the tree around a position -----

  // A node beside this one has a key to spare.
  predicate SiblingLends(c: Context) {
    match c
    case Top => false
    case InLeft(_, _, _, m, r) => IsThree(m) || IsThree(r)
    case InMiddle(_, _, _, l, r) => IsThree(l) || IsThree(r)
    case InRight(_, _, _, l, m) => IsThree(l) || IsThree(m)
  }

  // The parent and the only other child have one key each.
  predicate Starved(c: Context) {
    match c
    case Top => false
    case InLeft(_, _, keys, m, r) => keys.OneKey? && m.Nil? && IsTwo(r)
    case InMiddle(_, _, _, _, _) => false
    case InRight(_, _, keys, l, m) => keys.OneKey? && m.Nil? && IsTwo(l)
  }

  // The position of the root's child that this one is in.
  function ChildOfRoot(c: Context): (r: Context)
    requires !c.Top?
    ensures !r.Top? && r.up.Top?
  {
    if c.up.Top? then c else ChildOfRoot(c.up)
  }

  // Below the root's child, always to the right, or to the left.
  predicate EndsChild(c: Context) {
    !c.Top? && (c.up.Top? || (c.InRight? && EndsChild(c.up)))
  }

  predicate BeginsChild(c: Context) {
    !c.Top? && (c.up.Top? || (c.InLeft? && BeginsChild(c.up)))
  }

  predicate BeginsWithThree(t: Tree) {
    t.Node? && IsThree(Leftmost(t))
  }

  predicate EndsWithThree(t: Tree) {
    t.Node? && IsThree(Rightmost(t))
  }

  // The root's child ends here and the next one begins with a leaf of two keys.
  predicate NextLends(c: Context) {
    EndsChild(c) &&
    match ChildOfRoot(c)
    case InLeft(_, _, keys, m, r) => BeginsWithThree(if keys.TwoKeys? then m else r)
    case InMiddle(_, _, _, _, r) => BeginsWithThree(r)
    case InRight(_, _, _, _, _) => false
  }

  // The root's child begins here and the one before ends with a leaf of two keys.
  predicate PreviousLends(c: Context) {
    BeginsChild(c) &&
    match ChildOfRoot(c)
    case InLeft(_, _, _, _, _) => false
    case InMiddle(_, _, _, l, _) => EndsWithThree(l)
    case InRight(_, _, keys, l, m) => EndsWithThree(if keys.TwoKeys? then m else l)
  }

  // The position j levels up.
  function Up(c: Context, j: nat): Context
    requires j <= Depth(c)
  {
    if j == 0 then c else Up(c.up, j - 1)
  }

  // The hole rises j levels, through starved nodes only, the last time out of a left
  // child, to the end of a child of the root: nothing beside it there can lend, but
  // the leaf after it in the next child of the root can.
  predicate RisesToEnd(c: Context, j: nat) {
    0 < j < Depth(c) && (forall i :: 0 <= i < j ==> Starved(Up(c, i))) && Up(c, j - 1).InLeft? &&
    !SiblingLends(Up(c, j)) && NextLends(Up(c, j))
  }

  ghost predicate Strands(c: Context) {
    !PreviousLends(c) && exists j :: RisesToEnd(c, j)
  }

  // ----- The guards of the repair in these terms -----

  lemma LocalGuards(c: Context, n: CNode, a: Tree, h: nat)
    requires !c.Top? && HoleAt(c, a, h)
    ensures var t := Fill(c, Hole(n, a)); (CanRotate(t) <==> SiblingLends(c)) && (CanHollow(t) <==> Starved(c))
  {
  }

  // The subtree of the root's child with t at c.
  function ChildWith(c: Context, t: Tree): Tree
    requires !c.Top?
  {
    if c.up.Top? then t else ChildWith(c.up, Fill(c, t))
  }

  lemma {:induction false} PlugChild(c: Context, t: Tree)
    requires !c.Top?
    ensures Plug(c, t) == Fill(ChildOfRoot(c), ChildWith(c, t))
    decreases c
  {
    if c.up.Top? {
      assert Plug(c.up, Fill(c, t)) == Fill(c, t);
    } else {
      PlugChild(c.up, Fill(c, t));
    }
  }

  lemma {:induction false} AroundChild(c: Context, h: nat) returns (h': nat)
    requires !c.Top? && PerfectAround(c, h) && h > 0
    ensures h' > 0 && PerfectBeside(ChildOfRoot(c), h')
    decreases c
  {
    if c.up.Top? {
      h' := h;
    } else {
      h' := AroundChild(c.up, h + 1);
    }
  }

  // The node n is the rightmost of the root's child exactly if it is at its end.
  lemma {:induction false} EndsExactly(c: Context, t: Tree, n: CNode, h: nat)
    requires !c.Top? && PerfectAround(c, h) && h > 0 && t.Node? && Count(t, n) > 0 && Count(Plug(c, t), n) <= 1
    ensures ChildWith(c, t).Node? && Count(ChildWith(c, t), n) == 1
    ensures Rightmost(ChildWith(c, t)).n == n <==> EndsChild(c) && Rightmost(t).n == n
    ensures Leftmost(ChildWith(c, t)).n == n <==> BeginsChild(c) && Leftmost(t).n == n
    decreases c
  {
    PlugCount(c, t, n);
    if !c.up.Top? {
      var t' := Fill(c, t);
      FillCount(c, t, n);
      EndsExactly(c.up, t', n, h + 1);
      NodeCounts(t', n);
      if !c.InRight? { OutermostCounts(t'.r, NoKey, n); }
      if !c.InLeft? { OutermostCounts(t'.l, NoKey, n); }
    }
  }

  // The node n is in the root's child at e only.
  lemma RootGuards(e: Context, x: Tree, n: CNode, h: nat)
    requires !e.Top? && e.up.Top? && h > 0 && PerfectBeside(e, h) && x.Node? && Count(x, n) == 1 && Count(Fill(e, x), n) <= 1
    ensures CanRotateGlobally(Fill(e, x), n) <==>
      (n == Rightmost(x).n && NextLends(e)) || (n == Leftmost(x).n && PreviousLends(e))
  {
    var t := Fill(e, x);
    NodeCounts(t, n);
    assert ChildOfRoot(e) == e;
    if !e.InLeft? { OutermostCounts(t.l, NoKey, n); }
    if !e.InRight? { OutermostCounts(t.r, NoKey, n); }
    if !e.InMiddle? && t.m.Node? { OutermostCounts(t.m, NoKey, n); }
  }

  lemma GlobalGuards(c: Context, n: CNode, a: Tree, h: nat, S: set<CNode>)
    requires !c.Top? && Repairable(c, n, a, h, S)
    ensures CanRotateGlobally(Plug(c, Hole(n, a)), n) <==> NextLends(c) || (a.Nil? && PreviousLends(c))
  {
    hide CanRotateGlobally, CountAround, Repaired;
    var u := Hole(n, a);
    SubtreeAtCut(c, u);
    EndsExactly(c, u, n, h);
    var h' := AroundChild(c, h);
    PlugChild(c, u);
    RootGuards(ChildOfRoot(c), ChildWith(c, u), n, h');
    LeftmostOfHole(n, a, c, S, h);
  }

  // An inner hole is not the leftmost node below itself.
  lemma LeftmostOfHole(n: CNode, a: Tree, c: Context, S: set<CNode>, h: nat)
    requires Repairable(c, n, a, h, S)
    ensures Leftmost(Hole(n, a)).n == n <==> a.Nil?
  {
    if a.Node? {
      PlugCount(c, Hole(n, a), n);
      NodeCounts(Hole(n, a), n);
      OutermostCounts(a, NoKey, n);
    }
  }

  // ----- The repair in these terms -----

  // An inner hole at c makes a rotation misfire.
  predicate Rises(c: Context) {
    !c.Top? && !SiblingLends(c) && (NextLends(c) || (Starved(c) && Rises(c.up)))
  }

  lemma {:induction false} InnerMisfires(c: Context, n: CNode, a: Tree, h: nat, S: set<CNode>)
    requires Repairable(c, n, a, h, S) && a.Node?
    ensures Misfires(c, n, a) <==> Rises(c)
    decreases c
  {
    hide CanRotate, CanRotateGlobally, CanMerge, CanHollow, SiblingLends, NextLends, Starved, Repairable;
    if !c.Top? {
      InnerStep(c, n, a, h, S);
      if CanHollow(Fill(c, Hole(n, a))) {
        InnerMisfires(c.up, c.n, OnlyChild(Fill(c, Hole(n, a))), h + 1, S);
      }
    }
  }

  lemma InnerStep(c: Context, n: CNode, a: Tree, h: nat, S: set<CNode>)
    requires !c.Top? && Repairable(c, n, a, h, S)
    ensures var t := Fill(c, Hole(n, a));
      (CanRotate(t) <==> SiblingLends(c)) && (CanHollow(t) <==> Starved(c)) && (CanMerge(t) ==> !CanHollow(t)) &&
      (CanRotateGlobally(Plug(c.up, t), n) <==> NextLends(c) || (a.Nil? && PreviousLends(c))) &&
      (CanHollow(t) ==> OnlyChild(t).Node? && Repairable(c.up, c.n, OnlyChild(t), h + 1, S))
  {
    LocalGuards(c, n, a, h);
    GlobalGuards(c, n, a, h, S);
    if CanHollow(Fill(c, Hole(n, a))) { StillRepairable(c, n, a, h, S); }
  }

  lemma LeafMisfires(c: Context, n: CNode, S: set<CNode>)
    requires Repairable(c, n, Nil, 1, S)
    ensures Misfires(c, n, Nil) <==> Starved(c) && !SiblingLends(c) && !NextLends(c) && !PreviousLends(c) && Rises(c.up)
  {
    hide CanRotate, CanRotateGlobally, CanMerge, CanHollow, SiblingLends, NextLends, Repairable, PreviousLends;
    if !c.Top? {
      InnerStep(c, n, Nil, 1, S);
      var t := Fill(c, Hole(n, Nil));
      if CanHollow(t) {
        InnerMisfires(c.up, c.n, OnlyChild(t), 2, S);
      }
    }
  }

  // ----- How far the hole rises -----

  lemma {:induction false} RisesUp(c: Context) returns (j: nat)
    requires Starved(c) && !NextLends(c) && Rises(c.up)
    ensures RisesToEnd(c, j)
    decreases c
  {
    hide SiblingLends;
    if NextLends(c.up) {
      j := 1;
      assert Up(c, 0) == c && Up(c, 1) == c.up;
    } else {
      j := RisesUp(c.up);
      j := j + 1;
      forall i | 0 <= i < j ensures Starved(Up(c, i)) {
        assert i > 0 ==> Up(c, i) == Up(c.up, i - 1);
      }
    }
  }

  lemma {:induction false} RisesDown(c: Context, j: nat)
    requires RisesToEnd(c, j)
    ensures Starved(c) && !SiblingLends(c) && !NextLends(c) && Rises(c.up)
    decreases j
  {
    assert Up(c, 0) == c && Up(c, 1) == c.up;
    if j > 1 {
      forall i | 0 <= i < j - 1 ensures Starved(Up(c.up, i)) {
        assert Up(c, i + 1) == Up(c.up, i);
      }
      RisesDown(c.up, j - 1);
    }
  }

  // A deletion leaves no 2-3 tree exactly if a leaf runs empty and the hole strands.
  lemma MisfiresExactly(t: Tree, key: int, S: set<CNode>)
    requires t.Node? && IsTree(t) && Proper(t) && Sorted(Inorder(t)) && Exact(t, S) && Has(t, key)
    ensures var (c, u) := Find(Top, t, key);
      var site := DeletionSite(c, u, key);
      !IsTree(Deleted(t, key)) <==> site.rest.NoKey? && Strands(site.c)
  {
    hide Misfires, Rises, RisesToEnd, PreviousLends, Repairable, Perfect, Inorder, Sorted;
    var (c, u) := Find(Top, t, key);
    var site := DeletionSite(c, u, key);
    DeletedShape(t, key, S);
    if site.rest.NoKey? {
      var h: nat :| Perfect(t, h);
      SiteRepairable(c, u, key, h, S);
      LeafMisfires(site.c, site.n, S);
      if Misfires(site.c, site.n, Nil) {
        var j := RisesUp(site.c);
      }
      if j :| RisesToEnd(site.c, j) {
        RisesDown(site.c, j);
      }
    }
  }
}
