// The repair loop of CTree::deleteItem: it keeps the keys in order, and exactly
// when it leaves a 2-3 tree.
module TwoThreeRepair {
  import opened TwoThreeNode
  import opened TwoThreeShape
  import opened TwoThreeRegion
  import opened TwoThreeLocal
  import opened TwoThreeMerger
  import opened TwoThreeGlobal

  // Cases 15 to 17: the repair ends.
  predicate CanMerge(t: Tree) {
    MergesLeftHole(t) || MergesMiddleHole(t) || MergesRightHole(t)
  }

  function LocallyMerged(t: Tree): Tree
    requires CanMerge(t)
  {
    if MergesLeftHole(t) then Merged15(t)
    else if MergesMiddleHole(t) then Merged16(t)
    else Merged17(t)
  }

  // Cases 18 and 19: the parent is the next hole, with this only child.
  predicate CanHollow(t: Tree) {
    HollowsLeft(t) || HollowsRight(t)
  }

  function OnlyChild(t: Tree): Tree
    requires CanHollow(t)
  {
    if HollowsLeft(t) then RightAbsorbed(t.l, t.keys.k, t.r) else HoleFolded(t.l, t.keys.k, t.r)
  }

  // The tree after the loop, started at the node n with only child a at c. The
  // hole strictly rises.
  function Repaired(c: Context, n: CNode, a: Tree): Tree
    decreases c
  {
    if c.Top? then a
    else
      var t := Fill(c, Hole(n, a));
      if CanRotate(t) then Plug(c.up, Rotated(t))
      else if CanRotateGlobally(Plug(c.up, t), n) then GloballyRotated(Plug(c.up, t), n)
      else if CanMerge(t) then Plug(c.up, LocallyMerged(t))
      else if CanHollow(t) then Repaired(c.up, c.n, OnlyChild(t))
      else Plug(c.up, t)
  }

  // A rotation around the root is applied to an inner hole: it cannot be
  // filled there, because only a key arrives and no child.
  predicate Misfires(c: Context, n: CNode, a: Tree)
    decreases c
  {
    !c.Top? &&
    var t := Fill(c, Hole(n, a));
    !CanRotate(t) &&
    if CanRotateGlobally(Plug(c.up, t), n) then a.Node?
    else !CanMerge(t) && CanHollow(t) && Misfires(c.up, c.n, OnlyChild(t))
  }

  // ----- Trees that are perfect but for one hole -----

  ghost predicate AlmostPerfect(t: Tree, h: nat) {
    t.Node? && h > 0 &&
    if IsHole(t) then Perfect(t.l, h - 1)
    else
      !t.keys.NoKey? && (t.keys.OneKey? ==> t.m.Nil?) &&
      ((AlmostPerfect(t.l, h - 1) && (t.keys.TwoKeys? ==> Perfect(t.m, h - 1)) && Perfect(t.r, h - 1)) ||
       (t.keys.TwoKeys? && Perfect(t.l, h - 1) && AlmostPerfect(t.m, h - 1) && Perfect(t.r, h - 1)) ||
       (Perfect(t.l, h - 1) && (t.keys.TwoKeys? ==> Perfect(t.m, h - 1)) && AlmostPerfect(t.r, h - 1)))
  }

  lemma FillAlmost(c: Context, u: Tree, h: nat)
    requires !c.Top? && h > 0 && PerfectBeside(c, h - 1) && AlmostPerfect(u, h - 1)
    ensures AlmostPerfect(Fill(c, u), h)
  {
  }

  lemma {:induction false} PlugAlmost(c: Context, u: Tree, h: nat)
    requires PerfectAround(c, h) && AlmostPerfect(u, h)
    ensures AlmostPerfect(Plug(c, u), h + Depth(c))
    decreases c
  {
    if !c.Top? {
      FillAlmost(c, u, h + 1);
      PlugAlmost(c.up, Fill(c, u), h + 1);
    }
  }

  // ----- Local repairs: the parent's subtree becomes perfect, or a hole -----

  // c is the position of a hole with only child a, in a tree of which h is the
  // height at c.
  ghost predicate HoleAt(c: Context, a: Tree, h: nat) {
    h > 0 && Perfect(a, h - 1) && PerfectAround(c, h)
  }

  lemma RotatedPerfect(c: Context, n: CNode, a: Tree, h: nat)
    requires !c.Top? && HoleAt(c, a, h) && CanRotate(Fill(c, Hole(n, a)))
    ensures Perfect(Rotated(Fill(c, Hole(n, a))), h + 1)
  {
  }

  lemma MergedPerfect(c: Context, n: CNode, a: Tree, h: nat)
    requires !c.Top? && HoleAt(c, a, h)
    ensures var t := Fill(c, Hole(n, a));
      (CanRotate(t) || CanMerge(t) || CanHollow(t)) &&
      (CanMerge(t) ==> Perfect(LocallyMerged(t), h + 1)) &&
      (CanHollow(t) ==> Perfect(OnlyChild(t), h))
  {
  }

  // ----- The rotation around the root -----

  // The subtree at the node n.
  function SubtreeAt(t: Tree, n: CNode): (r: Tree)
    requires Count(t, n) > 0
    ensures r.Node? && r.n == n
  {
    if t.n == n then t
    else if Count(t.l, n) > 0 then SubtreeAt(t.l, n)
    else if Count(t.m, n) > 0 then SubtreeAt(t.m, n)
    else SubtreeAt(t.r, n)
  }

  lemma {:induction false} SubtreeAtCut(c: Context, u: Tree)
    requires u.Node? && Count(Plug(c, u), u.n) <= 1
    ensures Count(Plug(c, u), u.n) == 1 && SubtreeAt(Plug(c, u), u.n) == u
    decreases c
  {
    PlugCount(c, u, u.n);
    assert Count(u, u.n) > 0;
    if !c.Top? {
      SubtreeAtPlug(c.up, Fill(c, u), u.n);
      FillCount(c, u, u.n);
    }
  }

  lemma {:induction false} SubtreeAtPlug(c: Context, t: Tree, n: CNode)
    requires Count(t, n) > 0 && Count(Plug(c, t), n) <= 1
    ensures Count(Plug(c, t), n) == 1 && SubtreeAt(Plug(c, t), n) == SubtreeAt(t, n)
    decreases c
  {
    PlugCount(c, t, n);
    if !c.Top? {
      FillCount(c, t, n);
      SubtreeAtPlug(c.up, Fill(c, t), n);
    }
  }

  lemma {:induction false} SubtreeAtOutermost(t: Tree)
    requires t.Node?
    ensures var n := Rightmost(t).n; Count(t, n) == 1 ==> SubtreeAt(t, n) == Rightmost(t)
    ensures var n := Leftmost(t).n; Count(t, n) == 1 ==> SubtreeAt(t, n) == Leftmost(t)
  {
    OutermostCounts(t, NoKey, t.n);
    if t.r.Node? {
      OutermostCounts(t.r, NoKey, t.n);
      SubtreeAtOutermost(t.r);
    }
    if t.l.Node? {
      OutermostCounts(t.l, NoKey, t.n);
      SubtreeAtOutermost(t.l);
    }
  }

  lemma {:induction false} PerfectOutermost(t: Tree, h: nat)
    requires t.Node? && Perfect(t, h)
    ensures !Rightmost(t).keys.NoKey? && Rightmost(t).l.Nil? && Rightmost(t).m.Nil?
    ensures !Leftmost(t).keys.NoKey? && Leftmost(t).m.Nil? && Leftmost(t).r.Nil?
    ensures IsThree(Rightmost(t)) ==> forall k :: Perfect(WithRightmost(t, OneKey(k)), h)
    ensures IsThree(Leftmost(t)) ==> forall k :: Perfect(WithLeftmost(t, OneKey(k)), h)
  {
    if t.r.Node? { PerfectOutermost(t.r, h - 1); }
    if t.l.Node? { PerfectOutermost(t.l, h - 1); }
  }

  lemma {:induction false} AlmostRightmost(t: Tree, h: nat)
    requires AlmostPerfect(t, h) && Rightmost(t).keys.NoKey?
    ensures IsHole(Rightmost(t))
    ensures forall k :: Rightmost(t).l.Nil? ==> Perfect(WithRightmost(t, OneKey(k)), h)
    ensures forall k, h' :: Rightmost(t).l.Node? ==> !Perfect(WithRightmost(t, OneKey(k)), h')
  {
    if !IsHole(t) && t.r.Node? {
      if Perfect(t.r, h - 1) {
        PerfectOutermost(t.r, h - 1);
      } else {
        AlmostRightmost(t.r, h - 1);
      }
    }
  }

  lemma {:induction false} AlmostLeftmost(t: Tree, h: nat)
    requires AlmostPerfect(t, h) && Leftmost(t).keys.NoKey?
    ensures IsHole(Leftmost(t))
    ensures forall k :: Perfect(WithLeftmost(t, OneKey(k)), h)
  {
    if t.l.Node? {
      if Perfect(t.l, h - 1) {
        PerfectOutermost(t.l, h - 1);
      } else {
        AlmostLeftmost(t.l, h - 1);
      }
    }
  }

  // The node n is the tree's hole, and it occurs once.
  ghost predicate TheHole(t: Tree, h: nat, n: CNode) {
    AlmostPerfect(t, h) && !IsHole(t) && Count(t, n) == 1 && SubtreeAt(t, n).keys.NoKey?
  }

  // In the guards of cases 9 to 14, the outermost node of the child x is the hole.
  lemma HoleOutermost(t: Tree, h: nat, n: CNode, x: Tree)
    requires TheHole(t, h, n) && x in [t.l, t.m, t.r] && x.Node?
    ensures n == Rightmost(x).n ==> Rightmost(x) == SubtreeAt(t, n) && Rightmost(x).keys.NoKey?
    ensures n == Leftmost(x).n ==> Leftmost(x) == SubtreeAt(t, n) && Leftmost(x).keys.NoKey?
  {
    OutermostCounts(x, NoKey, n);
    SubtreeAtOutermost(x);
    NodeCounts(t, n);
  }

  // x holds the hole and its neighbours do not.
  lemma HoleInChild(t: Tree, h: nat, x: Tree)
    requires AlmostPerfect(t, h) && !IsHole(t) && x in [t.l, t.m, t.r] && x.Node?
    requires Rightmost(x).keys.NoKey? || Leftmost(x).keys.NoKey?
    ensures AlmostPerfect(x, h - 1)
    ensures x == t.l ==> (t.keys.TwoKeys? ==> Perfect(t.m, h - 1)) && Perfect(t.r, h - 1)
    ensures x == t.m ==> t.keys.TwoKeys? && Perfect(t.l, h - 1) && Perfect(t.r, h - 1)
    ensures x == t.r ==> Perfect(t.l, h - 1) && (t.keys.TwoKeys? ==> Perfect(t.m, h - 1))
  {
    if Perfect(x, h - 1) {
      PerfectOutermost(x, h - 1);
    }
  }

  // What the guards of cases 9, 11 and 14 give: the hole ends x, y starts with
  // a leaf of two keys.
  lemma KeyComesFromRight(t: Tree, h: nat, n: CNode, x: Tree, y: Tree)
    requires TheHole(t, h, n) && x in [t.l, t.m] && x.Node? && y.Node?
    requires n == Rightmost(x).n && IsThree(Leftmost(y))
    requires if t.keys.TwoKeys? then (x == t.l && y == t.m) || (x == t.m && y == t.r) else x == t.l && y == t.r
    ensures IsHole(Rightmost(x)) && Rightmost(x) == SubtreeAt(t, n) && Leftmost(y).m.Nil?
    ensures AlmostPerfect(x, h - 1) && Perfect(y, h - 1)
    ensures forall k :: Perfect(WithLeftmost(y, OneKey(k)), h - 1)
    ensures forall k :: SubtreeAt(t, n).l.Nil? ==> Perfect(WithRightmost(x, OneKey(k)), h - 1)
    ensures forall k, h' :: SubtreeAt(t, n).l.Node? ==> !Perfect(WithRightmost(x, OneKey(k)), h')
  {
    HoleOutermost(t, h, n, x);
    HoleInChild(t, h, x);
    AlmostRightmost(x, h - 1);
    PerfectOutermost(y, h - 1);
  }

  // Cases 10, 12 and 13: the hole is a leaf that starts y.
  lemma KeyComesFromLeft(t: Tree, h: nat, n: CNode, x: Tree, y: Tree)
    requires TheHole(t, h, n) && y in [t.m, t.r] && x.Node? && y.Node?
    requires n == Leftmost(y).n && IsThree(Rightmost(x))
    requires if t.keys.TwoKeys? then (x == t.l && y == t.m) || (x == t.m && y == t.r) else x == t.l && y == t.r
    ensures IsHole(Leftmost(y)) && Leftmost(y) == SubtreeAt(t, n) && SubtreeAt(t, n).l.Nil?
    ensures AlmostPerfect(y, h - 1) && Perfect(x, h - 1)
    ensures forall k :: Perfect(WithRightmost(x, OneKey(k)), h - 1)
    ensures forall k :: Perfect(WithLeftmost(y, OneKey(k)), h - 1)
  {
    HoleOutermost(t, h, n, y);
    HoleInChild(t, h, y);
    AlmostLeftmost(y, h - 1);
    PerfectOutermost(x, h - 1);
  }

  lemma {:induction false} AlmostIsNot(t: Tree, h: nat, h': nat)
    requires AlmostPerfect(t, h)
    ensures !Perfect(t, h')
  {
    if !IsHole(t) && Perfect(t, h') {
      if AlmostPerfect(t.l, h - 1) { AlmostIsNot(t.l, h - 1, h' - 1); }
      else if t.keys.TwoKeys? && AlmostPerfect(t.m, h - 1) { AlmostIsNot(t.m, h - 1, h' - 1); }
      else { AlmostIsNot(t.r, h - 1, h' - 1); }
    }
  }

  // The rotation around the root succeeds just for leaves.
  lemma GloballyRotatedPerfect(t: Tree, h: nat, n: CNode)
    requires TheHole(t, h, n) && CanRotateGlobally(t, n)
    ensures SubtreeAt(t, n).l.Nil? ==> Perfect(GloballyRotated(t, n), h)
    ensures SubtreeAt(t, n).l.Node? ==> forall h' :: !Perfect(GloballyRotated(t, n), h')
  {
    hide AlmostPerfect, SubtreeAt, Count, TheHole;
    AlmostNode(t, h, n);
    if Case9(t, n) {
      KeyComesFromRight(t, h, n, t.l, t.m);
      OtherChild(t, h, t.l);
    } else if Case10(t, n) {
      KeyComesFromLeft(t, h, n, t.l, t.m);
      OtherChild(t, h, t.m);
    } else if Case11(t, n) {
      KeyComesFromRight(t, h, n, t.m, t.r);
      OtherChild(t, h, t.m);
    } else if Case12(t, n) {
      KeyComesFromLeft(t, h, n, t.m, t.r);
      OtherChild(t, h, t.r);
    } else if Case13(t, n) {
      KeyComesFromLeft(t, h, n, t.l, t.r);
    } else {
      KeyComesFromRight(t, h, n, t.l, t.r);
    }
  }

  lemma AlmostNode(t: Tree, h: nat, n: CNode)
    requires TheHole(t, h, n)
    ensures h > 0 && AlmostPerfect(t, h) && !IsHole(t) && Count(t, n) == 1
  {
  }

  lemma OtherChild(t: Tree, h: nat, x: Tree)
    requires AlmostPerfect(t, h) && !IsHole(t) && x in [t.l, t.m, t.r] && AlmostPerfect(x, h - 1) && t.keys.TwoKeys?
    ensures x != t.l ==> Perfect(t.l, h - 1)
    ensures x != t.r ==> Perfect(t.r, h - 1)
  {
    AlmostIsNot(x, h - 1, h - 1);
  }

  // The rotation around the root moves no key out of order.
  lemma GloballyRotatedAhead(t: Tree, h: nat, n: CNode)
    requires TheHole(t, h, n) && CanRotateGlobally(t, n)
    ensures Ahead(GloballyRotated(t, n), []) == Ahead(t, [])
  {
    hide AlmostPerfect, SubtreeAt, Count, TheHole, Ahead;
    var t' := GloballyRotated(t, n);
    if t.keys.OneKey? {
      AheadTwo(t, []);
      AheadTwo(t', []);
      if Case13(t, n) {
        KeyComesFromLeft(t, h, n, t.l, t.r);
        KeyRightAhead(t.l, t.keys.k, t.r, []);
      } else {
        KeyComesFromRight(t, h, n, t.l, t.r);
        KeyLeftAhead(t.l, t.keys.k, t.r, []);
      }
    } else {
      AheadThree(t, []);
      AheadThree(t', []);
      var rest := [t.keys.k2] + Ahead(t.r, []);
      if Case9(t, n) {
        KeyComesFromRight(t, h, n, t.l, t.m);
        KeyLeftAhead(t.l, t.keys.k1, t.m, rest);
      } else if Case10(t, n) {
        KeyComesFromLeft(t, h, n, t.l, t.m);
        KeyRightAhead(t.l, t.keys.k1, t.m, rest);
      } else if Case11(t, n) {
        KeyComesFromRight(t, h, n, t.m, t.r);
        KeyLeftAhead(t.m, t.keys.k2, t.r, []);
      } else {
        KeyComesFromLeft(t, h, n, t.m, t.r);
        KeyRightAhead(t.m, t.keys.k2, t.r, []);
      }
    }
  }

  lemma SameAheadSameInorder(t: Tree, t': Tree)
    requires Ahead(t, []) == Ahead(t', [])
    ensures Inorder(t) == Inorder(t')
  {
    AheadInorder(t, []);
    AheadInorder(t', []);
    assert Inorder(t) + [] == Inorder(t) && Inorder(t') + [] == Inorder(t');
  }

  lemma LocallyMergedInorder(t: Tree)
    requires CanMerge(t)
    ensures Inorder(LocallyMerged(t)) == Inorder(t)
  {
    hide Ahead;
    var t' := LocallyMerged(t);
    AheadThree(t, []);
    AheadTwo(t', []);
    var rest := [t.keys.k2] + Ahead(t.r, []);
    if MergesLeftHole(t) {
      MergedAhead(t.l, t.keys.k1, t.m, rest);
    } else if MergesMiddleHole(t) {
      MergedAhead(t.m, t.keys.k1, t.l, rest);
    } else {
      MergedAhead(t.r, t.keys.k2, t.m, []);
    }
    SameAheadSameInorder(t, t');
  }

  lemma OnlyChildInorder(t: Tree)
    requires CanHollow(t)
    ensures Inorder(OnlyChild(t)) == Inorder(t)
  {
    hide Ahead;
    AheadTwo(t, []);
    if HollowsLeft(t) {
      MergedAhead(t.l, t.keys.k, t.r, []);
    } else {
      MergedAhead(t.r, t.keys.k, t.l, []);
    }
    SameAheadSameInorder(t, OnlyChild(t));
  }

  // ----- The loop -----

  // The nodes on the way from the cut to the root are in S.
  ghost predicate AroundIn(c: Context, S: set<CNode>) {
    c.Top? || (c.n in S && AroundIn(c.up, S))
  }

  lemma {:induction false} WithinPlug(c: Context, t: Tree, S: set<CNode>)
    requires Within(Plug(c, t), S)
    ensures Within(t, S) && AroundIn(c, S)
    decreases c
  {
    if !c.Top? {
      WithinPlug(c.up, Fill(c, t), S);
    }
  }

  // A hole at c, with nothing else wrong: what the loop keeps.
  ghost predicate Repairable(c: Context, n: CNode, a: Tree, h: nat, S: set<CNode>) {
    HoleAt(c, a, h) && Distinct(Plug(c, Hole(n, a)), S) && n in S && AroundIn(c, S)
  }

  lemma {:induction false} RootIsNoHole(c: Context, u: Tree, h: nat)
    requires !c.Top? && PerfectAround(c, h)
    ensures Plug(c, u).Node? && !Plug(c, u).keys.NoKey?
  {
    if !c.up.Top? {
      RootIsNoHole(c.up, Fill(c, u), h + 1);
    }
  }

  lemma HoleInPlug(c: Context, n: CNode, a: Tree, h: nat, S: set<CNode>)
    requires !c.Top? && Repairable(c, n, a, h, S)
    ensures TheHole(Plug(c, Hole(n, a)), h + Depth(c), n)
    ensures SubtreeAt(Plug(c, Hole(n, a)), n) == Hole(n, a)
  {
    PlugAlmost(c, Hole(n, a), h);
    SubtreeAtCut(c, Hole(n, a));
    RootIsNoHole(c, Hole(n, a), h);
  }

  lemma HollowedCounts(t: Tree, x: CNode)
    requires CanHollow(t)
    ensures Count(Hole(t.n, OnlyChild(t)), x) <= Count(t, x)
  {
    NodeCounts(t, x);
    NodeCounts(Hole(t.n, OnlyChild(t)), x);
    if HollowsLeft(t) {
      MergeCounts(t.n, t.l, t.keys.k, t.r, x);
    } else {
      MergeCounts(t.n, t.r, t.keys.k, t.l, x);
    }
  }

  // After case 18 or 19 the loop goes on in the same situation, one level up.
  lemma StillRepairable(c: Context, n: CNode, a: Tree, h: nat, S: set<CNode>)
    requires !c.Top? && Repairable(c, n, a, h, S) && CanHollow(Fill(c, Hole(n, a)))
    ensures Repairable(c.up, c.n, OnlyChild(Fill(c, Hole(n, a))), h + 1, S)
    ensures Inorder(Plug(c.up, Hole(c.n, OnlyChild(Fill(c, Hole(n, a)))))) == Inorder(Plug(c, Hole(n, a)))
  {
    var t := Fill(c, Hole(n, a));
    var u := Hole(c.n, OnlyChild(t));
    MergedPerfect(c, n, a, h);
    forall x | x in S ensures Count(Plug(c.up, u), x) <= 1 {
      PlugCount(c.up, u, x);
      PlugCount(c.up, t, x);
      HollowedCounts(t, x);
    }
    OnlyChildInorder(t);
    HoleInorder(c.n, OnlyChild(t));
    PlugInorder(c.up, t);
    PlugInorder(c.up, u);
  }

  lemma HoleInorder(n: CNode, a: Tree)
    ensures Inorder(Hole(n, a)) == Inorder(a)
  {
  }

  // Whatever happens, no key is lost or added and the order stays.
  lemma {:induction false} RepairedInorder(c: Context, n: CNode, a: Tree, h: nat, S: set<CNode>)
    requires Repairable(c, n, a, h, S)
    ensures Inorder(Repaired(c, n, a)) == Inorder(Plug(c, Hole(n, a)))
    decreases c
  {
    if c.Top? {
      HoleInorder(n, a);
    } else {
      RepairedInorderStep(c, n, a, h, S);
    }
  }

  lemma {:induction false} RepairedInorderStep(c: Context, n: CNode, a: Tree, h: nat, S: set<CNode>)
    requires !c.Top? && Repairable(c, n, a, h, S)
    ensures Inorder(Repaired(c, n, a)) == Inorder(Plug(c, Hole(n, a)))
    decreases c, 0
  {
    hide Repairable, Inorder, Count, TheHole;
    var t := Fill(c, Hole(n, a));
    PlugInorder(c.up, t);
    if CanRotate(t) {
      RotatedInorder(t);
      PlugInorder(c.up, Rotated(t));
    } else if CanRotateGlobally(Plug(c.up, t), n) {
      HoleInPlug(c, n, a, h, S);
      GloballyRotatedAhead(Plug(c.up, t), h + Depth(c), n);
      SameAheadSameInorder(GloballyRotated(Plug(c.up, t), n), Plug(c.up, t));
    } else if CanMerge(t) {
      LocallyMergedInorder(t);
      PlugInorder(c.up, LocallyMerged(t));
    } else if CanHollow(t) {
      StillRepairable(c, n, a, h, S);
      RepairedInorder(c.up, c.n, OnlyChild(t), h + 1, S);
    }
  }

  // The result is a 2-3 tree exactly if no rotation misfires.
  lemma {:induction false} RepairedPerfect(c: Context, n: CNode, a: Tree, h: nat, S: set<CNode>)
    requires Repairable(c, n, a, h, S)
    ensures !Misfires(c, n, a) ==> exists h' :: Perfect(Repaired(c, n, a), h')
    ensures Misfires(c, n, a) ==> forall h' :: !Perfect(Repaired(c, n, a), h')
    decreases c
  {
    hide AlmostPerfect, Inorder, TheHole;
    if c.Top? {
      assert Perfect(Repaired(c, n, a), h - 1);
    } else {
      var t := Fill(c, Hole(n, a));
      if CanRotate(t) {
        RotatedPerfect(c, n, a, h);
        PlugPerfect(c.up, Rotated(t), h + 1);
        assert Perfect(Repaired(c, n, a), h + 1 + Depth(c.up));
      } else if CanRotateGlobally(Plug(c.up, t), n) {
        HoleInPlug(c, n, a, h, S);
        GloballyRotatedPerfect(Plug(c.up, t), h + Depth(c), n);
        assert a.Nil? ==> Perfect(Repaired(c, n, a), h + Depth(c));
      } else {
        MergedPerfect(c, n, a, h);
        if CanMerge(t) {
          PlugPerfect(c.up, LocallyMerged(t), h + 1);
          assert Perfect(Repaired(c, n, a), h + 1 + Depth(c.up));
        } else {
          StillRepairable(c, n, a, h, S);
          RepairedPerfect(c.up, c.n, OnlyChild(t), h + 1, S);
          assert Repaired(c, n, a) == Repaired(c.up, c.n, OnlyChild(t));
        }
      }
    }
  }
}
