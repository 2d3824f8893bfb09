// Positions of keys, and the keys up to a position: what a step of
// CTree::getNextInorderKey adds to them, down to the leaf that begins the next child
// or up to the first node that has a key still to come.
module TwoThreeTraversal {
  import opened SortedKeys
  import opened TwoThreeNode
  import opened TwoThreeShape
  import opened TwoThreeGlobal
  import opened TwoThreeRepair
  import opened TwoThreeSearch
  import opened TwoThreeDeletion

  // The keys of the whole tree up to and including key, which is in the node
  // of t at c.
  function UpTo(c: Context, t: Tree, key: int): seq<int>
    requires t.Node?
  {
    BeforeKey(c, t, key) + [key]
  }

  // ----- Down: the successor is the first key of the next child -----

  // A leaf with two keys: from the first to the second.
  lemma NextInLeaf(c: Context, t: Tree)
    requires IsThree(t) && t.keys.k1 != t.keys.k2 && t.l.Nil? && t.m.Nil? && t.r.Nil?
    ensures UpTo(c, t, t.keys.k2) == UpTo(c, t, t.keys.k1) + [t.keys.k2]
  {
    assert Inorder(Nil) == [];
    assert Before(c) + ([] + [t.keys.k1] + []) + [t.keys.k2] == Before(c) + [] + [t.keys.k1] + [t.keys.k2];
  }

  // From a key of an inner node to the first key of the next child.
  lemma NextBelow(c: Context, t: Tree, key: int)
    requires IsTwo(t) || IsThree(t)
    requires InKeys(key, t.keys) && SuccessorChild(t, key).Node?
    requires !Leftmost(SuccessorChild(t, key)).keys.NoKey?
    ensures var child := SuccessorChild(t, key);
      var cut := LeftmostCut(SuccessorCut(c, t, key, t.keys), child);
      var next := Leftmost(child).keys.First()[0];
      UpTo(cut, Leftmost(child), next) == UpTo(c, t, key) + [next]
  {
    var child := SuccessorChild(t, key);
    var cut0 := SuccessorCut(c, t, key, t.keys);
    LeftmostCutPlug(cut0, child);
    assert Exchanged(t.keys, key, key) == t.keys;
    SuccessorCutKeys(c, t, key, key);
    assert Leftmost(child).l.Nil? && Inorder(Nil) == [];
    assert Before(cut0) + [] == Before(cut0);
  }

  // ----- Up: key is the last key below the cut -----

  // Every key below the cut is at most key.
  lemma ClimbFromLeft(c: Context, t: Tree)
    requires c.InLeft? && !c.keys.NoKey?
    ensures var k := c.keys.First()[0]; UpTo(c.up, Fill(c, t), k) == Before(c) + Inorder(t) + [k]
  {
    assert Before(c) == Before(c.up) + [] == Before(c.up);
  }

  lemma ClimbFromMiddle(c: Context, t: Tree)
    requires c.InMiddle? && c.keys.TwoKeys? && c.keys.k1 != c.keys.k2
    ensures UpTo(c.up, Fill(c, t), c.keys.k2) == Before(c) + Inorder(t) + [c.keys.k2]
  {
    var a, l, k1, i := Before(c.up), Inorder(c.l), c.keys.k1, Inorder(t);
    assert a + (l + [k1] + i) == a + (l + [k1]) + i;
  }

  lemma ClimbFromRight(c: Context, t: Tree)
    requires c.InRight?
    ensures Before(c) + Inorder(t) == Before(c.up) + Inorder(Fill(c, t))
  {
    hide Inorder, Fill, Left;
    FillInorder(c, t);
    Ends(Before(c.up), Left(c), Inorder(t));
  }

  lemma Ends(a: seq<int>, b: seq<int>, c: seq<int>)
    ensures a + (b + c + []) == (a + b) + c
  {
  }

  // The last key of a leaf.
  lemma LastOfLeaf(c: Context, t: Tree, key: int)
    requires t.Node? && t.l.Nil? && t.m.Nil? && t.r.Nil?
    requires t.keys == OneKey(key) || (t.keys.TwoKeys? && key == t.keys.k2 && key != t.keys.k1)
    ensures UpTo(c, t, key) == Before(c) + Inorder(t)
  {
    assert t == Node(t.n, t.keys, Nil, Nil, Nil);
    LeafInorder(t.n, t.keys);
    assert Inorder(Nil) == [];
    if t.keys.OneKey? {
      assert Before(c) + [] + [key] == Before(c) + ([key] + []);
    } else {
      assert Before(c) + ([] + [t.keys.k1] + []) + [key] == Before(c) + ([t.keys.k1] + [key]);
    }
  }

  // ----- Order around a position -----

  // What is below the cut is in order, and so are the parent's keys with it.
  lemma OrderAtCut(c: Context, t: Tree)
    requires !c.Top? && Sorted(Inorder(Plug(c, t)))
    ensures Sorted(Inorder(Fill(c, t)))
  {
    PlugInorder(c.up, Fill(c, t));
    MiddleSorted(Before(c.up), Inorder(Fill(c, t)), After(c.up));
  }

  lemma MiddleSorted(a: seq<int>, b: seq<int>, c: seq<int>)
    requires Sorted(a + b + c)
    ensures Sorted(b)
  {
    forall i, j | 0 <= i < j < |b| ensures b[i] < b[j] {
      assert (a + b + c)[|a| + i] == b[i] && (a + b + c)[|a| + j] == b[j];
    }
  }

  // The comparisons with which the climb recognises where it comes from.
  lemma ClimbOrder(c: Context, t: Tree, key: int)
    requires !c.Top? && (IsTwo(Fill(c, t)) || IsThree(Fill(c, t))) && Sorted(Inorder(Plug(c, t)))
    requires key in Inorder(t)
    ensures c.InLeft? ==> key < c.keys.First()[0]
    ensures c.InMiddle? && c.keys.TwoKeys? ==> c.keys.k1 < key < c.keys.k2
    ensures c.InRight? ==> c.keys.First()[0] < key && (c.keys.TwoKeys? ==> c.keys.k2 < key)
    ensures c.keys.TwoKeys? ==> c.keys.k1 < c.keys.k2
  {
    var u := Fill(c, t);
    OrderAtCut(c, t);
    if IsTwo(u) {
      TwoInorder(u);
      SortedParts(Inorder(u.l), u.keys.k, Inorder(u.r));
    } else {
      ThreeInorder(u);
      SortedThree(Inorder(u.l), u.keys.k1, Inorder(u.m), u.keys.k2, Inorder(u.r));
    }
  }

  // ----- Where a step of the iterator may be -----

  // The node t at c is in the tree and holds key.
  ghost predicate KeyAt(tree: Tree, c: Context, t: Tree, key: int) {
    t.Node? && Plug(c, t) == tree && InKeys(key, t.keys)
  }

  // A subtree of a 2-3 tree is one.
  lemma PartOfTree(c: Context, t: Tree)
    requires IsTree(Plug(c, t)) && t.Node?
    ensures Proper(t) && (IsTwo(t) || IsThree(t)) && (t.l.Nil? ==> t.m.Nil? && t.r.Nil?)
  {
    var h: nat :| Perfect(Plug(c, t), h);
    PlugHeight(c, t, h);
    PerfectProper(t, h - Depth(c));
  }

  lemma NodeSorted(c: Context, t: Tree)
    requires Sorted(Inorder(Plug(c, t)))
    ensures IsThree(t) ==> t.keys.k1 < t.keys.k2
  {
    PlugInorder(c, t);
    MiddleSorted(Before(c), Inorder(t), After(c));
    if IsThree(t) {
      ThreeInorder(t);
      SortedThree(Inorder(t.l), t.keys.k1, Inorder(t.m), t.keys.k2, Inorder(t.r));
    }
  }

  lemma NoKeys()
    ensures Inorder(Nil) == []
  {
  }

  // The position getMinNode starts from, and its first key.
  lemma FirstKey(tree: Tree, s: Store)
    requires tree.Node? && IsTree(tree) && Rep(tree, null, s)
    ensures var c, t := LeftmostCut(Top, tree), Leftmost(tree);
      t.n in s && KeyAt(tree, c, t, s[t.n].body.small) && UpTo(c, t, s[t.n].body.small) == [s[t.n].body.small]
  {
    var c, t := LeftmostCut(Top, tree), Leftmost(tree);
    LeftmostCutPlug(Top, tree);
    PartOfTree(c, t);
    PlugRep(c, t, s);
    assert Before(c) + Inorder(Nil) == [];
  }

  lemma KeyAmong(t: Tree, key: int)
    requires (IsTwo(t) || IsThree(t)) && InKeys(key, t.keys)
    ensures key in Inorder(t)
  {
    var l, r := Inorder(t.l), Inorder(t.r);
    if IsTwo(t) {
      TwoInorder(t);
      Members(l, key, r, key);
    } else {
      ThreeInorder(t);
      Members(Inorder(t.m), t.keys.k2, r, key);
      Members(l, t.keys.k1, Inorder(t.m) + [t.keys.k2] + r, key);
    }
  }

  // The keys up to a position begin the keys of the tree.
  lemma UpToBegins(c: Context, t: Tree, key: int)
    requires (IsTwo(t) || IsThree(t)) && InKeys(key, t.keys)
    ensures UpTo(c, t, key) <= Inorder(Plug(c, t))
  {
    hide Plug, Before, After;
    PlugInorder(c, t);
    var l, r, a, b := Inorder(t.l), Inorder(t.r), Before(c), After(c);
    if IsTwo(t) {
      TwoInorder(t);
      Begins(a, l, key, r, b);
    } else {
      ThreeInorder(t);
      var m := Inorder(t.m);
      if key == t.keys.k1 {
        Begins(a, l, key, m + [t.keys.k2] + r, b);
      } else {
        assert l + [t.keys.k1] + (m + [key] + r) == (l + [t.keys.k1] + m) + [key] + r;
        Begins(a, l + [t.keys.k1] + m, key, r, b);
      }
    }
  }

  lemma Begins(a: seq<int>, l: seq<int>, key: int, r: seq<int>, b: seq<int>)
    ensures (a + l) + [key] <= a + (l + [key] + r) + b
  {
    assert a + (l + [key] + r) + b == ((a + l) + [key]) + (r + b);
  }
}
