// CTree::deleteItem on trees: just the key goes, and a 2-3 tree is left exactly if
// no rotation around the root misfires.
module TwoThreeDeletion {
  import opened SortedKeys
  import opened TwoThreeNode
  import opened TwoThreeShape
  import opened TwoThreeRepair
  import opened TwoThreeGlobal
  import opened TwoThreeSearch

  // s without its first occurrence of key.
  function Without(s: seq<int>, key: int): seq<int> {
    if s == [] then []
    else if s[0] == key then s[1..]
    else [s[0]] + Without(s[1..], key)
  }

  lemma {:induction false} WithoutSplit(a: seq<int>, key: int, b: seq<int>)
    requires key !in a
    ensures Without(a + [key] + b, key) == a + b
  {
    var s := a + [key] + b;
    if a == [] {
      assert s[1..] == b && a + b == b;
    } else {
      assert s[0] == a[0] && s[1..] == a[1..] + [key] + b;
      WithoutSplit(a[1..], key, b);
      assert [a[0]] + (a[1..] + b) == a + b;
    }
  }

  // The keys of a leaf once key is gone.
  function Rest(keys: Keys, key: int): Keys
    requires InKeys(key, keys)
  {
    match keys
    case OneKey(_) => NoKey
    case TwoKeys(k1, k2) => if key == k1 then OneKey(k2) else OneKey(k1)
  }

  function Exchanged(keys: Keys, key: int, next: int): Keys {
    match keys
    case NoKey => NoKey
    case OneKey(_) => OneKey(next)
    case TwoKeys(k1, k2) => if key == k1 then TwoKeys(next, k2) else TwoKeys(k1, next)
  }

  // The child that holds the keys right after key: the middle one after the
  // first of two keys, else the right one.
  predicate SuccessorInMiddle(t: Tree, key: int)
    requires t.Node?
  {
    t.keys.TwoKeys? && key == t.keys.k1
  }

  function SuccessorChild(t: Tree, key: int): Tree
    requires t.Node?
  {
    if SuccessorInMiddle(t, key) then t.m else t.r
  }

  // Its position, when the node's keys are replaced by keys.
  function SuccessorCut(c: Context, t: Tree, key: int, keys: Keys): Context
    requires t.Node?
  {
    if SuccessorInMiddle(t, key) then InMiddle(c, t.n, keys, t.l, t.r) else InRight(c, t.n, keys, t.l, t.m)
  }

  // The position of the leftmost node below the cut.
  function LeftmostCut(c: Context, t: Tree): Context
    requires t.Node?
    decreases t
  {
    if t.l.Nil? then c else LeftmostCut(InLeft(c, t.n, t.keys, t.m, t.r), t.l)
  }

  lemma {:induction false} LeftmostCutPlug(c: Context, t: Tree)
    requires t.Node?
    ensures Plug(LeftmostCut(c, t), Leftmost(t)) == Plug(c, t)
    ensures Depth(LeftmostCut(c, t)) >= Depth(c)
    ensures Before(LeftmostCut(c, t)) == Before(c)
    decreases t
  {
    if t.l.Node? {
      LeftmostCutPlug(InLeft(c, t.n, t.keys, t.m, t.r), t.l);
    }
  }

  // A leaf, with key taken out: the node n at c keeps rest.
  datatype Site = Site(c: Context, n: CNode, rest: Keys)

  lemma {:induction false} ProperLeftmost(t: Tree)
    requires t.Node? && Proper(t)
    ensures !Leftmost(t).keys.NoKey?
  {
    if t.l.Node? { ProperLeftmost(t.l); }
  }

  // Where deleteItem takes the key out of a leaf: at the key itself, or at its
  // successor, which then stands in for the key in the inner node.
  function DeletionSite(c: Context, t: Tree, key: int): Site
    requires t.Node? && Proper(t) && InKeys(key, t.keys)
  {
    if t.l.Nil? then Site(c, t.n, Rest(t.keys, key))
    else
      var child := SuccessorChild(t, key);
      var leaf := Leftmost(child);
      ProperLeftmost(child);
      var next := leaf.keys.First()[0];
      Site(LeftmostCut(SuccessorCut(c, t, key, Exchanged(t.keys, key, next)), child), leaf.n, Rest(leaf.keys, next))
  }

  function LeafAt(site: Site): Tree {
    Node(site.n, site.rest, Nil, Nil, Nil)
  }

  // The tree deleteItem leaves, given the position t at c of the node with the key.
  function DeletedAt(site: Site): Tree {
    if site.rest.NoKey? then Repaired(site.c, site.n, Nil) else Plug(site.c, LeafAt(site))
  }

  // ----- Keys -----

  // What stands before the key in the whole tree.
  function BeforeKey(c: Context, t: Tree, key: int): seq<int>
    requires t.Node?
  {
    if t.keys.TwoKeys? && key == t.keys.k2 && key != t.keys.k1
    then Before(c) + (Inorder(t.l) + [t.keys.k1] + Inorder(t.m))
    else Before(c) + Inorder(t.l)
  }

  lemma SuccessorCutKeys(c: Context, t: Tree, key: int, next: int)
    requires IsTwo(t) || IsThree(t)
    requires InKeys(key, t.keys)
    ensures var cut := SuccessorCut(c, t, key, Exchanged(t.keys, key, next));
      Before(cut) == BeforeKey(c, t, key) + [next] && After(cut) == After(SuccessorCut(c, t, key, t.keys))
  {
    var cut := SuccessorCut(c, t, key, Exchanged(t.keys, key, next));
    assert Inorder(Nil) == [];
    if IsTwo(t) {
      assert Left(cut) == Inorder(t.l) + [next];
    } else if key == t.keys.k1 {
      assert Left(cut) == Inorder(t.l) + [next];
    } else {
      assert Left(cut) == Inorder(t.l) + [t.keys.k1] + Inorder(t.m) + [next];
    }
  }

  lemma LeafInorder(n: CNode, keys: Keys)
    ensures Inorder(Node(n, keys, Nil, Nil, Nil)) == keys.First() + keys.Second()
  {
  }

  lemma {:induction false} LeftmostCutKeys(c: Context, t: Tree, h: nat)
    requires t.Node? && Perfect(t, h)
    ensures var leaf := Leftmost(t);
      leaf.keys.First() + leaf.keys.Second() + After(LeftmostCut(c, t)) == Inorder(t) + After(c)
    decreases t
  {
    if t.l.Nil? {
      PerfectOutermost(t, h);
      assert t == Node(t.n, t.keys, Nil, Nil, Nil);
      LeafInorder(t.n, t.keys);
    } else {
      var c' := InLeft(c, t.n, t.keys, t.m, t.r);
      LeftmostCutKeys(c', t.l, h - 1);
      FillInorder(c', t.l);
      NoneBefore(Inorder(t.l), Right(c'), After(c));
    }
  }

  lemma NoneBefore(a: seq<int>, b: seq<int>, rest: seq<int>)
    ensures [] + a + b + rest == a + (b + rest)
  {
  }

  lemma TakeOut(a: seq<int>, key: int, b: seq<int>)
    ensures Sorted(a + [key] + b) ==> Without(a + [key] + b, key) == a + b
  {
    if Sorted(a + [key] + b) {
      SortedParts(a, key, b);
      WithoutSplit(a, key, b);
    }
  }

  lemma TakeFromLeaf(a: seq<int>, keys: Keys, key: int, b: seq<int>)
    requires InKeys(key, keys) && Sorted(a + (keys.First() + keys.Second()) + b)
    ensures var rest := Rest(keys, key);
      Without(a + (keys.First() + keys.Second()) + b, key) == a + (rest.First() + rest.Second()) + b
  {
    hide Without, Sorted;
    if keys.OneKey? {
      TakeOut(a, key, b);
      assert a + ([key] + []) + b == a + [key] + b && a + ([] + []) + b == a + b;
    } else if key == keys.k1 {
      TakeOut(a, key, [keys.k2] + b);
      assert a + ([key] + [keys.k2]) + b == a + [key] + ([keys.k2] + b);
      assert a + ([keys.k2] + []) + b == a + ([keys.k2] + b);
    } else {
      TakeOut(a + [keys.k1], key, b);
      assert a + ([keys.k1] + [key]) + b == a + [keys.k1] + [key] + b;
      assert a + ([keys.k1] + []) + b == a + [keys.k1] + b;
    }
  }

  lemma KeyAtLeaf(c: Context, t: Tree, key: int)
    requires t.Node? && Proper(t) && t.l.Nil? && InKeys(key, t.keys)
    requires Sorted(Inorder(Plug(c, t)))
    ensures var site := DeletionSite(c, t, key);
      Inorder(Plug(site.c, LeafAt(site))) == Without(Inorder(Plug(c, t)), key)
  {
    hide Inorder, Plug, Before, After, Without, Sorted;
    assert t == Node(t.n, t.keys, Nil, Nil, Nil);
    LeafInorder(t.n, t.keys);
    LeafInorder(t.n, Rest(t.keys, key));
    PlugInorder(c, t);
    PlugInorder(c, LeafAt(DeletionSite(c, t, key)));
    TakeFromLeaf(Before(c), t.keys, key, After(c));
  }

  // The key is replaced by next, with which what follows it begins.
  lemma TakeNext(a: seq<int>, key: int, next: int, child: seq<int>, after: seq<int>, kept: seq<int>, after': seq<int>)
    requires Sorted(a + [key] + child + after)
    requires [next] + kept + after' == child + after
    ensures Without(a + [key] + child + after, key) == a + [next] + kept + after'
  {
    hide Without, Sorted;
    assert a + [key] + child + after == a + [key] + (child + after);
    TakeOut(a, key, child + after);
    assert a + [next] + kept + after' == a + ([next] + kept + after');
  }

  lemma KeyInside(c: Context, t: Tree, key: int, h: nat)
    requires t.Node? && Perfect(t, h) && Proper(t) && t.l.Node? && InKeys(key, t.keys)
    requires Sorted(Inorder(Plug(c, t)))
    ensures var site := DeletionSite(c, t, key);
      Inorder(Plug(site.c, LeafAt(site))) == Without(Inorder(Plug(c, t)), key)
  {
    hide Inorder, Before, After, Without, Sorted, Leftmost, LeftmostCut;
    var child := SuccessorChild(t, key);
    var leaf := Leftmost(child);
    PerfectOutermost(child, h - 1);
    var next := leaf.keys.First()[0];
    var cut, cut' := SuccessorCut(c, t, key, t.keys), SuccessorCut(c, t, key, Exchanged(t.keys, key, next));
    var site := DeletionSite(c, t, key);
    assert t == Fill(cut, child) && cut.up == c;
    PlugInorder(cut, child);
    assert Exchanged(t.keys, key, key) == t.keys;
    SuccessorCutKeys(c, t, key, key);
    SuccessorCutKeys(c, t, key, next);
    LeftmostCutPlug(cut', child);
    LeftmostCutKeys(cut', child, h - 1);
    PlugInorder(site.c, LeafAt(site));
    LeafInorder(site.n, site.rest);
    var kept := site.rest.First() + site.rest.Second();
    assert leaf.keys.First() + leaf.keys.Second() == [next] + kept;
    TakeNext(BeforeKey(c, t, key), key, next, Inorder(child), After(cut), kept, After(site.c));
  }

  // ----- The whole operation -----

  predicate Has(t: Tree, key: int)
    requires t.Node? && Proper(t)
  {
    InKeys(key, Find(Top, t, key).1.keys)
  }

  function Deleted(t: Tree, key: int): Tree
    requires t.Node? && Proper(t) && Has(t, key)
  {
    var (c, u) := Find(Top, t, key);
    DeletedAt(DeletionSite(c, u, key))
  }

  // Deleting the key lets a rotation around the root misfire.
  predicate DeletionMisfires(t: Tree, key: int)
    requires t.Node? && Proper(t) && Has(t, key)
  {
    var (c, u) := Find(Top, t, key);
    var site := DeletionSite(c, u, key);
    site.rest.NoKey? && Misfires(site.c, site.n, Nil)
  }

  ghost predicate IsTree(t: Tree) {
    exists h :: Perfect(t, h)
  }

  lemma {:induction false} LeftmostCutAround(c: Context, t: Tree, h: nat)
    requires t.Node? && Perfect(t, h) && PerfectAround(c, h)
    ensures PerfectAround(LeftmostCut(c, t), 1)
    decreases t
  {
    if t.l.Nil? {
      assert h - 1 == 0;
    } else {
      LeftmostCutAround(InLeft(c, t.n, t.keys, t.m, t.r), t.l, h - 1);
    }
  }

  lemma SiteAround(c: Context, t: Tree, key: int, h: nat)
    requires t.Node? && Perfect(t, h) && PerfectAround(c, h) && Proper(t) && InKeys(key, t.keys)
    ensures PerfectAround(DeletionSite(c, t, key).c, 1)
  {
    if t.l.Node? {
      var child := SuccessorChild(t, key);
      ProperLeftmost(child);
      var next := Leftmost(child).keys.First()[0];
      LeftmostCutAround(SuccessorCut(c, t, key, Exchanged(t.keys, key, next)), child, h - 1);
    } else {
      assert h - 1 == 0;
    }
  }

  lemma SiteCounts(c: Context, t: Tree, key: int, x: CNode)
    requires t.Node? && Proper(t) && InKeys(key, t.keys)
    ensures var site := DeletionSite(c, t, key); Count(Plug(site.c, LeafAt(site)), x) == Count(Plug(c, t), x)
  {
    hide Leftmost, LeftmostCut, Count;
    var site := DeletionSite(c, t, key);
    PlugCount(c, t, x);
    if t.l.Nil? {
      PlugCount(c, LeafAt(site), x);
      NodeCounts(t, x);
      NodeCounts(LeafAt(site), x);
    } else {
      var child := SuccessorChild(t, key);
      var leaf := Leftmost(child);
      ProperLeftmost(child);
      LeftmostIsLeaf(child);
      var next := leaf.keys.First()[0];
      var cut := SuccessorCut(c, t, key, Exchanged(t.keys, key, next));
      LeftmostCutPlug(cut, child);
      PlugCount(site.c, LeafAt(site), x);
      PlugCount(site.c, leaf, x);
      NodeCounts(leaf, x);
      NodeCounts(LeafAt(site), x);
      PlugCount(c, Fill(cut, child), x);
      NodeCounts(t, x);
      NodeCounts(Fill(cut, child), x);
    }
  }

  lemma {:induction false} LeftmostIsLeaf(t: Tree)
    requires t.Node? && Proper(t)
    ensures Leftmost(t).m.Nil? && Leftmost(t).r.Nil?
  {
    if t.l.Node? { LeftmostIsLeaf(t.l); }
  }

  lemma {:induction false} LeftmostCutIn(c: Context, t: Tree, S: set<CNode>)
    requires t.Node? && Within(t, S) && AroundIn(c, S)
    ensures Leftmost(t).n in S && AroundIn(LeftmostCut(c, t), S)
    decreases t
  {
    if t.l.Node? { LeftmostCutIn(InLeft(c, t.n, t.keys, t.m, t.r), t.l, S); }
  }

  lemma SiteIn(c: Context, t: Tree, key: int, S: set<CNode>)
    requires t.Node? && Proper(t) && InKeys(key, t.keys) && Within(Plug(c, t), S)
    ensures var site := DeletionSite(c, t, key); site.n in S && AroundIn(site.c, S)
  {
    WithinPlug(c, t, S);
    if t.l.Node? {
      var child := SuccessorChild(t, key);
      ProperLeftmost(child);
      var next := Leftmost(child).keys.First()[0];
      LeftmostCutIn(SuccessorCut(c, t, key, Exchanged(t.keys, key, next)), child, S);
    }
  }

  // A leaf that runs empty is a hole the repair can start from.
  lemma SiteRepairable(c: Context, t: Tree, key: int, h: nat, S: set<CNode>)
    requires t.Node? && Proper(t) && InKeys(key, t.keys)
    requires Perfect(Plug(c, t), h) && Exact(Plug(c, t), S)
    ensures var site := DeletionSite(c, t, key);
      site.rest.NoKey? ==> LeafAt(site) == Hole(site.n, Nil) && Repairable(site.c, site.n, Nil, 1, S)
  {
    var site := DeletionSite(c, t, key);
    PlugHeight(c, t, h);
    SiteAround(c, t, key, h - Depth(c));
    SiteIn(c, t, key, S);
    if site.rest.NoKey? {
      forall x | x in S ensures Count(Plug(site.c, Hole(site.n, Nil)), x) <= 1 {
        SiteCounts(c, t, key, x);
      }
    }
  }

  // The keys after deleteItem are the old ones, in order, without the deleted one.
  lemma DeletedKeys(t: Tree, key: int, S: set<CNode>)
    requires t.Node? && IsTree(t) && Proper(t) && Sorted(Inorder(t)) && Exact(t, S)
    ensures Has(t, key) <==> key in Inorder(t)
    ensures Has(t, key) ==> Inorder(Deleted(t, key)) == Without(Inorder(t), key)
  {
    hide Inorder, Sorted, Without, Perfect;
    var h: nat :| Perfect(t, h);
    FindFinds(Top, t, key, h);
    var (c, u) := Find(Top, t, key);
    if Has(t, key) {
      var site := DeletionSite(c, u, key);
      SiteKeys(c, u, key, h);
      if site.rest.NoKey? {
        SiteRepairable(c, u, key, h, S);
        RepairedInorder(site.c, site.n, Nil, 1, S);
      }
    }
  }

  lemma SiteKeys(c: Context, t: Tree, key: int, h: nat)
    requires t.Node? && Proper(t) && InKeys(key, t.keys)
    requires Perfect(Plug(c, t), h) && Sorted(Inorder(Plug(c, t)))
    ensures var site := DeletionSite(c, t, key);
      Inorder(Plug(site.c, LeafAt(site))) == Without(Inorder(Plug(c, t)), key)
  {
    hide Inorder, Sorted, Without;
    PlugHeight(c, t, h);
    if t.l.Nil? {
      KeyAtLeaf(c, t, key);
    } else {
      KeyInside(c, t, key, h - Depth(c));
    }
  }

  // The tree after deleteItem is a 2-3 tree exactly if no rotation misfires.
  lemma DeletedShape(t: Tree, key: int, S: set<CNode>)
    requires t.Node? && IsTree(t) && Proper(t) && Sorted(Inorder(t)) && Exact(t, S) && Has(t, key)
    ensures IsTree(Deleted(t, key)) <==> !DeletionMisfires(t, key)
  {
    var h: nat :| Perfect(t, h);
    var (c, u) := Find(Top, t, key);
    var site := DeletionSite(c, u, key);
    SiteRepairable(c, u, key, h, S);
    if site.rest.NoKey? {
      RepairedPerfect(site.c, site.n, Nil, 1, S);
    } else {
      PlugHeight(c, u, h);
      SiteAround(c, u, key, h - Depth(c));
      assert Perfect(LeafAt(site), 1);
      PlugPerfect(site.c, LeafAt(site), 1);
    }
  }

  // ----- A tree of seven nodes, and a key whose deletion misfires -----

  function Leaf(n: CNode, k: int): Tree {
    Two(n, Nil, k, Nil)
  }

  function ExampleLeft(n: seq<CNode>): Tree
    requires |n| == 7
  {
    Two(n[1], Leaf(n[2], 1), 2, Leaf(n[3], 3))
  }

  function ExampleRight(n: seq<CNode>): Tree
    requires |n| == 7
  {
    Two(n[4], Three(n[5], Nil, 5, Nil, 6, Nil), 7, Leaf(n[6], 8))
  }

  function Example(n: seq<CNode>): Tree
    requires |n| == 7
  {
    Two(n[0], ExampleLeft(n), 4, ExampleRight(n))
  }

  lemma ExampleIsTree(n: seq<CNode>)
    requires |n| == 7
    ensures Perfect(Example(n), 3) && Proper(Example(n))
    ensures Inorder(Example(n)) == [1, 2, 3, 4, 5, 6, 7, 8]
  {
    assert Perfect(Leaf(n[2], 1), 1) && Perfect(Leaf(n[3], 3), 1) && Perfect(Leaf(n[6], 8), 1);
    assert Perfect(Three(n[5], Nil, 5, Nil, 6, Nil), 1);
    assert Perfect(ExampleLeft(n), 2) && Perfect(ExampleRight(n), 2);
    PerfectProper(Example(n), 3);
    LeafInorder(n[2], OneKey(1));
    LeafInorder(n[3], OneKey(3));
    LeafInorder(n[5], TwoKeys(5, 6));
    LeafInorder(n[6], OneKey(8));
    TwoInorder(ExampleLeft(n));
    TwoInorder(ExampleRight(n));
    TwoInorder(Example(n));
  }

  // The left child of the root becomes a hole with one child. It is the
  // rightmost node of its side by then, and the other side has a key to spare:
  // it gets a second key instead of a second child.
  lemma ExampleMisfires(n: seq<CNode>)
    requires |n| == 7 && forall i, j :: 0 <= i < j < 7 ==> n[i] != n[j]
    ensures var t, l := Example(n), ExampleLeft(n);
      var root := InLeft(Top, t.n, t.keys, t.m, t.r);
      var c := InLeft(root, l.n, l.keys, l.m, l.r);
      Misfires(c, n[2], Nil) && !IsTree(Repaired(c, n[2], Nil))
  {
    var t, l, r := Example(n), ExampleLeft(n), ExampleRight(n);
    var root := InLeft(Top, t.n, t.keys, t.m, t.r);
    var c := InLeft(root, l.n, l.keys, l.m, l.r);
    var a := Three(n[2], Nil, 2, Nil, 3, Nil);
    var hole := Hole(n[1], a);
    assert hole.r.Nil? && r.l.l.Nil?;
    assert Rightmost(hole) == hole;
    assert Leftmost(r) == r.l;
    assert Misfires(root, n[1], a);
    assert Rightmost(Fill(c, Hole(n[2], Nil))) == Leaf(n[3], 3);
    assert Plug(root, Fill(c, Hole(n[2], Nil))) == Two(n[0], Fill(c, Hole(n[2], Nil)), 4, r);
    assert n[2] != n[3] && n[2] != n[5];
    assert Misfires(c, n[2], Nil);
    assert Repaired(root, n[1], a).l == Node(n[1], OneKey(4), a, Nil, Nil);
    assert Repaired(c, n[2], Nil) == Repaired(root, n[1], a);
    forall h: nat ensures !Perfect(Repaired(c, n[2], Nil), h) {
      assert !Perfect(a, 0);
      assert h > 0 ==> !Perfect(Node(n[1], OneKey(4), a, Nil, Nil), h - 1);
    }
  }

  lemma MisfireExample(n: seq<CNode>)
    requires |n| == 7 && forall i, j :: 0 <= i < j < 7 ==> n[i] != n[j]
    ensures var t := Example(n);
      IsTree(t) && Proper(t) && Sorted(Inorder(t)) && Has(t, 1) && DeletionMisfires(t, 1) && !IsTree(Deleted(t, 1))
  {
    hide Misfires, Repaired;
    var t := Example(n);
    ExampleIsTree(n);
    ExampleMisfires(n);
    var cl := InLeft(Top, t.n, t.keys, t.m, t.r);
    var l := ExampleLeft(n);
    var c := InLeft(cl, l.n, l.keys, l.m, l.r);
    assert Find(c, Leaf(n[2], 1), 1) == (c, Leaf(n[2], 1));
    assert Find(cl, l, 1) == (c, Leaf(n[2], 1));
    assert Find(Top, t, 1) == (c, Leaf(n[2], 1));
    assert DeletionSite(c, Leaf(n[2], 1), 1) == Site(c, n[2], NoKey);
  }
}
