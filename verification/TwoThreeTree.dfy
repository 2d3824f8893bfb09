// CTree<T> (CTree.h) for integer keys: its methods on nodes with parent links,
// proved against the functions of the other modules: search, the three iterators and
// print, deletion, insertion and removeAll.
module TwoThreeTree {
  import opened SortedKeys
  import opened TwoThreeNode
  import opened TwoThreeShape
  import opened TwoThreeRotation
  import opened TwoThreeRegion
  import opened TwoThreeLocal
  import opened TwoThreeMerger
  import opened TwoThreeGlobal
  import opened TwoThreeRepair
  import opened TwoThreeSearch
  import opened TwoThreeDeletion
  import opened TwoThreeTraversal
  import opened TwoThreeOrders
  import opened TwoThreeWhole
  import opened TwoThreeInsertion
  import opened TwoThreeGrowth

  class CTree {
    var root: CNode?
    ghost var nodes: set<CNode>
    ghost var tree: Tree

    // The nodes hold the tree, each node once, and no other node exists.
    ghost predicate Holds()
      reads this, nodes
    {
      root == Root(tree) && Rep(tree, null, At(nodes)) && Exact(tree, nodes)
    }

    ghost predicate Valid()
      reads this, nodes
    {
      Holds() && IsTree(tree) && Sorted(Inorder(tree))
    }

    constructor ()
      ensures Valid() && tree == Nil && nodes == {}
    {
      root, nodes, tree := null, {}, Nil;
      new;
      assert Perfect(Nil, 0);
    }

    method GetMinNode(node: CNode, ghost t: Tree, ghost q: CNode?) returns (r: CNode)
      requires Rep(t, q, At(nodes)) && t.Node? && t.n == node
      ensures r == Leftmost(t).n && r in nodes
    {
      NothingLogged(nodes);
      ghost var log;
      r, log := GetMinNodeLogged(node, t, q, [], []);
    }

    // The same with every read in the log.
    method GetMinNodeLogged(node: CNode, ghost t: Tree, ghost q: CNode?, ghost log: seq<Access>, ghost deleted: seq<CNode>)
      returns (r: CNode, ghost log': seq<Access>)
      requires Rep(t, q, At(nodes)) && t.Node? && t.n == node && Logged(log, deleted, nodes)
      ensures r == Leftmost(t).n && r in nodes && Logged(log', deleted, nodes)
    {
      hide Logged;
      r := node;
      ghost var u, p := t, q;
      RepNode(u, p, At(nodes));
      var childNode;
      childNode, log' := ChildOf(r, LeftChild, log, deleted);
      while childNode != null
        invariant u.Node? && Rep(u, p, At(nodes)) && u.n == r && r in nodes && Leftmost(u) == Leftmost(t)
        invariant childNode == r.children.left == Root(u.l) && Logged(log', deleted, nodes)
        decreases u
      {
        r := childNode;
        p, u := u.n, u.l;
        RepNode(u, p, At(nodes));
        childNode, log' := ChildOf(r, LeftChild, log', deleted);
      }
    }

    // Reads and deletions that are logged: only of nodes that are there.
    method ChildOf(n: CNode, d: Direction, ghost log: seq<Access>, ghost deleted: seq<CNode>)
      returns (c: CNode?, ghost log': seq<Access>)
      requires n in nodes && Logged(log, deleted, nodes)
      ensures c == n.children.Get(d) && log' == log + [Read(n)] && Logged(log', deleted, nodes)
    {
      c := n.GetChild(d, nodes);
      log' := log + [Read(n)];
      LogRead(log, deleted, nodes, n);
    }

    method ParentOf(n: CNode, ghost log: seq<Access>, ghost deleted: seq<CNode>)
      returns (p: CNode?, ghost log': seq<Access>)
      requires n in nodes && Logged(log, deleted, nodes)
      ensures p == n.parent && log' == log + [Read(n)] && Logged(log', deleted, nodes)
    {
      p := n.GetParent(nodes);
      log' := log + [Read(n)];
      LogRead(log, deleted, nodes, n);
    }

    method DeleteNode(n: CNode, ghost log: seq<Access>, ghost deleted: seq<CNode>)
      returns (ghost log': seq<Access>, ghost deleted': seq<CNode>)
      requires n in nodes && Logged(log, deleted, nodes)
      modifies this`nodes
      ensures nodes == old(nodes) - {n} && deleted' == deleted + [n]
      ensures log' == log + [Delete(n)] && Logged(log', deleted', nodes)
    {
      LogDelete(log, deleted, nodes, n);
      nodes := nodes - {n};
      log', deleted' := log + [Delete(n)], deleted + [n];
    }

    method GetMaxNode(node: CNode, ghost t: Tree, ghost q: CNode?) returns (r: CNode)
      requires Rep(t, q, At(nodes)) && t.Node? && t.n == node
      ensures r == Rightmost(t).n && r in nodes
    {
      r := node;
      ghost var u, p := t, q;
      RepNode(u, p, At(nodes));
      while r.children.right != null
        invariant u.Node? && Rep(u, p, At(nodes)) && u.n == r && r in nodes && Rightmost(u) == Rightmost(t)
        invariant r.children.right == Root(u.r)
        decreases u
      {
        r := r.children.right;
        p, u := u.n, u.r;
        RepNode(u, p, At(nodes));
      }
    }

    // Search for key. The node found is the one the function Find names.
    method Search(key: int) returns (code: Code, nodeFound: CNode?, isFound: bool)
      requires Valid()
      ensures root == null ==> code == IsEmpty && !isFound
      ensures root != null ==>
        code == Success && Proper(tree) && nodeFound == Find(Top, tree, key).1.n && (isFound <==> Has(tree, key))
    {
      hide Rep, Inorder, Sorted, Perfect, Exact, Find, Plug, Proper, Next;
      isFound := false;
      nodeFound := null;
      if root == null {
        code := IsEmpty;
        return;
      }
      ghost var h: nat :| Perfect(tree, h);
      PerfectProper(tree, h);
      PlugTop(tree);
      var current := root;
      ghost var c, t := Top, tree;
      code := Failure;
      while nodeFound == null
        invariant t.Node? && t.n == current && Plug(c, t) == tree && Proper(t)
        invariant Find(c, t, key) == Find(Top, tree, key)
        invariant nodeFound == null ==> !isFound
        invariant nodeFound != null ==>
          code == Success && t.n == nodeFound && (c, t) == Find(c, t, key) && (isFound <==> InKeys(key, t.keys))
        decreases if nodeFound == null then 1 else 0, t
      {
        SearchSees(c, t, nodes);
        SearchNext(c, t, key);
        var eSearchDirection := LeftChild;
        if key == current.smallKey || (current.GetSize() == ThreeNode && key == current.bigKey) {
          isFound := true;
          nodeFound := current;
          code := Success;
        } else if key < current.smallKey {
          eSearchDirection := LeftChild;
        } else if (current.GetSize() == ThreeNode && key > current.bigKey) ||
                  (current.GetSize() == TwoNode && key > current.smallKey) {
          eSearchDirection := RightChild;
        } else {
          eSearchDirection := MiddleChild;
        }
        if !isFound {
          ghost var (c', t') := Next(c, t, key);
          var child := current.children.Get(eSearchDirection);
          assert child == Root(t');
          if child == null {
            nodeFound := current;
            code := Success;
          } else {
            current := child;
            c, t := c', t';
          }
        }
      }
    }

    // ----- The keys in order -----

    // From the key in the node t at c to the next one, or to null after the last.
    method GetNextInorderKey(node: CNode, key: int, ghost c: Context, ghost t: Tree)
      returns (r: CNode?, next: int, ghost c': Context, ghost t': Tree)
      requires Valid() && KeyAt(tree, c, t, key) && t.n == node
      ensures r == null ==> t.l.Nil? && UpTo(c, t, key) == Inorder(tree)
      ensures r != null ==> KeyAt(tree, c', t', next) && t'.n == r && UpTo(c', t', next) == UpTo(c, t, key) + [next]
      ensures t.l.Node? && SuccessorChild(t, key).Node? ==>
        r == Leftmost(SuccessorChild(t, key)).n && t' == Leftmost(SuccessorChild(t, key)) &&
        !t'.keys.NoKey? && next == t'.keys.First()[0]
    {
      hide Rep, Inorder, UpTo, Sorted, Plug, IsTree;
      r, next, c', t' := node, key, c, t;
      PartOfTree(c, t);
      NodeSorted(c, t);
      PlugRep(c, t, At(nodes));
      RepNode(t, Parent(c), At(nodes));
      Sized(t, Parent(c), At(nodes));
      ghost var child := SuccessorChild(t, key);
      if r.GetSize() == ThreeNode && key == r.smallKey {
        if r.IsLeaf() {
          next := r.bigKey;
          NextInLeaf(c, t);
        } else {
          r, c', t' := FirstBelow(r.children.middle, c, t, key);
          next := r.smallKey;
        }
      } else if !r.IsLeaf() && ((r.GetSize() == TwoNode && key == r.smallKey) ||
                                (r.GetSize() == ThreeNode && key == r.bigKey)) {
        r, c', t' := FirstBelow(r.children.right, c, t, key);
        next := r.smallKey;
      } else {
        LastOfLeaf(c, t, key);
        r, next, c', t' := Climb(node, key, c, t);
      }
    }

    // getMinNode of the child that follows the key.
    method FirstBelow(childNode: CNode?, ghost c: Context, ghost t: Tree, ghost key: int)
      returns (r: CNode, ghost c': Context, ghost t': Tree)
      requires Valid() && KeyAt(tree, c, t, key) && SuccessorChild(t, key).Node? && SuccessorChild(t, key).n == childNode
      ensures t' == Leftmost(SuccessorChild(t, key)) && t'.n == r && r in nodes
      ensures !t'.keys.NoKey? && t'.keys.First()[0] == r.smallKey && KeyAt(tree, c', t', r.smallKey)
      ensures UpTo(c', t', r.smallKey) == UpTo(c, t, key) + [r.smallKey]
    {
      hide Rep, Inorder, UpTo, Sorted, IsTree;
      ghost var child := SuccessorChild(t, key);
      ghost var cut := SuccessorCut(c, t, key, t.keys);
      assert Fill(cut, child) == t;
      PartOfTree(c, t);
      PartOfTree(cut, child);
      PlugRep(cut, child, At(nodes));
      c', t' := LeftmostCut(cut, child), Leftmost(child);
      LeftmostCutPlug(cut, child);
      ProperLeftmost(child);
      r := GetMinNode(childNode, child, t.n);
      PlugRep(c', t', At(nodes));
      RepNode(t', Parent(c'), At(nodes));
      NextBelow(c, t, key);
    }

    // The loop: key is the last key of t.
    method Climb(node: CNode, key: int, ghost c: Context, ghost t: Tree)
      returns (r: CNode?, next: int, ghost c': Context, ghost t': Tree)
      requires Valid() && KeyAt(tree, c, t, key) && t.n == node && UpTo(c, t, key) == Before(c) + Inorder(t)
      ensures r == null ==> UpTo(c, t, key) == Inorder(tree)
      ensures r != null ==> KeyAt(tree, c', t', next) && t'.n == r && UpTo(c', t', next) == UpTo(c, t, key) + [next]
    {
      hide Rep, UpTo, Sorted, IsTree, Plug;
      r, next, c', t' := node, key, c, t;
      PartOfTree(c, t);
      KeyAmong(t, key);
      var bFinished := false;
      while !bFinished
        invariant !bFinished ==> next == key && r != null && t'.Node? && t'.n == r && Plug(c', t') == tree
        invariant !bFinished ==> key in Inorder(t') && UpTo(c, t, key) == Before(c') + Inorder(t')
        invariant bFinished && r == null ==> UpTo(c, t, key) == Inorder(tree)
        invariant bFinished && r != null ==>
          KeyAt(tree, c', t', next) && t'.n == r && UpTo(c', t', next) == UpTo(c, t, key) + [next]
        decreases if bFinished then 0 else 1, c'
      {
        PlugRep(c', t', At(nodes));
        RepNode(t', Parent(c'), At(nodes));
        r := r.parent;
        if r == null {
          AllAtTop(c', t');
          bFinished := true;
        } else {
          ghost var up := Fill(c', t');
          PlugStep(c', t');
          PartOfTree(c'.up, up);
          RepNode(up, Parent(c'.up), At(nodes));
          Sized(up, Parent(c'.up), At(nodes));
          ClimbOrder(c', t', key);
          if key < r.smallKey {
            ClimbFromLeft(c', t');
            next := r.smallKey;
            bFinished := true;
          } else if r.GetSize() == ThreeNode && key < r.bigKey {
            ClimbFromMiddle(c', t');
            next := r.bigKey;
            bFinished := true;
          } else {
            ClimbFromRight(c', t');
            FillInorder(c', t');
          }
          c', t' := c'.up, up;
        }
      }
    }

    // ----- The keys in postorder and preorder -----

    // getMinNode of the subtree u at cut, in terms of positions.
    method FirstOf(childNode: CNode?, ghost cut: Context, ghost u: Tree) returns (r: CNode, ghost c': Context, ghost t': Tree)
      requires Valid() && Plug(cut, u) == tree && u.Node? && u.n == childNode
      ensures t' == Leftmost(u) && c' == LeftmostCut(cut, u) && t'.n == r && r in nodes && KeyAt(tree, c', t', r.smallKey)
      ensures PostUpTo(c', t', r.smallKey) == PostBefore(cut) + [r.smallKey]
    {
      hide Rep, Inorder, Sorted, IsTree, PostUpTo;
      PartOfTree(cut, u);
      PlugRep(cut, u, At(nodes));
      PostLeftmost(cut, u);
      c', t' := LeftmostCut(cut, u), Leftmost(u);
      r := GetMinNode(childNode, u, Parent(cut));
      PlugRep(c', t', At(nodes));
      RepNode(t', Parent(c'), At(nodes));
    }

    // What an iterator sees of the parent: p is its subtree.
    lemma ParentSeen(c: Context, t: Tree)
      requires Valid() && t.Node? && Plug(c, t) == tree
      ensures t.n in nodes && t.n.parent == Parent(c)
      ensures !c.Top? ==>
        var p := Fill(c, t);
        Plug(c.up, p) == tree && p.n in nodes && (IsTwo(p) || IsThree(p)) && (IsThree(p) ==> p.keys.k1 != p.keys.k2) &&
        p.n.children == Children(Root(p.l), Root(p.m), Root(p.r)) &&
        p.n.GetSize() == (if IsThree(p) then ThreeNode else TwoNode) && p.n.smallKey == p.keys.First()[0] &&
        (IsThree(p) ==> p.n.bigKey == p.keys.k2) && p.l.Node? && p.r.Node? && (IsThree(p) <==> p.m.Node?) &&
        (c.InLeft? <==> Root(p.l) == t.n) && (c.InMiddle? <==> Root(p.m) == t.n) && (c.InRight? <==> Root(p.r) == t.n)
    {
      hide Rep, Inorder, Sorted, IsTree, Exact;
      PlugRep(c, t, At(nodes));
      RepNode(t, Parent(c), At(nodes));
      if !c.Top? {
        var p := Fill(c, t);
        PlugStep(c, t);
        PartOfTree(c.up, p);
        NodeSorted(c.up, p);
        RepNode(p, Parent(c.up), At(nodes));
        Sized(p, Parent(c.up), At(nodes));
        ChildrenApart(c, t, nodes);
        ProperInner(p);
      }
    }

    method GetNextPostorderKey(node: CNode, key: int, ghost c: Context, ghost t: Tree)
      returns (r: CNode?, next: int, ghost c': Context, ghost t': Tree)
      requires Valid() && KeyAt(tree, c, t, key) && t.n == node
      ensures r == null ==> PostUpTo(c, t, key) == Post(tree)
      ensures r != null ==> KeyAt(tree, c', t', next) && t'.n == r && PostUpTo(c', t', next) == PostUpTo(c, t, key) + [next]
    {
      hide Rep, Inorder, Sorted, IsTree, Exact, Plug, Post;
      next, c', t' := key, c, t;
      PartOfTree(c, t);
      NodeSorted(c, t);
      PlugRep(c, t, At(nodes));
      RepNode(t, Parent(c), At(nodes));
      Sized(t, Parent(c), At(nodes));
      if node.GetSize() == ThreeNode && key == node.smallKey {
        if node.IsLeaf() {
          PostInLeaf(c, t);
          r, next := node, node.bigKey;
        } else {
          ProperInner(t);
          PostSecondHalf(c, t);
          PlugStep(InRight(c, t.n, t.keys, t.l, t.m), t.r);
          r, c', t' := FirstOf(node.children.right, InRight(c, t.n, t.keys, t.l, t.m), t.r);
          next := r.smallKey;
        }
      } else {
        r, next, c', t' := PostorderUp(node, key, c, t);
      }
    }

    // The node is finished; its parent goes on.
    method PostorderUp(node: CNode, key: int, ghost c: Context, ghost t: Tree)
      returns (r: CNode?, next: int, ghost c': Context, ghost t': Tree)
      requires Valid() && KeyAt(tree, c, t, key) && t.n == node && PostUpTo(c, t, key) == PostBefore(c) + Post(t)
      ensures r == null ==> PostUpTo(c, t, key) == Post(tree)
      ensures r != null ==> KeyAt(tree, c', t', next) && t'.n == r && PostUpTo(c', t', next) == PostUpTo(c, t, key) + [next]
    {
      hide Rep, Inorder, Sorted, IsTree, Exact, Plug, Post, PostUpTo;
      next, c', t' := key, c, t;
      ParentSeen(c, t);
      r := node.parent;
      if r == null {
        PostAtTop(c, t);
        return;
      }
      PostClimb(c, t);
      ghost var p := Fill(c, t);
      c', t' := c.up, p;
      if r.GetSize() == TwoNode {
        if r.children.left == node {
          PlugStep(InRight(c.up, p.n, p.keys, t, p.m), p.r);
          r, c', t' := FirstOf(r.children.right, InRight(c.up, p.n, p.keys, t, p.m), p.r);
          next := r.smallKey;
        } else if r.children.right == node {
          next := r.smallKey;
        }
      } else if r.GetSize() == ThreeNode {
        if r.children.left == node {
          PlugStep(InMiddle(c.up, p.n, p.keys, t, p.r), p.m);
          r, c', t' := FirstOf(r.children.middle, InMiddle(c.up, p.n, p.keys, t, p.r), p.m);
          next := r.smallKey;
        } else if r.children.middle == node {
          next := r.smallKey;
        } else if r.children.right == node {
          next := r.bigKey;
        }
      }
    }

    method GetNextPreorderKey(node: CNode, key: int, ghost c: Context, ghost t: Tree)
      returns (r: CNode?, next: int, ghost c': Context, ghost t': Tree)
      requires Valid() && KeyAt(tree, c, t, key) && t.n == node
      ensures r == null ==> PreUpTo(c, t, key) == Pre(tree)
      ensures r != null ==> KeyAt(tree, c', t', next) && t'.n == r && PreUpTo(c', t', next) == PreUpTo(c, t, key) + [next]
    {
      hide Rep, Inorder, Sorted, IsTree, Exact, Plug, Pre, PreUpTo;
      next, c', t' := key, c, t;
      PartOfTree(c, t);
      NodeSorted(c, t);
      PlugRep(c, t, At(nodes));
      RepNode(t, Parent(c), At(nodes));
      Sized(t, Parent(c), At(nodes));
      if node.GetSize() == ThreeNode && key == node.smallKey && node.IsLeaf() {
        PreInLeaf(c, t);
        r, next := node, node.bigKey;
      } else if key == node.smallKey && !node.IsLeaf() {
        ProperInner(t);
        PreDown(c, t);
        r, c', t' := node.children.left, InLeft(c, t.n, t.keys, t.m, t.r), t.l;
        PlugStep(c', t');
        ChildSeen(c', t');
        next := r.smallKey;
      } else if key == node.bigKey && !node.IsLeaf() {
        ProperInner(t);
        PreDown(c, t);
        r, c', t' := node.children.middle, InMiddle(c, t.n, t.keys, t.l, t.r), t.m;
        PlugStep(c', t');
        ChildSeen(c', t');
        next := r.smallKey;
      } else {
        PreLeafDone(c, t, key);
        r, next, c', t' := PreorderUp(node, key, c, t);
      }
    }

    // The first key of a child is visited on arrival.
    lemma ChildSeen(c: Context, t: Tree)
      requires Valid() && t.Node? && Plug(c, t) == tree
      ensures t.n in nodes && KeyAt(tree, c, t, t.n.smallKey) && PreUpTo(c, t, t.n.smallKey) == PreBefore(c) + [t.n.smallKey]
    {
      hide Rep, Inorder, Sorted, IsTree;
      PartOfTree(c, t);
      NodeSorted(c, t);
      PlugRep(c, t, At(nodes));
      RepNode(t, Parent(c), At(nodes));
    }

    // Up past finished parents, then to the next subtree or the second key.
    method PreorderUp(node: CNode, key: int, ghost c: Context, ghost t: Tree)
      returns (r: CNode?, next: int, ghost c': Context, ghost t': Tree)
      requires Valid() && KeyAt(tree, c, t, key) && t.n == node && PreUpTo(c, t, key) == PreBefore(c) + Pre(t)
      ensures r == null ==> PreUpTo(c, t, key) == Pre(tree)
      ensures r != null ==> KeyAt(tree, c', t', next) && t'.n == r && PreUpTo(c', t', next) == PreUpTo(c, t, key) + [next]
    {
      hide Rep, Inorder, Sorted, IsTree, Exact, Plug, Pre, PreUpTo;
      next, c', t' := key, c, t;
      var previous := node;
      ParentSeen(c', t');
      r := node.parent;
      while r != null && r.children.right == previous
        invariant t'.Node? && t'.n == previous && Plug(c', t') == tree && previous in nodes && r == previous.parent == Parent(c')
        invariant PreUpTo(c, t, key) == PreBefore(c') + Pre(t')
        decreases c'
      {
        ParentSeen(c', t');
        PreClimb(c', t');
        c', t' := c'.up, Fill(c', t');
        previous := r;
        ParentSeen(c', t');
        r := r.parent;
      }
      ParentSeen(c', t');
      if r == null {
        PreAtTop(c', t');
        return;
      }
      PreClimb(c', t');
      ghost var p := Fill(c', t');
      if (r.GetSize() == TwoNode && r.children.left == previous) || (r.GetSize() == ThreeNode && r.children.middle == previous) {
        ghost var cut := InRight(c'.up, p.n, p.keys, p.l, p.m);
        PlugStep(cut, p.r);
        ChildSeen(cut, p.r);
        r, c', t' := r.children.right, cut, p.r;
        next := r.smallKey;
      } else if r.children.left == previous && r.GetSize() == ThreeNode {
        next := r.bigKey;
        c', t' := c'.up, p;
      }
    }

    // print: all keys in the order asked for, each once, and then it stops. The
    // code it returns stays Failure.
    method Print(order: Traversal) returns (code: Code, printed: seq<int>, itemCount: int)
      requires Valid()
      ensures printed == Visited(order, tree) && itemCount == |printed|
      ensures multiset(printed) == multiset(Inorder(tree)) && forall i, j :: 0 <= i < j < |printed| ==> printed[i] != printed[j]
      ensures code == if root == null then IsEmpty else Failure
    {
      hide Rep, Inorder, Post, Pre, UpTo, PostUpTo, PreUpTo, Sorted, IsTree, Plug;
      code, printed, itemCount := Failure, [], 0;
      if root == null {
        code := IsEmpty;
        NoKeys();
        NothingVisited();
      } else {
        var current: CNode?, nextKey;
        ghost var c, t;
        current, nextKey, c, t := FirstVisited(order);
        while current != null
          invariant itemCount == |printed|
          invariant current == null ==> printed == Visited(order, tree)
          invariant current != null ==>
            KeyAt(tree, c, t, nextKey) && t.n == current && printed + [nextKey] == VisitedUpTo(order, c, t, nextKey)
          decreases |Visited(order, tree)| - |printed|
        {
          VisitedFitsTree(order, tree, c, t, nextKey);
          itemCount := itemCount + 1;
          printed := printed + [nextKey];
          if order.inorder? {
            current, nextKey, c, t := GetNextInorderKey(current, nextKey, c, t);
          } else if order.preorder? {
            current, nextKey, c, t := GetNextPreorderKey(current, nextKey, c, t);
          } else {
            current, nextKey, c, t := GetNextPostorderKey(current, nextKey, c, t);
          }
        }
      }
      VisitedKeys(order, tree);
    }

    method FirstVisited(order: Traversal) returns (r: CNode, key: int, ghost c: Context, ghost t: Tree)
      requires Valid() && root != null
      ensures KeyAt(tree, c, t, key) && t.n == r && VisitedUpTo(order, c, t, key) == [key]
    {
      hide Rep, Inorder, UpTo, PostUpTo, PreUpTo, Sorted, IsTree, Plug;
      PlugTop(tree);
      if order.preorder? {
        r, c, t := root, Top, tree;
        ChildSeen(Top, tree);
      } else {
        FirstKey(tree, At(nodes));
        r, c, t := FirstOf(root, Top, tree);
      }
      key := r.smallKey;
      assert [] + [key] == [key];
    }

    // ----- Repairing a hole: node is node, at c, with only child a -----

    ghost predicate HoleHere(c: Context, node: CNode, a: Tree, h: nat)
      reads this, nodes
    {
      Holds() && tree == Plug(c, Hole(node, a)) && HoleAt(c, a, h)
    }

    // Cases 1 to 8. The parent's subtree is t.
    method LocalRotation(node: CNode, ghost t: Tree, ghost c: Context) returns (code: Code)
      requires !c.Top? && Family(t, c, node, nodes) && Rep(t, Parent(c.up), At(nodes)) && Distinct(t, nodes)
      modifies nodes
      ensures code in {Success, Failure} && (code == Success <==> CanRotate(t))
      ensures code == Success ==> Replaced(t, Parent(c.up), old(At(nodes)), Rotated(t), At(nodes))
      ensures code == Failure ==> At(nodes) == old(At(nodes))
    {
      hide Rep, Count, Replaced, Distinct;
      ghost var q := Parent(c.up);
      var parentNode := node.parent;
      var rightNode := parentNode.children.right;
      var middleNode := parentNode.children.middle;
      var leftNode := parentNode.children.left;
      code := Failure;
      if node == leftNode && parentNode.GetSize() == TwoNode && rightNode.GetSize() == ThreeNode {
        Rotate1(parentNode, leftNode, rightNode, t, q, nodes);
        code := Success;
      } else if node == leftNode && parentNode.GetSize() == ThreeNode && middleNode.GetSize() == ThreeNode {
        Rotate2(parentNode, leftNode, middleNode, t, q, nodes);
        code := Success;
      } else if node == leftNode && parentNode.GetSize() == ThreeNode && rightNode.GetSize() == ThreeNode {
        Rotate3(parentNode, leftNode, middleNode, rightNode, t, q, nodes);
        code := Success;
      } else if node == middleNode && rightNode.GetSize() == ThreeNode {
        Rotate4(parentNode, middleNode, rightNode, t, q, nodes);
        code := Success;
      } else if node == middleNode && leftNode.GetSize() == ThreeNode {
        Rotate5(parentNode, middleNode, leftNode, t, q, nodes);
        code := Success;
      }
      if node == rightNode && parentNode.GetSize() == TwoNode && leftNode.GetSize() == ThreeNode {
        Rotate6(parentNode, rightNode, leftNode, t, q, nodes);
        code := Success;
      } else if node == rightNode && parentNode.GetSize() == ThreeNode && middleNode.GetSize() == ThreeNode {
        Rotate7(parentNode, rightNode, middleNode, t, q, nodes);
        code := Success;
      } else if node == rightNode && parentNode.GetSize() == ThreeNode && leftNode.GetSize() == ThreeNode {
        Rotate8(parentNode, leftNode, middleNode, rightNode, t, q, nodes);
        code := Success;
      }
    }

    // Cases 9 to 14, whatever kind of node node is.
    method GlobalRotation(node: CNode) returns (code: Code)
      requires root == Root(tree) && Rep(tree, null, At(nodes)) && Distinct(tree, nodes)
      requires node in nodes && !node.bigKeyIsSet
      requires ShowsSize(tree) && tree.l.Node? && tree.r.Node? && (tree.m.Node? <==> IsThree(tree))
      modifies nodes
      ensures code in {Success, Failure} && (code == Success <==> CanRotateGlobally(tree, node))
      ensures code == Success ==> Replaced(tree, null, old(At(nodes)), GloballyRotated(tree, node), At(nodes))
      ensures code == Failure ==> At(nodes) == old(At(nodes))
    {
      hide Rep, Count, Replaced, Distinct, Leftmost, Rightmost, CanRotateGlobally, GloballyRotated;
      RepNode(tree, null, At(nodes));
      var rightMin := GetMinNode(root.children.right, tree.r, root);
      var leftMax := GetMaxNode(root.children.left, tree.l, root);
      if root.GetSize() == ThreeNode {
        var middleMin := GetMinNode(root.children.middle, tree.m, root);
        var middleMax := GetMaxNode(root.children.middle, tree.m, root);
        code := RotateThreeRoot(node, leftMax, middleMin, middleMax, rightMin);
      } else {
        code := RotateTwoRoot(node, leftMax, rightMin);
      }
    }

    // Cases 9 to 12.
    method RotateThreeRoot(node: CNode, leftMax: CNode, middleMin: CNode, middleMax: CNode, rightMin: CNode)
      returns (code: Code)
      requires root == Root(tree) && Rep(tree, null, At(nodes)) && Distinct(tree, nodes)
      requires node in nodes && !node.bigKeyIsSet && IsThree(tree) && tree.l.Node? && tree.m.Node? && tree.r.Node?
      requires leftMax == Rightmost(tree.l).n && middleMin == Leftmost(tree.m).n
      requires middleMax == Rightmost(tree.m).n && rightMin == Leftmost(tree.r).n
      modifies nodes
      ensures code in {Success, Failure} && (code == Success <==> CanRotateGlobally(tree, node))
      ensures code == Success ==> Replaced(tree, null, old(At(nodes)), GloballyRotated(tree, node), At(nodes))
      ensures code == Failure ==> At(nodes) == old(At(nodes))
    {
      hide Rep, Count, Replaced, Distinct, Leftmost, Rightmost;
      RepNode(tree, null, At(nodes));
      OutermostSizes(tree.l, root, nodes);
      OutermostSizes(tree.m, root, nodes);
      OutermostSizes(tree.r, root, nodes);
      code := Failure;
      if node == leftMax && middleMin.GetSize() == ThreeNode {
        RotateRoot9(root, leftMax, middleMin, tree, nodes);
        code := Success;
      } else if node == middleMin && leftMax.GetSize() == ThreeNode {
        RotateRoot10(root, middleMin, leftMax, tree, nodes);
        code := Success;
      } else if node == middleMax && rightMin.GetSize() == ThreeNode {
        RotateRoot11(root, middleMax, rightMin, tree, nodes);
        code := Success;
      } else if node == rightMin && middleMax.GetSize() == ThreeNode {
        RotateRoot12(root, rightMin, middleMax, tree, nodes);
        code := Success;
      }
    }

    // Cases 13 and 14.
    method RotateTwoRoot(node: CNode, leftMax: CNode, rightMin: CNode) returns (code: Code)
      requires root == Root(tree) && Rep(tree, null, At(nodes)) && Distinct(tree, nodes)
      requires node in nodes && !node.bigKeyIsSet && IsTwo(tree) && tree.l.Node? && tree.r.Node?
      requires leftMax == Rightmost(tree.l).n && rightMin == Leftmost(tree.r).n
      modifies nodes
      ensures code in {Success, Failure} && (code == Success <==> CanRotateGlobally(tree, node))
      ensures code == Success ==> Replaced(tree, null, old(At(nodes)), GloballyRotated(tree, node), At(nodes))
      ensures code == Failure ==> At(nodes) == old(At(nodes))
    {
      hide Rep, Count, Replaced, Distinct, Leftmost, Rightmost;
      RepNode(tree, null, At(nodes));
      OutermostSizes(tree.l, root, nodes);
      OutermostSizes(tree.r, root, nodes);
      code := Failure;
      if node == rightMin && leftMax.GetSize() == ThreeNode {
        RotateRoot13(root, rightMin, leftMax, tree, nodes);
        code := Success;
      } else if node == leftMax && rightMin.GetSize() == ThreeNode {
        RotateRoot14(root, leftMax, rightMin, tree, nodes);
        code := Success;
      }
    }

    // Cases 15 to 17.
    method LocalNodeMerger(node: CNode, ghost t: Tree, ghost c: Context) returns (code: Code)
      requires !c.Top? && Family(t, c, node, nodes) && Rep(t, Parent(c.up), At(nodes)) && Distinct(t, nodes)
      requires !CanRotate(t)
      modifies nodes, this`nodes
      ensures code in {Success, Failure} && (code == Success <==> CanMerge(t)) && nodes <= old(nodes)
      ensures code == Success ==> Replaced(t, Parent(c.up), old(At(nodes)), LocallyMerged(t), At(nodes))
      ensures code == Failure ==> nodes == old(nodes) && At(nodes) == old(At(nodes))
    {
      hide Rep, Count, Replaced, Distinct;
      ghost var q := Parent(c.up);
      var parentNode := node.parent;
      var rightNode := parentNode.children.right;
      var middleNode := parentNode.children.middle;
      var leftNode := parentNode.children.left;
      code := Failure;
      if node == leftNode && parentNode.GetSize() == ThreeNode {
        Merge15(parentNode, leftNode, middleNode, t, q, nodes);
        nodes := nodes - {middleNode};
        code := Success;
      } else if node == middleNode && parentNode.GetSize() == ThreeNode {
        Merge16(parentNode, middleNode, leftNode, t, q, nodes);
        nodes := nodes - {middleNode};
        code := Success;
      } else if node == rightNode && parentNode.GetSize() == ThreeNode {
        Merge17(parentNode, rightNode, middleNode, t, q, nodes);
        nodes := nodes - {middleNode};
        code := Success;
      }
    }

    // Cases 18 and 19: the parent is the next node to fix.
    method GlobalNodeMerger(node: CNode, ghost t: Tree, ghost c: Context)
      returns (code: Code, nextToFix: CNode?)
      requires !c.Top? && Family(t, c, node, nodes) && Rep(t, Parent(c.up), At(nodes)) && Distinct(t, nodes)
      requires !CanRotate(t) && !CanMerge(t)
      modifies nodes, this`nodes
      ensures code == Success && CanHollow(t) && nextToFix == t.n && nodes <= old(nodes)
      ensures Replaced(t, Parent(c.up), old(At(nodes)), Hole(t.n, OnlyChild(t)), At(nodes))
    {
      hide Rep, Count, Replaced, Distinct;
      ghost var q := Parent(c.up);
      var parentNode := node.parent;
      var rightNode := parentNode.children.right;
      var leftNode := parentNode.children.left;
      code, nextToFix := Failure, null;
      if node == leftNode {
        Merge18(parentNode, leftNode, rightNode, t, q, nodes);
        nodes := nodes - {rightNode};
        nextToFix := parentNode;
        code := Success;
      } else if node == rightNode {
        Merge19(parentNode, rightNode, leftNode, t, q, nodes);
        nodes := nodes - {rightNode};
        nextToFix := parentNode;
        code := Success;
      }
    }

    // The key goes to the leaf that begins the next child, whose first key
    // takes its place.
    method SwapWithInOrderSuccessor(node: CNode, key: int, ghost c: Context, ghost t: Tree)
      returns (code: Code, leaf: CNode?)
      requires Valid() && KeyAt(tree, c, t, key) && t.n == node && t.l.Node? && Proper(t)
      modifies this`tree, nodes
      ensures code == Success && Holds()
      ensures ProperChild(t, key) && leaf == DeletionSite(c, t, key).n
      ensures tree == Plug(DeletionSite(c, t, key).c, SwappedLeaf(t, key))
    {
      hide Rep, Inorder, UpTo, Sorted, IsTree, Exact, Plug, Proper, DeletionSite, SwappedLeaf, Leftmost, SwapKeys, SuccessorChild;
      ghost var s := At(nodes);
      assert s.Keys == nodes;
      PartOfTree(c, t);
      NodeSorted(c, t);
      PlugRep(c, t, s);
      RepNode(t, Parent(c), s);
      ChildIsProper(t, key);
      var leafNode, leafKey, _, _ := GetNextInorderKey(node, key, c, t);
      SwappedWhole(c, t, key, s);
      code, leaf := ExchangeKeys(node, key, leafNode, leafKey, nodes);
      tree := Plug(DeletionSite(c, t, key).c, SwappedLeaf(t, key));
    }

    method RemoveFromLeaf(node: CNode, key: int, ghost c: Context, ghost keys: Keys) returns (code: Code)
      requires Holds() && tree == Plug(c, Node(node, keys, Nil, Nil, Nil)) && keys.TwoKeys? && InKeys(key, keys)
      modifies this`tree, nodes
      ensures code == Success && Holds() && tree == Plug(c, Node(node, Rest(keys, key), Nil, Nil, Nil))
    {
      hide Rep, Plug, Exact;
      ghost var s := At(nodes);
      assert s.Keys == nodes;
      KeyRemoved(c, node, keys, key, s);
      code := Failure;
      if key == node.smallKey {
        node.SetSmallKey(node.bigKey, nodes);
        node.UnsetBigKey(nodes);
        code := Success;
      } else if key == node.bigKey {
        node.UnsetBigKey(nodes);
        code := Success;
      }
      assert At(nodes) == RemoveKey(s, node, key);
      tree := Plug(c, Node(node, Rest(keys, key), Nil, Nil, Nil));
    }

    // One pass of the repair loop at a hole below the root.
    method RepairStep(node: CNode, ghost c: Context, ghost a: Tree, ghost h: nat)
      returns (treeIsFixed: bool, nextToFix: CNode?, ghost a': Tree)
      requires !c.Top? && HoleHere(c, node, a, h)
      modifies this`tree, this`nodes, nodes
      ensures Holds() && nodes <= old(nodes)
      ensures treeIsFixed ==> tree == Repaired(c, node, a)
      ensures !treeIsFixed ==> nextToFix == c.n && HoleHere(c.up, c.n, a', h + 1)
      ensures !treeIsFixed ==> Repaired(c, node, a) == Repaired(c.up, c.n, a')
    {
      hide Rep, Exact, Plug, Replaced, Distinct, Family, PerfectAround, Perfect, Repaired, ShowsSize, Inorder, AroundIn, Count, CanRotate, CanRotateGlobally, CanMerge, CanHollow, Rotated, GloballyRotated, LocallyMerged, OnlyChild, Root;
      ghost var s, t := At(nodes), Fill(c, Hole(node, a));
      treeIsFixed, nextToFix, a' := true, null, Nil;
      RepairStepFacts(c, node, a, h, nodes);
      var code := LocalRotation(node, t, c);
      if code == Success {
        Rebuilt(c.up, t, s, Rotated(t), nodes, nodes);
        tree := Plug(c.up, Rotated(t));
        return;
      }
      RepairStepFacts(c, node, a, h, nodes);
      code := GlobalRotation(node);
      if code == Success {
        PlugTop(tree);
        PlugTop(GloballyRotated(tree, node));
        Rebuilt(Top, tree, s, GloballyRotated(tree, node), nodes, nodes);
        tree := GloballyRotated(tree, node);
        return;
      }
      RepairStepFacts(c, node, a, h, nodes);
      treeIsFixed, nextToFix, a' := Merge(node, c, a, h);
    }

    // The mergers, after the rotations have failed.
    method Merge(node: CNode, ghost c: Context, ghost a: Tree, ghost h: nat)
      returns (treeIsFixed: bool, nextToFix: CNode?, ghost a': Tree)
      requires !c.Top? && HoleHere(c, node, a, h)
      requires !CanRotate(Fill(c, Hole(node, a))) && !CanRotateGlobally(tree, node)
      modifies this`tree, this`nodes, nodes
      ensures Holds() && nodes <= old(nodes)
      ensures treeIsFixed ==> tree == Repaired(c, node, a)
      ensures !treeIsFixed ==> nextToFix == c.n && HoleHere(c.up, c.n, a', h + 1)
      ensures !treeIsFixed ==> Repaired(c, node, a) == Repaired(c.up, c.n, a')
    {
      hide Rep, Exact, Plug, Replaced, Distinct, Family, PerfectAround, Perfect, Repaired, ShowsSize, Inorder, AroundIn, Count, CanRotate, CanRotateGlobally, CanMerge, CanHollow, Rotated, GloballyRotated, LocallyMerged, OnlyChild, Root;
      ghost var s, t, S := At(nodes), Fill(c, Hole(node, a)), nodes;
      RepairStepFacts(c, node, a, h, nodes);
      treeIsFixed, nextToFix, a' := true, null, Nil;
      var code := LocalNodeMerger(node, t, c);
      if code == Success {
        Rebuilt(c.up, t, s, LocallyMerged(t), S, nodes);
        tree := Plug(c.up, LocallyMerged(t));
        return;
      }
      RepairStepFacts(c, node, a, h, nodes);
      code, nextToFix := GlobalNodeMerger(node, t, c);
      a' := OnlyChild(t);
      treeIsFixed := false;
      StillRepairable(c, node, a, h, S);
      Rebuilt(c.up, t, s, Hole(c.n, a'), S, nodes);
      tree := Plug(c.up, Hole(c.n, a'));
    }

    // The root is the hole: its only child becomes the root.
    method DropRoot(node: CNode, ghost a: Tree)
      requires Holds() && tree == Hole(node, a) && node == root
      modifies this, nodes
      ensures Holds() && nodes <= old(nodes) && tree == a
    {
      hide Rep, Exact, Count;
      ghost var s := At(nodes);
      assert s.Keys == nodes;
      RepNode(tree, null, s);
      RepLinks(tree, null, s);
      root := node.children.left;
      if root != null {
        root.SetParent(null, nodes);
      }
      nodes := nodes - {node};
      RootDropped(node, a, s, At(nodes));
      tree := a;
      assert At(nodes).Keys == nodes;
    }

    // The repair loop: from the hole node at c, with only child a, to a tree
    // without a hole.
    method RepairLoop(node: CNode, ghost c: Context, ghost a: Tree, ghost h: nat)
      requires HoleHere(c, node, a, h)
      modifies this, nodes
      ensures Holds() && nodes <= old(nodes) && tree == Repaired(c, node, a)
    {
      hide Rep, Exact, Plug, HoleAt;
      var treeIsFixed := false;
      var toFix: CNode? := node;
      ghost var up, child, height := c, a, h;
      while !treeIsFixed
        invariant Holds() && nodes <= old(nodes)
        invariant treeIsFixed ==> tree == Repaired(c, node, a)
        invariant !treeIsFixed ==> toFix != null && HoleHere(up, toFix, child, height)
        invariant !treeIsFixed ==> Repaired(up, toFix, child) == Repaired(c, node, a)
        decreases if treeIsFixed then 0 else 1, up
      {
        if up.Top? {
          PlugTop(tree);
          PlugTop(Hole(toFix, child));
        } else {
          RootIsAnother(up, toFix, child, nodes);
        }
        if toFix == root {
          DropRoot(toFix, child);
          treeIsFixed := true;
        } else {
          treeIsFixed, toFix, child := RepairStep(toFix, up, child, height);
          if !treeIsFixed { up, height := up.up, height + 1; }
        }
      }
    }

    // Without the key everything stays; with it, the keys in order lose just
    // that key, and the tree stays a 2-3 tree exactly if no rotation misfires.
    method DeleteItem(key: int) returns (code: Code)
      requires Valid()
      modifies this, nodes
      ensures Holds() && nodes <= old(nodes)
      ensures code == if old(root) == null then IsEmpty else if key in old(Inorder(tree)) then Success else NotFound
      ensures code != Success ==> tree == old(tree) && Valid()
      ensures code == Success ==> Proper(old(tree)) && Has(old(tree), key) && tree == Deleted(old(tree), key)
      ensures Inorder(tree) == Without(old(Inorder(tree)), key) && Sorted(Inorder(tree))
      ensures code == Success ==> (Valid() <==> !DeletionMisfires(old(tree), key))
    {
      hide Rep, Exact, Inorder, Without, Sorted, DeletionMisfires, Plug, DeletionSite, IsTree, Proper, Repaired;
      ghost var tree0, S := tree, nodes;
      WithoutSorted(Inorder(tree), key);
      var node: CNode? := null;
      var isFound := false;
      code := Failure;
      if root == null {
        code := IsEmpty;
        NoKeys();
        WithoutAbsent(Inorder(tree), key);
      } else {
        code, node, isFound := Search(key);
        DeletedKeys(tree0, key, S);
        ghost var (c, t) := Find(Top, tree, key);
        if code == Success && !isFound {
          code := NotFound;
          WithoutAbsent(Inorder(tree), key);
        }
        if code == Success {
          DeletedShape(tree0, key, S);
          PlugTop(tree0);
          DeleteFound(node, key, c, t);
        }
      }
    }

    method DeleteFound(node: CNode, key: int, ghost c: Context, ghost t: Tree)
      requires Valid() && KeyAt(tree, c, t, key) && t.n == node && Proper(t)
      modifies this, nodes
      ensures Holds() && nodes <= old(nodes) && tree == DeletedAt(DeletionSite(c, t, key))
    {
      hide Rep, Exact, Inorder, Sorted, Plug, IsTree, Repaired, DeletionSite, Rest, SwappedLeaf, Perfect;
      ghost var site := DeletionSite(c, t, key);
      PartOfTree(c, t);
      NodeSorted(c, t);
      PlugRep(c, t, At(nodes));
      RepNode(t, Parent(c), At(nodes));
      FoundSite(c, t, key, nodes);
      var leafNode: CNode? := node;
      ghost var keys := t.keys;
      if !node.IsLeaf() {
        var _, leaf := SwapWithInOrderSuccessor(node, key, c, t);
        leafNode := leaf;
        keys := SwappedLeaf(t, key).keys;
      }
      assert At(nodes).Keys == nodes;
      PlugRep(site.c, Node(leafNode, keys, Nil, Nil, Nil), At(nodes));
      Sized(Node(leafNode, keys, Nil, Nil, Nil), Parent(site.c), At(nodes));
      if leafNode.GetSize() == ThreeNode {
        var _ := RemoveFromLeaf(leafNode, key, site.c, keys);
      } else {
        EmptiedLeaf(site.c, leafNode, keys, At(nodes));
        tree := Plug(site.c, Hole(leafNode, Nil));
        RepairLoop(leafNode, site.c, Nil, 1);
      }
    }

    // ----- Insertion -----

    // The tree between two rounds of the loop: risingKey, with the subtree d before
    // it, is to go into the node nodeFound at c.
    ghost predicate Rising(c: Context, t: Tree, d: Tree, risingKey: int, h: nat, target: seq<int>, nodeFound: CNode, addedNode: CNode?)
      reads this, nodes
    {
      Growth(c, t, d, risingKey, h, target, At(nodes)) && Sorted(target) && root == Root(Plug(c, t)) &&
      t.n == nodeFound && Root(d) == addedNode
    }

    method NewRootAbove(risingKey: int, addedNode: CNode, nodeFound: CNode, ghost hs: Halves, ghost h: nat)
      requires Growing(hs.rest, hs.added, At(nodes)) && Perfect(hs.rest, h) && Perfect(hs.added, h) && hs.k == risingKey
      requires hs.rest.Node? && hs.rest.n == nodeFound && hs.added.Node? && hs.added.n == addedNode
      modifies this, nodes
      ensures old(nodes) <= nodes && fresh(nodes - old(nodes))
      ensures Holds() && IsTree(tree) && Inorder(tree) == HalvesKeys(hs)
    {
      hide Rep, Exact, Growing, Inorder, Perfect, IsTree, Count;
      ghost var s := At(nodes);
      PlugTop(hs.rest);
      PlugGrowing(Top, hs.rest, hs.added, s);
      var newRoot := MakeParent(addedNode, nodeFound, risingKey, nodes);
      nodes := nodes + {newRoot};
      RootGrowth(hs.rest, hs.added, risingKey, h, newRoot, s, At(nodes));
      root := newRoot;
      tree := Two(newRoot, hs.added, risingKey, hs.rest);
      assert At(nodes).Keys == nodes;
    }

    // split, and the half added beside the tree.
    method Split(risingKey: int, toSplit: CNode, addedChild: CNode?,
                 ghost c: Context, ghost t: Tree, ghost d: Tree, ghost h: nat, ghost target: seq<int>)
      returns (key: int, node: CNode, ghost hs: Halves)
      requires IsThree(t) && Rising(c, t, d, risingKey, h, target, toSplit, addedChild)
      modifies this`nodes, nodes
      ensures old(nodes) <= nodes && fresh(nodes - old(nodes))
      ensures HalvesAt(c, hs, h, target, At(nodes)) && root == Root(Plug(c, hs.rest))
      ensures hs.rest.n == toSplit && hs.added.n == node && hs.k == key
    {
      hide Rep, Exact, Growing, Plug, Spliced, Inorder, Sorted, Perfect, PerfectAround, RisingKey, AddedPair, AddedKey,
        SplitStore, Splittable, SplitAt;
      ghost var s := At(nodes);
      assert s.Keys == nodes;
      IsSplittable(c, t, d, s);
      key, node := SplitNode(risingKey, toSplit, addedChild, nodes);
      nodes := nodes + {node};
      hs := SplitAt(t, d, risingKey, node);
      assert SplitInto(s, t.n, risingKey, Root(d), node, At(nodes));
      SplitGrowth(c, t, d, risingKey, h, target, node, s, At(nodes));
    }

    // One round: split, and what is done with the halves.
    method SplitRound(risingKey: int, nodeFound: CNode, addedNode: CNode?,
                      ghost c: Context, ghost t: Tree, ghost d: Tree, ghost h: nat, ghost target: seq<int>)
      returns (treeIsFixed: bool, key: int, above: CNode?, node: CNode, ghost t': Tree, ghost d': Tree)
      requires IsThree(t) && Rising(c, t, d, risingKey, h, target, nodeFound, addedNode)
      modifies this, nodes
      ensures old(nodes) <= nodes && fresh(nodes - old(nodes))
      ensures treeIsFixed ==> Holds() && IsTree(tree) && Inorder(tree) == target
      ensures !treeIsFixed ==> !c.Top? && above != null && IsThree(t') && Rising(c.up, t', d', key, h + 1, target, above, node)
    {
      hide Rep, Exact, Growing, Plug, Spliced, Inorder, Sorted, Perfect, PerfectAround, AddStore, IsTree, Growth;
      ghost var hs;
      treeIsFixed := false;
      key, node, hs := Split(risingKey, nodeFound, addedNode, c, t, d, h, target);
      t', d' := hs.rest, hs.added;
      PlugGrowing(c, t', d', At(nodes));
      above := nodeFound.parent;
      if above == null {
        AllAround(c, hs);
        NewRootAbove(key, node, nodeFound, hs, h);
        treeIsFixed := true;
      } else {
        PlugStep(c, t');
        t' := Fill(c, hs.rest);
        GrowthSees(c.up, t', d', key, h + 1, target, At(nodes));
        if above.GetSize() == TwoNode {
          treeIsFixed := AddAbove(above, key, node, c.up, t', d', h + 1, target);
        }
      }
    }

    method AddAbove(nodeFound: CNode, risingKey: int, addedNode: CNode,
                    ghost c: Context, ghost t: Tree, ghost d: Tree, ghost h: nat, ghost target: seq<int>)
      returns (treeIsFixed: bool)
      requires IsTwo(t) && Rising(c, t, d, risingKey, h, target, nodeFound, addedNode)
      modifies this`tree, nodes
      ensures treeIsFixed && Holds() && IsTree(tree) && Inorder(tree) == target
    {
      hide Rep, Exact, Plug, Inorder, AddStore, IsTree, Growth, Sorted;
      AddGrowth(c, t, d, risingKey, h, target, At(nodes));
      GrowthSees(c, t, d, risingKey, h, target, At(nodes));
      var _, fixed := AddSubtree(nodeFound, risingKey, addedNode, nodes);
      tree := Plug(c, AddedTo(t, d, risingKey));
      treeIsFixed := fixed;
      assert At(nodes).Keys == nodes;
    }

    // The key is absent and its place is in the three node at c: nodes are
    // split up to the first two node, or the root.
    method SplitUpward(leaf: CNode, addedKey: int, ghost c: Context, ghost t: Tree, ghost target: seq<int>)
      requires IsThree(t) && Rising(c, t, Nil, addedKey, 1, target, leaf, null)
      modifies this, nodes
      ensures old(nodes) <= nodes && fresh(nodes - old(nodes))
      ensures Holds() && IsTree(tree) && Inorder(tree) == target
    {
      hide Growth, Sorted, Plug, Inorder, Rep, Exact, IsTree;
      var risingKey, treeIsFixed := addedKey, false;
      var nodeFound: CNode? := leaf;
      var addedNode: CNode? := null;
      ghost var up, t', d, h := c, t, Nil, 1;
      while !treeIsFixed
        invariant old(nodes) <= nodes && fresh(nodes - old(nodes))
        invariant !treeIsFixed ==>
          nodeFound != null && IsThree(t') && Rising(up, t', d, risingKey, h, target, nodeFound, addedNode)
        invariant treeIsFixed ==> Holds() && IsTree(tree) && Inorder(tree) == target
        decreases if treeIsFixed then 0 else 1, up
      {
        treeIsFixed, risingKey, nodeFound, addedNode, t', d := SplitRound(risingKey, nodeFound, addedNode, up, t', d, h, target);
        if !treeIsFixed { up, h := up.up, h + 1; }
      }
    }

    // A key that is there stays the only one of its value; an absent one is
    // added in its place, and the tree stays a 2-3 tree.
    method Insert(key: int) returns (code: Code)
      requires Valid()
      modifies this, nodes
      ensures Valid() && old(nodes) <= nodes && fresh(nodes - old(nodes))
      ensures code == if key in old(Inorder(tree)) then DuplicateValue else Success
      ensures code == DuplicateValue ==> tree == old(tree)
      ensures code == Success ==> Inorder(tree) == With(old(Inorder(tree)), key)
    {
      hide Rep, Exact, Inorder, With, Sorted, Plug, IsTree, Proper, Perfect;
      if root == null {
        PlantRoot(key);
        code := Success;
      } else {
        var nodeFound, isFound;
        code, nodeFound, isFound := Search(key);
        DeletedKeys(tree, key, nodes);
        if isFound {
          code := DuplicateValue;
        } else {
          InsertAt(nodeFound, key);
        }
      }
    }

    method PlantRoot(key: int)
      requires Valid() && root == null
      modifies this
      ensures Valid() && old(nodes) <= nodes && fresh(nodes - old(nodes))
      ensures key !in old(Inorder(tree)) && Inorder(tree) == With(old(Inorder(tree)), key)
    {
      NoKeys();
      root := new CNode.Empty(nodes);
      nodes := {root};
      var _ := Add(root, key, nodes);
      tree := Two(root, Nil, key, Nil);
      assert Perfect(tree, 1);
      LeafInorder(root, OneKey(key));
      OneNode(root, OneKey(key));
    }

    method InsertAt(nodeFound: CNode, key: int)
      requires Valid() && root != null && Proper(tree) && !Has(tree, key) && nodeFound == Find(Top, tree, key).1.n
      modifies this, nodes
      ensures Valid() && old(nodes) <= nodes && fresh(nodes - old(nodes))
      ensures key !in old(Inorder(tree)) && Inorder(tree) == With(old(Inorder(tree)), key)
    {
      hide Rep, Exact, Inorder, With, Sorted, Plug, IsTree, Proper, Perfect, Growth, AddStore, Find;
      ghost var s := At(nodes);
      ghost var (c, t) := Find(Top, tree, key);
      assert s.Keys == nodes;
      ghost var target := With(Inorder(tree), key);
      InsertStart(tree, key, s);
      WithSorted(Inorder(tree), key);
      if nodeFound.GetSize() == TwoNode {
        AddGrowth(c, t, Nil, key, 1, target, s);
        AddAtLeaf(s, nodeFound, key);
        var _ := Add(nodeFound, key, nodes);
        tree := Plug(c, AddedTo(t, Nil, key));
      } else {
        SplitUpward(nodeFound, key, c, t, target);
      }
    }

    // find: the place of the key, if it is in the tree: a node, and which of its keys.
    method FindKey(key: int) returns (holder: CNode?, big: bool)
      requires Valid()
      ensures holder != null <==> key in Inorder(tree)
      ensures holder != null ==> holder in nodes && Proper(tree) && holder == Find(Top, tree, key).1.n
      ensures holder != null ==> if big then holder.GetSize() == ThreeNode && holder.bigKey == key else holder.smallKey == key
    {
      hide Rep, Exact, Inorder, Sorted, Plug, IsTree, Proper, Perfect;
      holder, big := null, false;
      var _, nodeFound, bKeyFound := Search(key);
      if root == null {
        NoKeys();
        return;
      }
      DeletedKeys(tree, key, nodes);
      ghost var (c, t) := Find(Top, tree, key);
      PlugTop(tree);
      PlugRep(c, t, At(nodes));
      RepNode(t, Parent(c), At(nodes));
      if bKeyFound && key == nodeFound.smallKey {
        holder := nodeFound;
      } else if bKeyFound && nodeFound.GetSize() == ThreeNode && key == nodeFound.bigKey {
        holder, big := nodeFound, true;
      }
    }

    // ----- removeAll -----

    // Every node is deleted once, children before their parent; no node is read once
    // it has been deleted.
    method RemoveAll() returns (code: Code, ghost log: seq<Access>)
      requires Valid()
      modifies this
      ensures Valid() && tree == Nil && root == null && nodes == {}
      ensures code == if old(root) == null then IsEmpty else Success
      ensures Safe(log) && Deletions(log) == PostNodes(old(tree)) && Elements(Deletions(log)) == old(nodes)
      ensures forall i, j :: 0 <= i < j < |Deletions(log)| ==> Deletions(log)[i] != Deletions(log)[j]
    {
      hide Rep, Exact, Inorder, Sorted, IsTree, PostNodes;
      ghost var S := nodes;
      code, log := Failure, [];
      AllNodes(tree, nodes);
      if root == null {
        code := IsEmpty;
        NodesCounted();
        return;
      }
      log := RemoveLoop();
      root := null;
      tree := Nil;
      NilIsTree();
      code := Success;
    }

    method RemoveLoop() returns (ghost log: seq<Access>)
      requires Valid() && root != null
      modifies this`nodes
      ensures Safe(log) && Deletions(log) == PostNodes(tree) && nodes == NodesLeft(old(nodes), Deletions(log))
    {
      hide Rep, Exact, Inorder, Sorted, IsTree, Plug, Remaining, Perfect, PostNodes, Safe, Deletions;
      ghost var tree0, S, deleted: seq<CNode> := tree, nodes, [];
      PlugTop(tree);
      PartOfTree(Top, tree);
      RemovalStarts(tree, At(nodes));
      NothingLogged(nodes);
      var current;
      current, log := GetMinNodeLogged(root, tree, null, [], deleted);
      ghost var c, t := LeftmostCut(Top, tree), Leftmost(tree);
      LeftmostCutPlug(Top, tree);
      NodesLeftmost(Top, tree);
      assert [] + [t.n] + NodesAfter(c) == [t.n] + NodesAfter(c) && PostNodes(tree) + [] == PostNodes(tree);
      var parentNode;
      parentNode, log := ParentOf(current, log, deleted);
      while parentNode != null
        invariant Plug(c, t) == tree0 && t.Node? && t.n == current && current in nodes && parentNode == current.parent
        invariant current.parent == Parent(c) && Remaining(c, current, At(nodes)) && Logged(log, deleted, nodes)
        invariant nodes == NodesLeft(S, deleted) && deleted + [current] + NodesAfter(c) == PostNodes(tree0)
        decreases |PostNodes(tree0)| - |deleted|
      {
        current, log, deleted, c, t := RemoveOne(current, parentNode, c, t, tree0, S, log, deleted);
        parentNode, log := ParentOf(current, log, deleted);
      }
      PlugTop(t);
      log, deleted := DeleteNode(root, log, deleted);
      assert deleted + [] == deleted;
    }

    // Deletes the node and goes on to the next one.
    method RemoveOne(current: CNode, parentNode: CNode, ghost c: Context, ghost t: Tree,
                     ghost tree0: Tree, ghost S: set<CNode>, ghost log: seq<Access>, ghost deleted: seq<CNode>)
      returns (r: CNode, ghost log': seq<Access>, ghost deleted': seq<CNode>, ghost c': Context, ghost t': Tree)
      requires Plug(c, t) == tree0 && IsTree(tree0) && Exact(tree0, S) && t.Node? && t.n == current && current in nodes
      requires parentNode == current.parent == Parent(c) && Remaining(c, current, At(nodes))
      requires nodes == NodesLeft(S, deleted) && deleted + [current] + NodesAfter(c) == PostNodes(tree0)
      requires Logged(log, deleted, nodes)
      modifies this`nodes
      ensures Plug(c', t') == tree0 && t'.Node? && t'.n == r && r in nodes && r.parent == Parent(c') && Remaining(c', r, At(nodes))
      ensures deleted' == deleted + [current] && nodes == NodesLeft(S, deleted') && Logged(log', deleted', nodes)
      ensures deleted' + [r] + NodesAfter(c') == PostNodes(tree0)
    {
      hide Rep, Exact, Inorder, Sorted, IsTree, Plug, Perfect, PostNodes, Logged, Remaining, Count, CountAround, NodesLeft;
      ghost var s := At(nodes);
      RemainingNext(c, t, s);
      NodesLeftAfter(S, deleted, current);
      ghost var p := Fill(c, t);
      PlugStep(c, t);
      ChildrenApart(c, t, S);
      PartOfTree(c.up, p);
      ProperInner(p);
      var rightNode, middleNode, leftNode;
      rightNode, log' := ChildOf(parentNode, RightChild, log, deleted);
      middleNode, log' := ChildOf(parentNode, MiddleChild, log', deleted);
      leftNode, log' := ChildOf(parentNode, LeftChild, log', deleted);
      r := current;
      // All three branches of the source begin with it.
      log', deleted' := DeleteNode(current, log', deleted);
      RemainingKept(c, current, s, At(nodes));
      RemainingNext(c, t, At(nodes));
      if (current == leftNode && middleNode == null) || current == middleNode {
        ghost var cut := InRight(c.up, p.n, p.keys, p.l, p.m);
        GoesRight(c, t);
        r, log', c', t' := MinBelow(rightNode, cut, p.r, tree0, log', deleted');
      } else if current == leftNode {
        ghost var cut := InMiddle(c.up, p.n, p.keys, t, p.r);
        GoesToMiddle(c, t);
        r, log', c', t' := MinBelow(middleNode, cut, p.m, tree0, log', deleted');
      } else if current == rightNode {
        r, c', t' := parentNode, c.up, p;
        assert deleted + [current] + ([r] + NodesAfter(c')) == deleted' + [r] + NodesAfter(c');
      }
      assert deleted' + ([r] + NodesAfter(c')) == deleted' + [r] + NodesAfter(c');
    }

    method MinBelow(childNode: CNode?, ghost cut: Context, ghost u: Tree, ghost tree0: Tree,
                    ghost log: seq<Access>, ghost deleted: seq<CNode>)
      returns (r: CNode, ghost log': seq<Access>, ghost c': Context, ghost t': Tree)
      requires u.Node? && u.n == childNode && Plug(cut, u) == tree0 && IsTree(tree0)
      requires Rep(u, Parent(cut), At(nodes)) && Remaining(cut, u.n, At(nodes)) && Logged(log, deleted, nodes)
      ensures Plug(c', t') == tree0 && t'.Node? && t'.n == r && r in nodes && r.parent == Parent(c') && Remaining(c', r, At(nodes))
      ensures [r] + NodesAfter(c') == PostNodes(u) + NodesAfter(cut) && Logged(log', deleted, nodes)
    {
      hide Rep, IsTree, Plug, Remaining, Perfect, PostNodes, Logged;
      PartOfTree(cut, u);
      LeftmostCutPlug(cut, u);
      RemainingLeftmost(cut, u, At(nodes));
      NodesLeftmost(cut, u);
      c', t' := LeftmostCut(cut, u), Leftmost(u);
      r, log' := GetMinNodeLogged(childNode, u, Parent(cut), log, deleted);
    }
  }
}
