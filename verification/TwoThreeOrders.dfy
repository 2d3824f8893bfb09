// Preorder, postorder, and the order in which removeAll deletes: what a step of
// CTree's iterators adds to each, from any position, that each order has every key
// once, and which nodes are read and deleted on the way.
module TwoThreeOrders {
  import opened SortedKeys
  import opened TwoThreeNode
  import opened TwoThreeShape
  import opened TwoThreeGlobal
  import opened TwoThreeRepair
  import opened TwoThreeSearch
  import opened TwoThreeDeletion
  import opened TwoThreeTraversal

  // ----- Postorder: the first of two keys comes before the last subtree -----

  function Post(t: Tree): seq<int> {
    match t
    case Nil => []
    case Node(_, keys, l, m, r) =>
      match keys
      case NoKey => Post(l) + Post(m) + Post(r)
      case OneKey(k) => Post(l) + Post(r) + [k]
      case TwoKeys(k1, k2) => Post(l) + Post(m) + [k1] + Post(r) + [k2]
  }

  function PostBefore(c: Context): seq<int> {
    match c
    case Top => []
    case InLeft(up, _, _, _, _) => PostBefore(up)
    case InMiddle(up, _, _, l, _) => PostBefore(up) + Post(l)
    case InRight(up, _, keys, l, m) =>
      PostBefore(up) + (Post(l) + if keys.TwoKeys? then Post(m) + [keys.k1] else [])
  }

  // What has been visited when key, in the node of t at c, is.
  function PostUpTo(c: Context, t: Tree, key: int): seq<int>
    requires t.Node?
  {
    if t.keys.TwoKeys? && key == t.keys.k1 then PostBefore(c) + (Post(t.l) + Post(t.m) + [key]) else PostBefore(c) + Post(t)
  }

  // The subtree below the cut is visited, and then what it is the left child of.
  lemma {:induction false} PostLeftmost(c: Context, t: Tree)
    requires t.Node? && Proper(t)
    ensures var leaf := Leftmost(t);
      !leaf.keys.NoKey? && leaf.m.Nil? && leaf.r.Nil? && Plug(LeftmostCut(c, t), leaf) == Plug(c, t) &&
      PostUpTo(LeftmostCut(c, t), leaf, leaf.keys.First()[0]) == PostBefore(c) + [leaf.keys.First()[0]]
    decreases t
  {
    if t.l.Node? {
      PostLeftmost(InLeft(c, t.n, t.keys, t.m, t.r), t.l);
    } else {
      assert Post(Nil) == [] && [] + [] + [t.keys.First()[0]] == [t.keys.First()[0]];
    }
  }

  // After the first key of an inner node comes its right subtree.
  lemma PostSecondHalf(c: Context, t: Tree)
    requires IsThree(t)
    ensures PostBefore(InRight(c, t.n, t.keys, t.l, t.m)) == PostUpTo(c, t, t.keys.k1)
  {
    assert Post(t.l) + (Post(t.m) + [t.keys.k1]) == Post(t.l) + Post(t.m) + [t.keys.k1];
  }

  lemma PostInLeaf(c: Context, t: Tree)
    requires IsThree(t) && t.keys.k1 != t.keys.k2 && t.l.Nil? && t.m.Nil? && t.r.Nil?
    ensures PostUpTo(c, t, t.keys.k2) == PostUpTo(c, t, t.keys.k1) + [t.keys.k2]
  {
    assert Post(Nil) == [];
    assert PostBefore(c) + ([] + [] + [t.keys.k1]) + [t.keys.k2] == PostBefore(c) + ([] + [] + [t.keys.k1] + [] + [t.keys.k2]);
  }

  // When a subtree is finished, its parent goes on: with the next subtree, or a key.
  lemma PostClimb(c: Context, t: Tree)
    requires !c.Top? && (IsTwo(Fill(c, t)) || IsThree(Fill(c, t))) && (IsThree(Fill(c, t)) ==> Fill(c, t).keys.k1 != Fill(c, t).keys.k2)
    ensures var p := Fill(c, t);
      (c.InLeft? && IsTwo(p) ==> PostBefore(InRight(c.up, p.n, p.keys, t, p.m)) == PostBefore(c) + Post(t)) &&
      (c.InLeft? && IsThree(p) ==> PostBefore(InMiddle(c.up, p.n, p.keys, t, p.r)) == PostBefore(c) + Post(t)) &&
      (c.InMiddle? && IsThree(p) ==> PostUpTo(c.up, p, p.keys.k1) == PostBefore(c) + Post(t) + [p.keys.k1]) &&
      (c.InRight? ==>
        var k := if IsTwo(p) then p.keys.k else p.keys.k2; PostUpTo(c.up, p, k) == PostBefore(c) + Post(t) + [k])
  {
    hide Post;
    var p, b, x := Fill(c, t), PostBefore(c.up), Post(t);
    PostNode(p);
    if c.InLeft? {
      assert b + (x + []) == b + x;
    } else if c.InMiddle? {
      if IsThree(p) { assert b + (Post(c.l) + x + [p.keys.k1]) == b + Post(c.l) + x + [p.keys.k1]; }
    } else if IsTwo(p) {
      assert b + (Post(c.l) + x + [p.keys.k]) == b + (Post(c.l) + []) + x + [p.keys.k];
    } else {
      var l, m, k1, k2 := Post(c.l), Post(c.m), p.keys.k1, p.keys.k2;
      assert b + (l + m + [k1] + x + [k2]) == b + (l + (m + [k1])) + x + [k2];
    }
  }

  lemma PostNode(t: Tree)
    ensures IsTwo(t) ==> Post(t) == Post(t.l) + Post(t.r) + [t.keys.k]
    ensures IsThree(t) ==> Post(t) == Post(t.l) + Post(t.m) + [t.keys.k1] + Post(t.r) + [t.keys.k2]
  {
  }

  // ----- Preorder: the second of two keys comes after the first subtree -----

  function Pre(t: Tree): seq<int> {
    match t
    case Nil => []
    case Node(_, keys, l, m, r) =>
      match keys
      case NoKey => Pre(l) + Pre(m) + Pre(r)
      case OneKey(k) => [k] + Pre(l) + Pre(r)
      case TwoKeys(k1, k2) => [k1] + Pre(l) + [k2] + Pre(m) + Pre(r)
  }

  function PreBefore(c: Context): seq<int> {
    match c
    case Top => []
    case InLeft(up, _, keys, _, _) => PreBefore(up) + keys.First()
    case InMiddle(up, _, keys, l, _) => PreBefore(up) + (keys.First() + Pre(l) + keys.Second())
    case InRight(up, _, keys, l, m) =>
      PreBefore(up) + (keys.First() + Pre(l) + if keys.TwoKeys? then keys.Second() + Pre(m) else [])
  }

  function PreUpTo(c: Context, t: Tree, key: int): seq<int>
    requires t.Node?
  {
    if t.keys.TwoKeys? && key == t.keys.k2 && key != t.keys.k1
    then PreBefore(c) + ([t.keys.k1] + Pre(t.l) + [key])
    else PreBefore(c) + [key]
  }

  // From a key of an inner node down to the first key of the subtree after it.
  lemma PreDown(c: Context, t: Tree)
    requires IsTwo(t) || IsThree(t)
    ensures PreBefore(InLeft(c, t.n, t.keys, t.m, t.r)) == PreUpTo(c, t, t.keys.First()[0])
    ensures IsThree(t) && t.keys.k1 != t.keys.k2 ==>
      PreBefore(InMiddle(c, t.n, t.keys, t.l, t.r)) == PreUpTo(c, t, t.keys.k2)
  {
  }

  // The last key of a leaf finishes it.
  lemma PreLeafDone(c: Context, t: Tree, key: int)
    requires t.Node? && t.l.Nil? && t.m.Nil? && t.r.Nil?
    requires t.keys == OneKey(key) || (t.keys.TwoKeys? && key == t.keys.k2 && key != t.keys.k1)
    ensures PreUpTo(c, t, key) == PreBefore(c) + Pre(t)
  {
    assert Pre(Nil) == [];
    if t.keys.OneKey? {
      assert [key] + [] + [] == [key];
    } else {
      assert [t.keys.k1] + [] + [key] + [] + [] == [t.keys.k1] + [] + [key];
    }
  }

  lemma PreInLeaf(c: Context, t: Tree)
    requires IsThree(t) && t.keys.k1 != t.keys.k2 && t.l.Nil? && t.m.Nil? && t.r.Nil?
    ensures PreUpTo(c, t, t.keys.k2) == PreUpTo(c, t, t.keys.k1) + [t.keys.k2]
  {
    assert Pre(Nil) == [];
    assert PreBefore(c) + ([t.keys.k1] + [] + [t.keys.k2]) == PreBefore(c) + [t.keys.k1] + [t.keys.k2];
  }

  // What a finished subtree is followed by.
  lemma PreClimb(c: Context, t: Tree)
    requires !c.Top? && (IsTwo(Fill(c, t)) || IsThree(Fill(c, t))) && (IsThree(Fill(c, t)) ==> Fill(c, t).keys.k1 != Fill(c, t).keys.k2)
    ensures var p := Fill(c, t);
      (c.InRight? ==> PreBefore(c.up) + Pre(p) == PreBefore(c) + Pre(t)) &&
      (c.InLeft? && IsTwo(p) ==> PreBefore(InRight(c.up, p.n, p.keys, t, p.m)) == PreBefore(c) + Pre(t)) &&
      (c.InMiddle? && IsThree(p) ==> PreBefore(InRight(c.up, p.n, p.keys, p.l, t)) == PreBefore(c) + Pre(t)) &&
      (c.InLeft? && IsThree(p) ==> PreUpTo(c.up, p, p.keys.k2) == PreBefore(c) + Pre(t) + [p.keys.k2])
  {
    hide Pre;
    var p, b, x := Fill(c, t), PreBefore(c.up), Pre(t);
    PreNode(p);
    if IsTwo(p) {
      var k := p.keys.k;
      if c.InRight? {
        assert b + ([k] + Pre(c.l) + x) == b + ([k] + Pre(c.l) + []) + x;
      } else if c.InLeft? {
        assert b + ([k] + x + []) == b + [k] + x;
      }
    } else {
      var k1, k2 := p.keys.k1, p.keys.k2;
      if c.InRight? {
        assert b + ([k1] + Pre(c.l) + [k2] + Pre(c.m) + x) == b + ([k1] + Pre(c.l) + ([k2] + Pre(c.m))) + x;
      } else if c.InMiddle? {
        assert b + ([k1] + Pre(c.l) + ([k2] + x)) == b + ([k1] + Pre(c.l) + [k2]) + x;
      } else {
        assert b + ([k1] + x + [k2]) == b + [k1] + x + [k2];
      }
    }
  }

  lemma PreNode(t: Tree)
    ensures IsTwo(t) ==> Pre(t) == [t.keys.k] + Pre(t.l) + Pre(t.r)
    ensures IsThree(t) ==> Pre(t) == [t.keys.k1] + Pre(t.l) + [t.keys.k2] + Pre(t.m) + Pre(t.r)
  {
  }

  // ----- Both visit every key -----

  // All three orders have the keys of the tree.
  lemma {:induction false} SameKeys(t: Tree)
    requires Proper(t)
    ensures multiset(Post(t)) == multiset(Pre(t)) == multiset(Inorder(t))
  {
    if t.Node? {
      SameKeys(t.l);
      SameKeys(t.m);
      SameKeys(t.r);
      SameKeysAbove(t);
    }
  }

  lemma SameKeysAbove(t: Tree)
    requires Proper(t) && t.Node?
    requires multiset(Post(t.l)) == multiset(Pre(t.l)) == multiset(Inorder(t.l))
    requires multiset(Post(t.m)) == multiset(Pre(t.m)) == multiset(Inorder(t.m))
    requires multiset(Post(t.r)) == multiset(Pre(t.r)) == multiset(Inorder(t.r))
    ensures multiset(Post(t)) == multiset(Pre(t)) == multiset(Inorder(t))
  {
    hide Post, Pre, Inorder;
    PostNode(t);
    PreNode(t);
    if IsTwo(t) {
      TwoInorder(t);
      OneBetween(Post(t.l), Post(t.r), t.keys.k);
      OneBetween(Pre(t.l), Pre(t.r), t.keys.k);
      OneBetween(Inorder(t.l), Inorder(t.r), t.keys.k);
    } else {
      ThreeInorder(t);
      TwoBetween(Post(t.l), Post(t.m), Post(t.r), t.keys.k1, t.keys.k2);
      TwoBetween(Pre(t.l), Pre(t.m), Pre(t.r), t.keys.k1, t.keys.k2);
      TwoBetween(Inorder(t.l), Inorder(t.m), Inorder(t.r), t.keys.k1, t.keys.k2);
    }
  }

  lemma OneBetween(l: seq<int>, r: seq<int>, k: int)
    ensures multiset([k] + l + r) == multiset(l + [k] + r) == multiset(l + r + [k]) == multiset(l) + multiset(r) + multiset{k}
  {
  }

  lemma TwoBetween(l: seq<int>, m: seq<int>, r: seq<int>, k1: int, k2: int)
    ensures var all := multiset(l) + multiset(m) + multiset(r) + multiset{k1, k2};
      multiset([k1] + l + [k2] + m + r) == all && multiset(l + [k1] + (m + [k2] + r)) == all &&
      multiset(l + m + [k1] + r + [k2]) == all
  {
  }

  // A rearrangement of ascending keys has each of them once.
  lemma EachOnce(s: seq<int>, t: seq<int>)
    requires Sorted(t) && multiset(s) == multiset(t)
    ensures forall i, j :: 0 <= i < j < |s| ==> s[i] != s[j]
  {
    forall i, j | 0 <= i < j < |s| ensures s[i] != s[j] {
      assert s == s[..i] + [s[i]] + s[i + 1..j] + [s[j]] + s[j + 1..];
      if s[i] == s[j] {
        assert multiset(t)[s[i]] >= 2;
        OnceInSorted(t, s[i]);
      }
    }
  }

  lemma {:induction false} OnceInSorted(t: seq<int>, key: int)
    requires Sorted(t)
    ensures multiset(t)[key] <= 1
  {
    if t != [] {
      OnceInSorted(t[1..], key);
      assert t == [t[0]] + t[1..];
      assert t[0] !in t[1..];
    }
  }

  // ----- removeAll: children before their parent -----

  function PostNodes(t: Tree): seq<CNode> {
    if t.Nil? then [] else PostNodes(t.l) + PostNodes(t.m) + PostNodes(t.r) + [t.n]
  }

  function NodesAfter(c: Context): seq<CNode> {
    match c
    case Top => []
    case InLeft(up, n, _, m, r) => PostNodes(m) + (PostNodes(r) + ([n] + NodesAfter(up)))
    case InMiddle(up, n, _, _, r) => PostNodes(r) + ([n] + NodesAfter(up))
    case InRight(up, n, _, _, _) => [n] + NodesAfter(up)
  }

  lemma {:induction false} NodesOnce(t: Tree, x: CNode)
    ensures multiset(PostNodes(t))[x] == Count(t, x) && (x in PostNodes(t) <==> Count(t, x) > 0)
  {
    if t.Node? {
      NodesOnce(t.l, x);
      NodesOnce(t.m, x);
      NodesOnce(t.r, x);
    }
  }

  lemma {:induction false} NodesLeftmost(c: Context, t: Tree)
    requires t.Node? && Proper(t)
    ensures [Leftmost(t).n] + NodesAfter(LeftmostCut(c, t)) == PostNodes(t) + NodesAfter(c)
    decreases t
  {
    var a := NodesAfter(c);
    if t.l.Node? {
      NodesLeftmost(InLeft(c, t.n, t.keys, t.m, t.r), t.l);
      var l, m, r := PostNodes(t.l), PostNodes(t.m), PostNodes(t.r);
      assert l + (m + (r + ([t.n] + a))) == (l + m + r + [t.n]) + a;
    } else {
      assert PostNodes(t) == [] + [] + [] + [t.n];
    }
  }

  // The store still holds the way up from the node n at c, and all that is to the
  // right of it; links to what has been deleted are still there.
  ghost predicate Remaining(c: Context, n: CNode, s: Store) {
    match c
    case Top => true
    case InLeft(up, p, _, m, r) =>
      p in s && s[p].parent == Parent(up) && s[p].body.children == Children(n, Root(m), Root(r)) &&
      Rep(m, p, s) && Rep(r, p, s) && Remaining(up, p, s)
    case InMiddle(up, p, _, l, r) =>
      p in s && s[p].parent == Parent(up) && s[p].body.children == Children(Root(l), n, Root(r)) &&
      Rep(r, p, s) && Remaining(up, p, s)
    case InRight(up, p, _, l, m) =>
      p in s && s[p].parent == Parent(up) && s[p].body.children == Children(Root(l), Root(m), n) && Remaining(up, p, s)
  }

  lemma {:induction false} RemainingKept(c: Context, n: CNode, s: Store, s': Store)
    requires Remaining(c, n, s)
    requires forall x :: x in s && CountAround(c, x) > 0 ==> x in s' && s'[x] == s[x]
    ensures Remaining(c, n, s')
    decreases c
  {
    if !c.Top? {
      assert Count(Fill(c, Nil), c.n) > 0;
      RemainingKept(c.up, c.n, s, s');
      match c
      case InLeft(_, p, _, m, r) => Kept(m, p, s, s'); Kept(r, p, s, s');
      case InMiddle(_, p, _, _, r) => Kept(r, p, s, s');
      case InRight(_, _, _, _, _) =>
    }
  }

  // Down to the leftmost node: everything is still to the right.
  lemma {:induction false} RemainingLeftmost(c: Context, t: Tree, s: Store)
    requires t.Node? && Rep(t, Parent(c), s) && Remaining(c, t.n, s)
    ensures var leaf, cut := Leftmost(t), LeftmostCut(c, t);
      Remaining(cut, leaf.n, s) && leaf.n in s && s[leaf.n].parent == Parent(cut)
    decreases t
  {
    if t.l.Node? {
      RepNode(t, Parent(c), s);
      RemainingLeftmost(InLeft(c, t.n, t.keys, t.m, t.r), t.l, s);
    }
  }

  // The parent, and what is still there to its right.
  lemma RemainingNext(c: Context, t: Tree, s: Store)
    requires !c.Top? && t.Node? && Remaining(c, t.n, s)
    ensures var p := Fill(c, t);
      c.n in s && s[c.n].body.children == Children(Root(p.l), Root(p.m), Root(p.r)) && s[c.n].parent == Parent(c.up) &&
      Remaining(c.up, c.n, s) &&
      (!c.InRight? && p.r.Node? ==> Rep(p.r, c.n, s) && Remaining(InRight(c.up, p.n, p.keys, p.l, p.m), p.r.n, s)) &&
      (c.InLeft? && p.m.Node? ==> Rep(p.m, c.n, s) && Remaining(InMiddle(c.up, p.n, p.keys, t, p.r), p.m.n, s))
  {
    hide Rep;
  }

  // Which child of its parent a node is, by the links.
  lemma ChildrenApart(c: Context, t: Tree, S: set<CNode>)
    requires !c.Top? && t.Node? && t.n in S && Exact(Plug(c, t), S)
    ensures var p := Fill(c, t);
      (c.InLeft? <==> Root(p.l) == t.n) && (c.InMiddle? <==> Root(p.m) == t.n) && (c.InRight? <==> Root(p.r) == t.n)
    ensures CountAround(c, t.n) == 0
  {
    PlugCount(c, t, t.n);
    assert Count(t, t.n) > 0;
    assert Count(Fill(c, Nil), t.n) == 0;
  }

  lemma ProperInner(t: Tree)
    requires Proper(t) && (IsTwo(t) || IsThree(t)) && (t.l.Node? || t.m.Node? || t.r.Node?)
    ensures t.l.Node? && t.r.Node? && (IsThree(t) <==> t.m.Node?)
  {
  }

  lemma PostAtTop(c: Context, t: Tree)
    requires c.Top?
    ensures PostBefore(c) + Post(t) == Post(Plug(c, t))
  {
    assert [] + Post(t) == Post(t);
  }

  lemma PreAtTop(c: Context, t: Tree)
    requires c.Top?
    ensures PreBefore(c) + Pre(t) == Pre(Plug(c, t))
  {
    assert [] + Pre(t) == Pre(t);
  }

  // No more has been visited than there is.
  lemma {:induction false} VisitedFits(c: Context, t: Tree)
    requires IsTree(Plug(c, t)) && t.Node?
    ensures |PostBefore(c)| + |Post(t)| <= |Post(Plug(c, t))| && |PreBefore(c)| + |Pre(t)| <= |Pre(Plug(c, t))|
    decreases c
  {
    if !c.Top? {
      hide Post, Pre;
      var p := Fill(c, t);
      PartOfTree(c.up, p);
      VisitedFits(c.up, p);
      PostNode(p);
      PreNode(p);
      NothingVisited();
    }
  }

  lemma NothingVisited()
    ensures Post(Nil) == [] && Pre(Nil) == []
  {
  }

  lemma UpToFits(c: Context, t: Tree, key: int)
    requires IsTree(Plug(c, t)) && (IsTwo(t) || IsThree(t))
    ensures |PostUpTo(c, t, key)| <= |Post(Plug(c, t))| && |PreUpTo(c, t, key)| <= |Pre(Plug(c, t))|
  {
    VisitedFits(c, t);
    PostNode(t);
    PreNode(t);
  }

  // The nodes that are left.
  ghost function NodesLeft(S: set<CNode>, deleted: seq<CNode>): set<CNode> {
    set x | x in S && x !in deleted
  }

  lemma NodesLeftAfter(S: set<CNode>, deleted: seq<CNode>, n: CNode)
    ensures NodesLeft(S, deleted + [n]) == NodesLeft(S, deleted) - {n} && NodesLeft(S, deleted) <= S
  {
  }

  ghost function Elements(s: seq<CNode>): set<CNode> {
    set x | x in s
  }

  // What removeAll does with nodes, one after the other.
  datatype Access = Read(n: CNode) | Delete(n: CNode)

  // No node is read or deleted after it has been deleted.
  predicate Safe(log: seq<Access>) {
    forall i, j :: 0 <= i < j < |log| && log[i].Delete? ==> log[j].n != log[i].n
  }

  function Deletions(log: seq<Access>): seq<CNode> {
    if log == [] then []
    else
      var n := |log| - 1;
      Deletions(log[..n]) + if log[n].Delete? then [log[n].n] else []
  }

  // The log so far, when deleted are gone and nodes are left.
  ghost predicate Logged(log: seq<Access>, deleted: seq<CNode>, nodes: set<CNode>) {
    Safe(log) && Deletions(log) == deleted && forall i :: 0 <= i < |log| && log[i].Delete? ==> log[i].n !in nodes
  }

  lemma LogRead(log: seq<Access>, deleted: seq<CNode>, nodes: set<CNode>, n: CNode)
    requires Logged(log, deleted, nodes) && n in nodes
    ensures Logged(log + [Read(n)], deleted, nodes)
  {
    assert (log + [Read(n)])[..|log|] == log;
  }

  lemma LogDelete(log: seq<Access>, deleted: seq<CNode>, nodes: set<CNode>, n: CNode)
    requires Logged(log, deleted, nodes) && n in nodes
    ensures Logged(log + [Delete(n)], deleted + [n], nodes - {n})
  {
    assert (log + [Delete(n)])[..|log|] == log;
  }

  lemma NothingLogged(nodes: set<CNode>)
    ensures Logged([], [], nodes)
  {
  }

  // The nodes in this order are the nodes of the tree, each once.
  lemma AllNodes(t: Tree, S: set<CNode>)
    requires Exact(t, S)
    ensures var p := PostNodes(t); Elements(p) == S && forall i, j :: 0 <= i < j < |p| ==> p[i] != p[j]
    ensures NodesLeft(S, PostNodes(t)) == {} && (t.Nil? ==> S == {})
  {
    hide PostNodes, Count, Exact;
    var p := PostNodes(t);
    forall x | x in S ensures x in p { NodeListed(t, S, x); }
    forall i | 0 <= i < |p| ensures p[i] in S { NodeListed(t, S, p[i]); }
    forall i, j | 0 <= i < j < |p| ensures p[i] != p[j] {
      NodeListed(t, S, p[i]);
      assert p == p[..i] + [p[i]] + p[i + 1..] && p[j] in p[i + 1..];
    }
    NodesCounted();
  }

  lemma NodeListed(t: Tree, S: set<CNode>, x: CNode)
    requires Exact(t, S)
    ensures (x in PostNodes(t) <==> x in S) && (x in S ==> multiset(PostNodes(t))[x] == 1)
  {
    NodesOnce(t, x);
    if x !in S { WithinCount(t, S, x); }
  }

  lemma NodesCounted()
    ensures PostNodes(Nil) == []
  {
  }

  lemma {:induction false} WithinCount(t: Tree, S: set<CNode>, x: CNode)
    requires Within(t, S) && x !in S
    ensures Count(t, x) == 0
  {
    if t.Node? {
      WithinCount(t.l, S, x);
      WithinCount(t.m, S, x);
      WithinCount(t.r, S, x);
    }
  }

  lemma RemovalStarts(t: Tree, s: Store)
    requires t.Node? && Rep(t, null, s)
    ensures var leaf, cut := Leftmost(t), LeftmostCut(Top, t);
      Remaining(cut, leaf.n, s) && leaf.n in s && s[leaf.n].parent == Parent(cut)
  {
    RemainingLeftmost(Top, t, s);
  }

  lemma NilIsTree()
    ensures IsTree(Nil) && Sorted(Inorder(Nil)) && Exact(Nil, {}) && forall s :: Rep(Nil, null, s)
  {
    assert Perfect(Nil, 0);
  }

  // The subtree that follows in the parent, and what follows it.
  lemma GoesRight(c: Context, t: Tree)
    requires c.InMiddle? || (c.InLeft? && c.m.Nil?)
    ensures var p := Fill(c, t);
      Plug(InRight(c.up, p.n, p.keys, p.l, p.m), p.r) == Plug(c, t) &&
      PostNodes(p.r) + NodesAfter(InRight(c.up, p.n, p.keys, p.l, p.m)) == NodesAfter(c)
  {
    if c.InLeft? { assert [] + (PostNodes(c.r) + ([c.n] + NodesAfter(c.up))) == PostNodes(c.r) + ([c.n] + NodesAfter(c.up)); }
  }

  lemma GoesToMiddle(c: Context, t: Tree)
    requires c.InLeft?
    ensures var p := Fill(c, t);
      Plug(InMiddle(c.up, p.n, p.keys, t, p.r), p.m) == Plug(c, t) &&
      PostNodes(p.m) + NodesAfter(InMiddle(c.up, p.n, p.keys, t, p.r)) == NodesAfter(c)
  {
  }

  // eTreeTraversal
  datatype Traversal = inorder | preorder | postorder

  function Visited(order: Traversal, t: Tree): seq<int> {
    match order
    case inorder => Inorder(t)
    case preorder => Pre(t)
    case postorder => Post(t)
  }

  // Every order has the keys of the tree, each once.
  lemma VisitedKeys(order: Traversal, t: Tree)
    requires IsTree(t) && Sorted(Inorder(t))
    ensures var v := Visited(order, t); multiset(v) == multiset(Inorder(t)) && forall i, j :: 0 <= i < j < |v| ==> v[i] != v[j]
  {
    var h :| Perfect(t, h);
    PerfectProper(t, h);
    SameKeys(t);
    EachOnce(Visited(order, t), Inorder(t));
  }

  function VisitedUpTo(order: Traversal, c: Context, t: Tree, key: int): seq<int>
    requires t.Node?
  {
    match order
    case inorder => UpTo(c, t, key)
    case preorder => PreUpTo(c, t, key)
    case postorder => PostUpTo(c, t, key)
  }

  lemma VisitedFitsTree(order: Traversal, tree: Tree, c: Context, t: Tree, key: int)
    requires IsTree(tree) && KeyAt(tree, c, t, key)
    ensures |VisitedUpTo(order, c, t, key)| <= |Visited(order, tree)|
  {
    PartOfTree(c, t);
    UpToBegins(c, t, key);
    UpToFits(c, t, key);
  }
}
