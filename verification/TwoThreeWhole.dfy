// What the methods of CTree do to one part of the store, seen from the whole tree:
// repairs, the exchange with the in-order successor, the removal of the root, and
// what the methods see of the nodes around a position.
module TwoThreeWhole {
  import opened SortedKeys
  import opened TwoThreeNode
  import opened TwoThreeShape
  import opened TwoThreeRotation
  import opened TwoThreeRegion
  import opened TwoThreeLocal
  import opened TwoThreeMerger
  import opened TwoThreeGlobal
  import opened TwoThreeRepair
  import opened TwoThreeSearch
  import opened TwoThreeDeletion
  import opened TwoThreeTraversal

  // The error codes of CTreeError.h.
  datatype Code = Success | Failure | IsEmpty | NotFound | DuplicateValue

  // A repair inside one subtree, seen from the whole tree.
  lemma ReplacedInTree(c: Context, t: Tree, s: Store, t': Tree, s': Store)
    requires Rep(Plug(c, t), null, s) && Exact(Plug(c, t), s.Keys)
    requires Replaced(t, Parent(c), s, t', s')
    ensures Rep(Plug(c, t'), null, s') && Exact(Plug(c, t'), s'.Keys)
    ensures Root(Plug(c, t')) == Root(Plug(c, t))
  {
    forall n | n in s
      ensures CountAround(c, n) + Count(t, n) == 1 && Count(Plug(c, t'), n) == CountAround(c, n) + Count(t', n)
    {
      PlugCount(c, t, n);
      PlugCount(c, t', n);
    }
    Replug(c, t, s, t', s');
    RepWithin(Plug(c, t'), null, s');
    SameRoot(c, t, t');
  }

  lemma Rebuilt(c: Context, t: Tree, s: Store, t': Tree, S: set<CNode>, S': set<CNode>)
    requires s.Keys == S && Rep(Plug(c, t), null, s) && Exact(Plug(c, t), S)
    requires Replaced(t, Parent(c), s, t', At(S'))
    ensures Rep(Plug(c, t'), null, At(S')) && Exact(Plug(c, t'), S') && Root(Plug(c, t')) == Root(Plug(c, t))
  {
    hide Rep, Exact, Plug, Replaced, Root;
    assert At(S').Keys == S';
    ReplacedInTree(c, t, s, t', At(S'));
  }

  lemma {:induction false} SameRoot(c: Context, t: Tree, t': Tree)
    requires Root(t') == Root(t)
    ensures Root(Plug(c, t')) == Root(Plug(c, t))
    decreases c
  {
    if !c.Top? { SameRoot(c.up, Fill(c, t), Fill(c, t')); }
  }

  // A node that is no hole shows its size in its flags.
  lemma Sized(t: Tree, q: CNode?, s: Store)
    requires t.Node? && !t.keys.NoKey? && Rep(t, q, s)
    ensures t.n in s && s[t.n].body.smallSet && (s[t.n].body.bigSet <==> IsThree(t))
  {
  }

  ghost predicate ShowsSize(t: Tree)
    reads if t.Node? then {t.n} else {}
  {
    t.Node? && (IsTwo(t) || IsThree(t)) && t.n.GetSize() == if IsThree(t) then ThreeNode else TwoNode
  }

  // What the methods see of a hole's parent and siblings: t is the parent's
  // subtree, n the hole.
  ghost predicate Family(t: Tree, c: Context, n: CNode, S: set<CNode>)
    reads S
  {
    t.Node? && t.n in S && n in S && n.parent == t.n && !n.bigKeyIsSet && ShowsSize(t) &&
    t.n.children == Children(Root(t.l), Root(t.m), Root(t.r)) &&
    t.l.Node? && t.l.n in S && t.r.Node? && t.r.n in S &&
    (IsThree(t) <==> t.m.Node?) && (t.m.Node? ==> t.m.n in S) &&
    (if c.InLeft? then t.l.n == n && IsHole(t.l) else t.l.n != n && ShowsSize(t.l)) &&
    (if c.InMiddle? then t.m.Node? && t.m.n == n && IsHole(t.m) else Root(t.m) != n && (t.m.Node? ==> ShowsSize(t.m))) &&
    (if c.InRight? then t.r.n == n && IsHole(t.r) else t.r.n != n && ShowsSize(t.r))
  }

  lemma FamilyOf(c: Context, n: CNode, a: Tree, h: nat, S: set<CNode>)
    requires !c.Top? && Rep(Plug(c, Hole(n, a)), null, At(S)) && Exact(Plug(c, Hole(n, a)), S) && HoleAt(c, a, h)
    ensures var t := Fill(c, Hole(n, a));
      Family(t, c, n, S) && Rep(t, Parent(c.up), At(S)) && Distinct(t, S)
  {
    hide Count, Rep, Plug;
    var s := At(S);
    assert s.Keys == S;
    var t := Fill(c, Hole(n, a));
    PlugRep(c, Hole(n, a), s);
    forall x | x in S ensures Count(t, x) <= 1 {
      PlugCount(c.up, t, x);
      assert Plug(c, Hole(n, a)) == Plug(c.up, t) by { PlugStep(c, Hole(n, a)); }
    }
    RepNode(t, Parent(c.up), s);
    RepNode(Hole(n, a), c.n, s);
    NodeCounts(t, n);
    RootCounts(t.l);
    RootCounts(t.m);
    RootCounts(t.r);
    assert Count(t, n) <= 1;
    Sized(t, Parent(c.up), s);
    SizedChild(t.l, t.n, h, s);
    SizedChild(t.m, t.n, h, s);
    SizedChild(t.r, t.n, h, s);
  }

  lemma PlugStep(c: Context, t: Tree)
    requires !c.Top?
    ensures Plug(c, t) == Plug(c.up, Fill(c, t))
  {
  }

  lemma AllAtTop(c: Context, t: Tree)
    requires c.Top?
    ensures Before(c) + Inorder(t) == Inorder(Plug(c, t))
  {
    assert [] + Inorder(t) == Inorder(t);
  }

  lemma SizedChild(t: Tree, q: CNode, h: nat, s: Store)
    requires Rep(t, q, s)
    ensures t.Node? ==> t.n in s
    ensures t.Node? && Perfect(t, h) ==>
      (IsTwo(t) || IsThree(t)) && s[t.n].body.smallSet && (s[t.n].body.bigSet <==> IsThree(t))
  {
  }

  // What search sees of the node at c.
  lemma SearchSees(c: Context, t: Tree, S: set<CNode>)
    requires Rep(Plug(c, t), null, At(S)) && t.Node? && Proper(t)
    ensures t.n in S && (IsTwo(t) || IsThree(t)) && t.n.GetSize() == if IsThree(t) then ThreeNode else TwoNode
    ensures t.n.smallKey == t.keys.First()[0] && (IsThree(t) ==> t.n.bigKey == t.keys.k2)
    ensures t.n.children == Children(Root(t.l), Root(t.m), Root(t.r))
  {
    hide Rep;
    PlugRep(c, t, At(S));
    RepNode(t, Parent(c), At(S));
  }

  // Where it goes on, and that Find goes there.
  lemma SearchNext(c: Context, t: Tree, key: int)
    requires t.Node? && Proper(t)
    ensures var (c', t') := Next(c, t, key);
      Plug(c', t') == Plug(c, t) && Proper(t') && (t'.Node? ==> t' < t) &&
      t' == (if key < t.keys.First()[0] then t.l else if t.keys.OneKey? || key > t.keys.k2 then t.r else t.m) &&
      Find(c, t, key) == if InKeys(key, t.keys) || t'.Nil? then (c, t) else Find(c', t', key)
  {
    PlugStep(Next(c, t, key).0, Next(c, t, key).1);
  }

  // The outermost nodes of a subtree show whether they have two keys.
  lemma OutermostSizes(t: Tree, q: CNode?, S: set<CNode>)
    requires t.Node? && Rep(t, q, At(S))
    ensures Leftmost(t).n in S && (Leftmost(t).n.GetSize() == ThreeNode <==> IsThree(Leftmost(t)))
    ensures Rightmost(t).n in S && (Rightmost(t).n.GetSize() == ThreeNode <==> IsThree(Rightmost(t)))
  {
    LeftmostKeys(t, q, At(S));
    RightmostKeys(t, q, At(S));
  }

  // ----- The exchange with the in-order successor -----

  lemma {:induction false} LeftmostCutWith(c: Context, t: Tree, keys: Keys)
    requires t.Node?
    ensures var leaf := Leftmost(t);
      Plug(LeftmostCut(c, t), Node(leaf.n, keys, leaf.l, leaf.m, leaf.r)) == Plug(c, WithLeftmost(t, keys))
    decreases t
  {
    if t.l.Node? {
      LeftmostCutWith(InLeft(c, t.n, t.keys, t.m, t.r), t.l, keys);
    }
  }

  // The node's keys are keys, the leaf's keys2; nothing else has changed.
  ghost predicate Swapped(s: Store, s': Store, n: CNode, keys: Keys, leaf: CNode, keys2: Keys) {
    s'.Keys == s.Keys && n in s && leaf in s && n != leaf && HasKeys(s, s', n, keys) && HasKeys(s, s', leaf, keys2) &&
    forall x :: x in s && x != n && x != leaf ==> s'[x] == s[x]
  }

  ghost predicate HasKeys(s: Store, s': Store, n: CNode, keys: Keys)
    requires n in s && n in s'
  {
    s'[n].parent == s[n].parent && s'[n].body.children == s[n].body.children &&
    match keys
    case NoKey => !s'[n].body.bigSet
    case OneKey(k) => s'[n].body.smallSet && s'[n].body.small == k && !s'[n].body.bigSet
    case TwoKeys(k1, k2) =>
      s'[n].body.smallSet && s'[n].body.small == k1 && s'[n].body.bigSet && s'[n].body.big == k2
  }

  function SwappedIn(c: Context, t: Tree, key: int, next: int, keys2: Keys): Tree
    requires t.Node? && SuccessorChild(t, key).Node?
  {
    Fill(SuccessorCut(c, t, key, Exchanged(t.keys, key, next)), WithLeftmost(SuccessorChild(t, key), keys2))
  }

  lemma SwappedCount(c: Context, t: Tree, key: int, next: int, keys2: Keys, x: CNode)
    requires t.Node? && SuccessorChild(t, key).Node?
    ensures Count(SwappedIn(c, t, key, next, keys2), x) == Count(t, x)
  {
    NodeCounts(t, x);
    NodeCounts(SwappedIn(c, t, key, next, keys2), x);
    OutermostCounts(SuccessorChild(t, key), keys2, x);
  }

  lemma SwappedApart(t: Tree, child: Tree, other: Tree, s: Store, q: CNode?)
    requires t.Node? && Rep(t, q, s) && Distinct(t, s.Keys) && child.Node?
    requires (child == t.m && other == t.r) || (child == t.r && other == t.m)
    ensures var leaf := Leftmost(child).n;
      leaf in s && Count(child, t.n) == Count(other, t.n) == Count(t.l, t.n) == 0 &&
      Count(other, leaf) == Count(t.l, leaf) == 0 && Distinct(child, s.Keys)
  {
    hide Count;
    var leaf := Leftmost(child).n;
    LeftmostKeys(child, t.n, s);
    OutermostCounts(child, NoKey, leaf);
    forall x | x in s
      ensures 1 >= Count(t, x) == One(t.n, x) + Count(t.l, x) + Count(t.m, x) + Count(t.r, x)
    {
      NodeCounts(t, x);
    }
  }

  lemma SwappedRep(c: Context, t: Tree, key: int, next: int, keys2: Keys, s: Store, s': Store)
    requires t.Node? && SuccessorChild(t, key).Node? && Rep(t, Parent(c), s) && Distinct(t, s.Keys)
    requires Swapped(s, s', t.n, Exchanged(t.keys, key, next), Leftmost(SuccessorChild(t, key)).n, keys2)
    ensures Rep(SwappedIn(c, t, key, next, keys2), Parent(c), s')
  {
    hide Count, Leftmost;
    var child := SuccessorChild(t, key);
    var other := if SuccessorInMiddle(t, key) then t.r else t.m;
    SwappedApart(t, child, other, s, Parent(c));
    LeftmostRep(child, keys2, t.n, s, s');
    Kept(t.l, t.n, s, s');
    Kept(other, t.n, s, s');
    SameRoots(child, keys2);
    RepMake(SwappedIn(c, t, key, next, keys2), Parent(c), s');
  }

  lemma SameRoots(t: Tree, keys: Keys)
    requires t.Node?
    ensures Root(WithLeftmost(t, keys)) == Root(t)
  {
  }

  lemma SwappedTree(c: Context, t: Tree, key: int, next: int, keys2: Keys, s: Store, s': Store)
    requires t.Node? && SuccessorChild(t, key).Node? && Rep(t, Parent(c), s) && Distinct(t, s.Keys)
    requires Swapped(s, s', t.n, Exchanged(t.keys, key, next), Leftmost(SuccessorChild(t, key)).n, keys2)
    ensures Replaced(t, Parent(c), s, SwappedIn(c, t, key, next, keys2), s')
  {
    hide Rep, Count;
    var t' := SwappedIn(c, t, key, next, keys2);
    SwappedRep(c, t, key, next, keys2, s, s');
    NodeCounts(t, t.n);
    OutermostCounts(SuccessorChild(t, key), NoKey, t.n);
    forall x | x in s
      ensures Count(t', x) == Count(t, x) && (Count(t, x) == 0 ==> x != t.n && x != Leftmost(SuccessorChild(t, key)).n)
    {
      SwappedCount(c, t, key, next, keys2, x);
      NodeCounts(t, x);
      OutermostCounts(SuccessorChild(t, key), NoKey, x);
    }
  }

  lemma SwappedPlug(c: Context, t: Tree, key: int, next: int, keys2: Keys)
    requires t.Node? && SuccessorChild(t, key).Node? && Proper(SuccessorChild(t, key))
    ensures var cut, child := SuccessorCut(c, t, key, Exchanged(t.keys, key, next)), SuccessorChild(t, key);
      Plug(c, SwappedIn(c, t, key, next, keys2)) ==
      Plug(LeftmostCut(cut, child), Node(Leftmost(child).n, keys2, Nil, Nil, Nil))
  {
    var cut, child := SuccessorCut(c, t, key, Exchanged(t.keys, key, next)), SuccessorChild(t, key);
    LeftmostCutWith(cut, child, keys2);
    LeftmostIsLeaf(child);
  }

  // The two assignments of swapWithInOrderSuccessor.
  function SwapKeys(s: Store, n: CNode, key: int, leaf: CNode, next: int): Store
    requires n in s && leaf in s
  {
    var s1 := PutSmallKey(s, leaf, key);
    if key == s[n].body.small then PutSmallKey(s1, n, next) else PutBigKey(s1, n, next)
  }

  method ExchangeKeys(node: CNode, key: int, leafNode: CNode, leafKey: int, ghost S: set<CNode>)
    returns (code: Code, leafFound: CNode?)
    requires node in S && leafNode in S && (key == node.smallKey || key == node.bigKey)
    modifies S
    ensures code == Success && leafFound == leafNode
    ensures At(S) == SwapKeys(old(At(S)), node, key, leafNode, leafKey)
  {
    code, leafFound := Failure, null;
    if key == node.smallKey {
      leafNode.SetSmallKey(key, S);
      node.SetSmallKey(leafKey, S);
      leafFound := leafNode;
      code := Success;
    } else if key == node.bigKey {
      leafNode.SetSmallKey(key, S);
      node.SetBigKey(leafKey, S);
      leafFound := leafNode;
      code := Success;
    }
  }

  lemma SwapMoves(t: Tree, key: int, q: CNode?, s: Store)
    requires Rep(t, q, s) && Distinct(t, s.Keys) && (IsTwo(t) || IsThree(t)) && InKeys(key, t.keys)
    requires SuccessorChild(t, key).Node? && !Leftmost(SuccessorChild(t, key)).keys.NoKey?
    requires IsThree(t) ==> t.keys.k1 != t.keys.k2
    ensures var leaf := Leftmost(SuccessorChild(t, key));
      var next := leaf.keys.First()[0];
      leaf.n in s && t.n in s &&
      Swapped(s, SwapKeys(s, t.n, key, leaf.n, next), t.n, Exchanged(t.keys, key, next), leaf.n, Exchanged(leaf.keys, next, key))
  {
    hide Count, Distinct;
    var child := SuccessorChild(t, key);
    var leaf := Leftmost(child);
    RepNode(t, q, s);
    SwappedApart(t, child, if SuccessorInMiddle(t, key) then t.r else t.m, s, q);
    OutermostCounts(child, NoKey, t.n);
    LeafFits(child, t.n, s);
  }

  lemma {:induction false} LeafFits(t: Tree, q: CNode?, s: Store)
    requires t.Node? && Rep(t, q, s)
    ensures var leaf := Leftmost(t); leaf.n in s && Fits(s[leaf.n].body, leaf.keys, leaf.l, leaf.m, leaf.r)
  {
    if t.l.Node? { LeafFits(t.l, t.n, s); }
  }

  predicate ProperChild(t: Tree, key: int)
    requires t.Node?
  {
    SuccessorChild(t, key).Node? && Proper(SuccessorChild(t, key)) && !Leftmost(SuccessorChild(t, key)).keys.NoKey?
  }

  lemma ChildIsProper(t: Tree, key: int)
    requires t.Node? && t.l.Node? && Proper(t) && InKeys(key, t.keys)
    ensures ProperChild(t, key)
  {
    ProperLeftmost(SuccessorChild(t, key));
  }

  // The successor's leaf, with the key in the successor's place.
  function SwappedLeaf(t: Tree, key: int): Tree
    requires t.Node? && ProperChild(t, key)
  {
    var leaf := Leftmost(SuccessorChild(t, key));
    Node(leaf.n, Exchanged(leaf.keys, leaf.keys.First()[0], key), Nil, Nil, Nil)
  }

  lemma DistinctPart(c: Context, t: Tree, S: set<CNode>)
    requires Exact(Plug(c, t), S)
    ensures Distinct(t, S)
  {
    forall x | x in S ensures Count(t, x) <= 1 { PlugCount(c, t, x); }
  }

  lemma SwappedWhole(c: Context, t: Tree, key: int, s: Store)
    requires Rep(Plug(c, t), null, s) && Exact(Plug(c, t), s.Keys)
    requires (IsTwo(t) || IsThree(t)) && InKeys(key, t.keys) && Proper(t) && t.l.Node? && ProperChild(t, key)
    requires IsThree(t) ==> t.keys.k1 != t.keys.k2
    ensures var leaf := Leftmost(SuccessorChild(t, key));
      var next := leaf.keys.First()[0];
      leaf.n in s && t.n in s && DeletionSite(c, t, key).n == leaf.n &&
      var s' := SwapKeys(s, t.n, key, leaf.n, next);
      var tree' := Plug(DeletionSite(c, t, key).c, SwappedLeaf(t, key));
      s'.Keys == s.Keys && Rep(tree', null, s') && Exact(tree', s.Keys) && Root(tree') == Root(Plug(c, t))
  {
    hide Rep, Exact, Distinct, Plug, Count;
    var leaf := Leftmost(SuccessorChild(t, key));
    var next := leaf.keys.First()[0];
    var keys2 := Exchanged(leaf.keys, next, key);
    PlugRep(c, t, s);
    DistinctPart(c, t, s.Keys);
    SwapMoves(t, key, Parent(c), s);
    var s' := SwapKeys(s, t.n, key, leaf.n, next);
    SwappedTree(c, t, key, next, keys2, s, s');
    ReplacedInTree(c, t, s, SwappedIn(c, t, key, next, keys2), s');
    SwappedPlug(c, t, key, next, keys2);
  }

  // ----- Taking a key out of a leaf -----

  lemma LeafRekeyed(n: CNode, keys: Keys, keys2: Keys, q: CNode?, s: Store, s': Store)
    requires Rep(Node(n, keys, Nil, Nil, Nil), q, s) && n in s && n in s' && HasKeys(s, s', n, keys2)
    requires s'.Keys == s.Keys && forall x :: x in s && x != n ==> s'[x] == s[x]
    ensures Replaced(Node(n, keys, Nil, Nil, Nil), q, s, Node(n, keys2, Nil, Nil, Nil), s')
  {
    var t, t' := Node(n, keys, Nil, Nil, Nil), Node(n, keys2, Nil, Nil, Nil);
    RepNil(n, s');
    RepMake(t', q, s');
  }

  // The assignments of removeFromLeaf.
  function RemoveKey(s: Store, n: CNode, key: int): Store
    requires n in s
  {
    if key == s[n].body.small then DropBigKey(PutSmallKey(s, n, s[n].body.big), n) else DropBigKey(s, n)
  }

  lemma KeyRemoved(c: Context, n: CNode, keys: Keys, key: int, s: Store)
    requires Rep(Plug(c, Node(n, keys, Nil, Nil, Nil)), null, s) && Exact(Plug(c, Node(n, keys, Nil, Nil, Nil)), s.Keys)
    requires keys.TwoKeys? && InKeys(key, keys)
    ensures n in s && s[n].body.small == keys.k1 && s[n].body.big == keys.k2
    ensures var tree' := Plug(c, Node(n, Rest(keys, key), Nil, Nil, Nil));
      Rep(tree', null, RemoveKey(s, n, key)) && Exact(tree', s.Keys) &&
      Root(tree') == Root(Plug(c, Node(n, keys, Nil, Nil, Nil)))
  {
    hide Rep, Exact, Plug;
    var t := Node(n, keys, Nil, Nil, Nil);
    PlugRep(c, t, s);
    RepNode(t, Parent(c), s);
    LeafRekeyed(n, keys, Rest(keys, key), Parent(c), s, RemoveKey(s, n, key));
    ReplacedInTree(c, t, s, Node(n, Rest(keys, key), Nil, Nil, Nil), RemoveKey(s, n, key));
  }

  // The leaf deleteItem takes the key out of holds the key by then: at the
  // node found, or after the exchange.
  lemma FoundSite(c: Context, t: Tree, key: int, S: set<CNode>)
    requires IsTree(Plug(c, t)) && Exact(Plug(c, t), S) && t.Node? && Proper(t) && InKeys(key, t.keys)
    ensures var site := DeletionSite(c, t, key);
      (site.rest.NoKey? ==> HoleAt(site.c, Nil, 1)) &&
      if t.l.Nil?
      then site.c == c && site.n == t.n && site.rest == Rest(t.keys, key) && t == Node(t.n, t.keys, Nil, Nil, Nil)
      else
        ProperChild(t, key) &&
        var leaf := SwappedLeaf(t, key);
        leaf == Node(site.n, leaf.keys, Nil, Nil, Nil) && !leaf.keys.NoKey? &&
        InKeys(key, leaf.keys) && site.rest == Rest(leaf.keys, key)
    ensures forall keys :: InKeys(key, keys) ==> (Rest(keys, key).NoKey? <==> keys.OneKey?)
  {
    var h: nat :| Perfect(Plug(c, t), h);
    SiteRepairable(c, t, key, h, S);
    if t.l.Node? { ChildIsProper(t, key); }
  }

  // A leaf with one key counts as a hole: nothing has to be written.
  lemma EmptiedLeaf(c: Context, n: CNode, keys: Keys, s: Store)
    requires Rep(Plug(c, Node(n, keys, Nil, Nil, Nil)), null, s) && Exact(Plug(c, Node(n, keys, Nil, Nil, Nil)), s.Keys)
    requires keys.OneKey?
    ensures Rep(Plug(c, Hole(n, Nil)), null, s) && Exact(Plug(c, Hole(n, Nil)), s.Keys)
    ensures Root(Plug(c, Hole(n, Nil))) == Root(Plug(c, Node(n, keys, Nil, Nil, Nil)))
  {
    hide Rep, Exact, Plug;
    var t, t' := Node(n, keys, Nil, Nil, Nil), Hole(n, Nil);
    PlugRep(c, t, s);
    RepNode(t, Parent(c), s);
    LeafRekeyed(n, keys, NoKey, Parent(c), s, s);
    ReplacedInTree(c, t, s, t', s);
  }

  // ----- The hole is the root -----

  lemma {:induction false} RootAround(c: Context, u: Tree)
    requires !c.Top?
    ensures Plug(c, u).Node? && CountAround(c, Plug(c, u).n) > 0
    decreases c
  {
    if !c.up.Top? { RootAround(c.up, Fill(c, u)); }
  }

  // Below the root the hole is another node.
  lemma RootIsAnother(c: Context, n: CNode, a: Tree, S: set<CNode>)
    requires !c.Top? && Exact(Plug(c, Hole(n, a)), S)
    ensures Root(Plug(c, Hole(n, a))) != n
  {
    var t := Plug(c, Hole(n, a));
    RootAround(c, Hole(n, a));
    PlugCount(c, Hole(n, a), n);
    WithinPlug(c, Hole(n, a), S);
  }

  lemma ParentDropped(n: CNode, a: Tree, s: Store, s': Store)
    requires a.Node? && Rep(a, n, s) && a.n in s' && s'[a.n] == s[a.n].(parent := null)
    requires forall x :: x in s ==> One(n, x) + Count(a, x) <= 1
    requires forall x :: x in s && x != n && x != a.n ==> x in s' && s'[x] == s[x]
    ensures Rep(a, null, s')
  {
    hide Count, Rep;
    RepNode(a, n, s);
    forall x | x in s
      ensures One(n, x) + One(a.n, x) + Count(a.l, x) + Count(a.m, x) + Count(a.r, x) <= 1
    {
      NodeCounts(a, x);
    }
    Kept(a.l, a.n, s, s');
    Kept(a.m, a.n, s, s');
    Kept(a.r, a.n, s, s');
    RepMake(a, null, s');
  }

  lemma RootDropped(n: CNode, a: Tree, s: Store, s': Store)
    requires Rep(Hole(n, a), null, s) && Exact(Hole(n, a), s.Keys)
    requires s'.Keys == s.Keys - {n}
    requires forall x :: x in s' ==> s'[x] == if a.Node? && x == a.n then s[x].(parent := null) else s[x]
    ensures Rep(a, null, s') && Exact(a, s'.Keys)
  {
    hide Count, Rep;
    RepNode(Hole(n, a), null, s);
    forall x | x in s ensures One(n, x) + Count(a, x) == 1 {
      NodeCounts(Hole(n, a), x);
      NodeCounts(Nil, x);
    }
    if a.Node? {
      RootCounts(a);
      ParentDropped(n, a, s, s');
    } else {
      RepNil(null, s');
    }
    RepWithin(a, null, s');
  }

  lemma AlmostRoot(t: Tree, h: nat)
    requires AlmostPerfect(t, h) && !IsHole(t) && h >= 2
    ensures (IsTwo(t) || IsThree(t)) && t.l.Node? && t.r.Node? && (t.m.Node? <==> IsThree(t))
  {
    assert !Perfect(Nil, h - 1);
  }

  // What the methods see of the root above a hole.
  lemma RootShape(c: Context, n: CNode, a: Tree, h: nat, S: set<CNode>)
    requires !c.Top? && HoleAt(c, a, h) && Rep(Plug(c, Hole(n, a)), null, At(S))
    ensures var t := Plug(c, Hole(n, a)); ShowsSize(t) && t.l.Node? && t.r.Node? && (t.m.Node? <==> IsThree(t))
  {
    var t := Plug(c, Hole(n, a));
    PlugAlmost(c, Hole(n, a), h);
    RootIsNoHole(c, Hole(n, a), h);
    Sized(t, null, At(S));
    AlmostRoot(t, h + Depth(c));
  }

  lemma PlugTop(t: Tree)
    ensures Plug(Top, t) == t
  {
  }

  // What one pass of the repair loop starts from, and what it is to do.
  lemma RepairStepFacts(c: Context, n: CNode, a: Tree, h: nat, S: set<CNode>)
    requires !c.Top? && HoleAt(c, a, h)
    requires Rep(Plug(c, Hole(n, a)), null, At(S)) && Exact(Plug(c, Hole(n, a)), S)
    ensures var t, tree := Fill(c, Hole(n, a)), Plug(c, Hole(n, a));
      Family(t, c, n, S) && Rep(t, Parent(c.up), At(S)) && Distinct(t, S) && Distinct(tree, S) &&
      n in S && !n.bigKeyIsSet && ShowsSize(tree) && tree.l.Node? && tree.r.Node? && (tree.m.Node? <==> IsThree(tree)) &&
      Repairable(c, n, a, h, S) && tree == Plug(c.up, t) && t.n == c.n
    ensures var t, tree := Fill(c, Hole(n, a)), Plug(c, Hole(n, a));
      Repaired(c, n, a) ==
        if CanRotate(t) then Plug(c.up, Rotated(t))
        else if CanRotateGlobally(tree, n) then GloballyRotated(tree, n)
        else if CanMerge(t) then Plug(c.up, LocallyMerged(t))
        else if CanHollow(t) then Repaired(c.up, c.n, OnlyChild(t))
        else tree
  {
    FamilyOf(c, n, a, h, S);
    RootShape(c, n, a, h, S);
    DistinctPart(Top, Plug(c, Hole(n, a)), S);
    PlugTop(Plug(c, Hole(n, a)));
    WithinPlug(c, Hole(n, a), S);
  }

  // ----- Without -----

  lemma {:induction false} WithoutAbsent(s: seq<int>, key: int)
    requires key !in s
    ensures Without(s, key) == s
  {
    if s != [] {
      WithoutAbsent(s[1..], key);
      assert [s[0]] + s[1..] == s;
    }
  }

  lemma {:induction false} WithoutSorted(s: seq<int>, key: int)
    requires Sorted(s)
    ensures Sorted(Without(s, key)) && forall x :: x in Without(s, key) <==> x in s && x != key
  {
    if s != [] {
      assert s == [s[0]] + s[1..];
      SortedParts([], s[0], s[1..]);
      WithoutSorted(s[1..], key);
      var rest := Without(s[1..], key);
      assert [] + [s[0]] + rest == [s[0]] + rest;
      if s[0] != key { SortedJoin([], s[0], rest); }
    }
  }
}
