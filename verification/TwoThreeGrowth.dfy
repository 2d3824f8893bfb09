// CTree::add and CTree::split on the store: what their assignments do to a node,
// its subtrees and a new node, which trees the store then holds, and how the
// subtree that was added stands beside the tree until its place is found.
module TwoThreeGrowth {
  import opened SortedKeys
  import opened TwoThreeNode
  import opened TwoThreeShape
  import opened TwoThreeRegion
  import opened TwoThreeRepair
  import opened TwoThreeSearch
  import opened TwoThreeDeletion
  import opened TwoThreeInsertion
  import opened TwoThreeWhole

  // ----- What the assignments do -----

  // A node's keys and children become b, the nodes of A are put below p, x below n.
  ghost predicate Rewritten(s: Store, s': Store, n: CNode, b: Body, x: CNode?, A: set<CNode?>, p: CNode)
    requires n in s
  {
    s'.Keys == s.Keys && s'[n] == Cell(b, s[n].parent) &&
    forall y :: y in s && y != n ==> s'[y] == Cell(s[y].body, if y == x then n else if y in A then p else s[y].parent)
  }

  // A new node's cell.
  function NewCell(k: int, big: int, l: CNode?, r: CNode?): Cell {
    Cell(Body(k, true, big, false, Children(l, null, r)), null)
  }

  // The node split at n: its keys and children afterwards, and those of the new node.
  function RestBody(b: Body, k: int, d: CNode?): Body {
    var c := b.children;
    if k > b.big then b.(small := k, bigSet := false, smallSet := true, children := Children(d, null, c.right))
    else b.(small := b.big, bigSet := false, smallSet := true, children := Children(c.middle, null, c.right))
  }

  function AddedPair(b: Body, k: int, d: CNode?): (CNode?, CNode?) {
    var c := b.children;
    if k > b.big then (c.left, c.middle) else if k < b.small then (d, c.left) else (c.left, d)
  }

  function AddedKey(b: Body, k: int): int {
    if k > b.big then b.small else if k < b.small then k else b.small
  }

  function RisingKey(b: Body, k: int): int {
    if k > b.big then b.big else if k < b.small then b.small else k
  }

  // ----- split -----

  function Trimmed(s: Store, n: CNode): Store
    requires n in s
  {
    PutChild(DropBigKey(s, n), n, MiddleChild, null)
  }

  // What all branches share: the new node takes l and r, and node's first key
  // and subtree are replaced.
  function Halved(s: Store, n: CNode, l: CNode?, r: CNode?, k: int, x: CNode?, p: CNode): Store
    requires n in s
  {
    Trimmed(PutChild(PutSmallKey(Adopted(Adopted(s, l, p), r, p), n, k), n, LeftChild, x), n)
  }

  function SplitStore(s: Store, n: CNode, k: int, d: CNode?, p: CNode): Store
    requires n in s
  {
    var b := s[n].body;
    var c := b.children;
    if k > b.big then Halved(s, n, c.left, c.middle, k, d, p)
    else if k < b.small then Halved(s, n, d, c.left, b.big, c.middle, p)
    else Halved(s, n, c.left, d, b.big, c.middle, p)
  }

  // A three node, and a subtree root that is none of its children.
  ghost predicate Splittable(s: Store, n: CNode, d: CNode?) {
    n in s && d != n && s[n].body.smallSet &&
    var c := s[n].body.children;
    c.left != n && c.middle != n && (c.left != null ==> c.left != c.middle) &&
    (d != null ==> d != c.left && d != c.middle) &&
    IsIn(c.left, s.Keys) && IsIn(c.middle, s.Keys) && IsIn(d, s.Keys)
  }

  lemma SplitMoves(s: Store, n: CNode, k: int, d: CNode?, p: CNode)
    requires Splittable(s, n, d) && p !in s
    ensures var b := s[n].body;
      var (l, r) := AddedPair(b, k, d);
      Rewritten(s, SplitStore(s, n, k, d, p), n, RestBody(b, k, d), RestBody(b, k, d).children.left, {l, r}, p)
  {
    hide Halved;
    var b := s[n].body;
    var c := b.children;
    if k > b.big {
      HalvedMoves(s, n, c.left, c.middle, k, d, p);
    } else if k < b.small {
      HalvedMoves(s, n, d, c.left, b.big, c.middle, p);
    } else {
      HalvedMoves(s, n, c.left, d, b.big, c.middle, p);
    }
  }

  lemma HalvedMoves(s: Store, n: CNode, l: CNode?, r: CNode?, k: int, x: CNode?, p: CNode)
    requires n in s && p !in s && IsIn(l, s.Keys) && IsIn(r, s.Keys) && IsIn(x, s.Keys)
    requires n != l && n != r && n != x && (x != null ==> x != l && x != r) && s[n].body.smallSet
    ensures Rewritten(s, Halved(s, n, l, r, k, x, p), n,
      s[n].body.(small := k, bigSet := false, smallSet := true, children := Children(x, null, s[n].body.children.right)),
      x, {l, r}, p)
  {
    var s1 := Adopted(Adopted(s, l, p), r, p);
    var s2 := PutSmallKey(s1, n, k);
    var s3 := PutChild(s2, n, LeftChild, x);
    var s4 := DropBigKey(s3, n);
  }

  method Halve(n: CNode, l: CNode?, r: CNode?, small: int, k: int, x: CNode?, ghost S: set<CNode>) returns (node: CNode)
    requires n in S && IsIn(l, S) && IsIn(r, S) && IsIn(x, S)
    modifies S
    ensures node !in S && fresh(node) && node.AsCell() == NewCell(small, node.bigKey, l, r)
    ensures At(S) == Halved(old(At(S)), n, l, r, k, x, node) && n.bigKey == old(n.bigKey)
  {
    hide PutBody, Adopted;
    node := new CNode(l, r, Some(small), S);
    n.SetSmallKey(k, S);
    n.SetChild(LeftChild, x, S);
    n.UnsetBigKey(S);
    n.SetChild(MiddleChild, null, S);
  }

  // split, on a three node.
  method SplitNode(risingKey: int, toSplit: CNode, addedChild: CNode?, ghost S: set<CNode>)
    returns (key: int, node: CNode)
    requires Splittable(At(S), toSplit, addedChild)
    modifies S
    ensures node !in S && fresh(node)
    ensures var b := old(toSplit.AsCell()).body;
      var (l, r) := AddedPair(b, risingKey, addedChild);
      key == RisingKey(b, risingKey) && node.AsCell() == NewCell(AddedKey(b, risingKey), node.bigKey, l, r)
    ensures At(S) == SplitStore(old(At(S)), toSplit, risingKey, addedChild, node)
  {
    hide Halved;
    key := risingKey;
    var c := toSplit.children;
    if key > toSplit.bigKey {
      node := Halve(toSplit, c.left, c.middle, toSplit.smallKey, key, addedChild, S);
      key := toSplit.bigKey;
    } else if key < toSplit.smallKey {
      var small := toSplit.smallKey;
      node := Halve(toSplit, addedChild, c.left, key, toSplit.bigKey, c.middle, S);
      key := small;
    } else {
      node := Halve(toSplit, c.left, addedChild, toSplit.smallKey, toSplit.bigKey, c.middle, S);
    }
  }

  // ----- The trees after a split -----

  // A subtree whose root gets another parent, while what it avoids changes.
  lemma Transplanted(t: Tree, q: CNode?, s: Store, q': CNode?, s': Store, X: set<CNode>)
    requires Rep(t, q, s) && RootOnce(t) && Avoids(t, X)
    requires t.Node? && t.n in s ==> t.n in s' && s'[t.n] == Cell(s[t.n].body, q')
    requires forall y :: y in s && y !in X && y != Root(t) ==> y in s' && s'[y] == s[y]
    ensures Rep(t, q', s')
  {
    if t.Node? {
      Kept(t.l, t.n, s, s');
      Kept(t.m, t.n, s, s');
      Kept(t.r, t.n, s, s');
    }
  }

  // Two subtrees a and b below the new node p, two more, x and g, below n.
  ghost predicate Parted(a: Tree, b: Tree, x: Tree, g: Tree, n: CNode, s: Store) {
    n in s && forall y :: y in s ==> One(n, y) + Count(a, y) + Count(b, y) + Count(x, y) + Count(g, y) <= 1
  }

  lemma PartedRoots(a: Tree, b: Tree, x: Tree, g: Tree, n: CNode, s: Store)
    requires Parted(a, b, x, g, n, s)
    requires IsIn(Root(a), s.Keys) && IsIn(Root(b), s.Keys) && IsIn(Root(x), s.Keys)
    ensures RootOnce(a) && RootOnce(b) && RootOnce(x) && n in s && n != Root(a) && n != Root(b) && n != Root(x)
    ensures (a.Node? ==> Root(a) != Root(x)) && (b.Node? ==> Root(b) != Root(x))
    ensures Avoids(a, {n} + RootSet(b) + RootSet(x)) && Avoids(b, {n} + RootSet(a) + RootSet(x))
    ensures Avoids(x, {n} + RootSet(a) + RootSet(b)) && Avoids(g, {n} + RootSet(a) + RootSet(b) + RootSet(x))
  {
    hide Count;
    RootCounts(a);
    RootCounts(b);
    RootCounts(x);
    assert One(n, n) == 1;
  }

  // The roots of a and b are put below p, that of x below n; other parents stay.
  ghost predicate Spread(a: Tree, b: Tree, x: Tree, n: CNode, p: CNode, s: Store, s': Store) {
    s.Keys <= s'.Keys &&
    forall y :: y in s && y != n ==>
      s'[y] == Cell(s[y].body, if y == Root(x) then n else if y == Root(a) || y == Root(b) then p else s[y].parent)
  }

  lemma AddedHalf(a: Tree, qa: CNode?, b: Tree, qb: CNode?, x: Tree, g: Tree, n: CNode, p: CNode, k: int, s: Store, s': Store)
    requires Parted(a, b, x, g, n, s) && Spread(a, b, x, n, p, s, s')
    requires IsIn(Root(a), s.Keys) && IsIn(Root(b), s.Keys) && IsIn(Root(x), s.Keys)
    requires Rep(a, qa, s) && Rep(b, qb, s) && p in s' && s'[p] == NewCell(k, s'[p].body.big, Root(a), Root(b))
    ensures Rep(Two(p, a, k, b), null, s')
  {
    hide Count, Rep, Parted, Avoids, RootOnce;
    PartedRoots(a, b, x, g, n, s);
    Transplanted(a, qa, s, p, s', {n} + RootSet(b) + RootSet(x));
    Transplanted(b, qb, s, p, s', {n} + RootSet(a) + RootSet(x));
    RepNil(p, s');
    RepMake(Two(p, a, k, b), null, s');
  }

  lemma RestHalf(a: Tree, b: Tree, x: Tree, qx: CNode?, g: Tree, n: CNode, p: CNode, k: int, s: Store, s': Store)
    requires Parted(a, b, x, g, n, s) && Spread(a, b, x, n, p, s, s')
    requires IsIn(Root(a), s.Keys) && IsIn(Root(b), s.Keys) && IsIn(Root(x), s.Keys)
    requires Rep(x, qx, s) && Rep(g, n, s)
    requires s'[n].parent == s[n].parent && Fits(s'[n].body, OneKey(k), x, Nil, g)
    ensures Rep(Two(n, x, k, g), s[n].parent, s')
  {
    hide Count, Rep, Parted, Avoids, RootOnce, Fits;
    PartedRoots(a, b, x, g, n, s);
    Transplanted(x, qx, s, n, s', {n} + RootSet(a) + RootSet(b));
    KeptApart(g, n, s, s', {n} + RootSet(a) + RootSet(b) + RootSet(x));
    RepNil(n, s');
    RepMake(Two(n, x, k, g), s[n].parent, s');
  }

  lemma KeptApart(t: Tree, q: CNode?, s: Store, s': Store, X: set<CNode>)
    requires Rep(t, q, s) && Avoids(t, X)
    requires forall y :: y in s && y !in X ==> y in s' && s'[y] == s[y]
    ensures Rep(t, q, s')
  {
    Kept(t, q, s, s');
  }

  // The subtree d beside the tree: together they hold each node of the store once.
  ghost predicate Growing(tree: Tree, d: Tree, s: Store) {
    Rep(tree, null, s) && Rep(d, null, s) && forall x :: x in s ==> Count(tree, x) + Count(d, x) == 1
  }

  lemma GrowingPart(c: Context, t: Tree, d: Tree, s: Store, x: CNode)
    requires Growing(Plug(c, t), d, s) && x in s && t.Node?
    ensures CountAround(c, x) + (One(t.n, x) + Count(t.l, x) + Count(t.m, x) + Count(t.r, x)) + Count(d, x) == 1
  {
    PlugCount(c, t, x);
    NodeCounts(t, x);
  }

  // The store after split of the three node n, with the new node p.
  ghost predicate SplitInto(s: Store, n: CNode, k: int, d: CNode?, p: CNode, s': Store)
    requires n in s
  {
    var b := s[n].body;
    var (l, r) := AddedPair(b, k, d);
    s'.Keys == s.Keys + {p} && s'[p] == NewCell(AddedKey(b, k), s'[p].body.big, l, r) &&
    forall x :: x in s ==> s'[x] == SplitStore(s, n, k, d, p)[x]
  }

  lemma SplitIsSpread(s: Store, n: CNode, k: int, d: CNode?, p: CNode, s': Store)
    requires Splittable(s, n, d) && p !in s && SplitInto(s, n, k, d, p, s')
    ensures var b, c := RestBody(s[n].body, k, d), RestBody(s[n].body, k, d).children;
      var (l, r) := AddedPair(s[n].body, k, d);
      n in s' && p in s' && s.Keys <= s'.Keys &&
      s'[n] == Cell(b, s[n].parent) && s'[p] == NewCell(AddedKey(s[n].body, k), s'[p].body.big, l, r) &&
      forall y :: y in s && y != n ==>
        s'[y] == Cell(s[y].body, if y == c.left then n else if y == l || y == r then p else s[y].parent)
  {
    hide SplitStore;
    SplitMoves(s, n, k, d, p);
  }

  lemma IsSplittable(c: Context, t: Tree, d: Tree, s: Store)
    requires IsThree(t) && Growing(Plug(c, t), d, s)
    ensures t.n in s && Splittable(s, t.n, Root(d)) && Rep(t, Parent(c), s) && Fits(s[t.n].body, t.keys, t.l, t.m, t.r)
    ensures forall x :: x in s ==>
      CountAround(c, x) + (One(t.n, x) + Count(t.l, x) + Count(t.m, x) + Count(t.r, x)) + Count(d, x) == 1
  {
    hide Count, Rep;
    PlugRep(c, t, s);
    RepNode(t, Parent(c), s);
    forall x | x in s
      ensures CountAround(c, x) + (One(t.n, x) + Count(t.l, x) + Count(t.m, x) + Count(t.r, x)) + Count(d, x) == 1
    {
      GrowingPart(c, t, d, s, x);
    }
    RootsIn(t, d, Parent(c), s);
    RootCounts(t.l);
    RootCounts(t.m);
    RootCounts(d);
  }

  lemma SplitTrees(t: Tree, d: Tree, q: CNode?, k: int, p: CNode, s: Store, s': Store)
    requires IsThree(t) && Rep(t, q, s) && Rep(d, null, s) && Splittable(s, t.n, Root(d))
    requires forall x :: x in s ==> (One(t.n, x) + Count(t.l, x) + Count(t.m, x) + Count(t.r, x)) + Count(d, x) <= 1
    requires p !in s && SplitInto(s, t.n, k, Root(d), p, s')
    ensures RisingKey(s[t.n].body, k) == SplitAt(t, d, k, p).k
    ensures var hs := SplitAt(t, d, k, p); Rep(hs.added, null, s') && Rep(hs.rest, q, s')
  {
    hide Count, Rep, SplitInto, Parted, Splittable;
    RepNode(t, q, s);
    RootsIn(t, d, q, s);
    SplitIsSpread(s, t.n, k, Root(d), p, s');
    SplitIsParted(t, d, k, p, s);
    var n := t.n;
    if k > t.keys.k2 {
      AddedHalf(t.l, n, t.m, n, d, t.r, n, p, t.keys.k1, s, s');
      RestHalf(t.l, t.m, d, null, t.r, n, p, k, s, s');
    } else if k < t.keys.k1 {
      AddedHalf(d, null, t.l, n, t.m, t.r, n, p, k, s, s');
      RestHalf(d, t.l, t.m, n, t.r, n, p, t.keys.k2, s, s');
    } else {
      AddedHalf(t.l, n, d, null, t.m, t.r, n, p, t.keys.k1, s, s');
      RestHalf(t.l, d, t.m, n, t.r, n, p, t.keys.k2, s, s');
    }
  }

  lemma SplitIsParted(t: Tree, d: Tree, k: int, p: CNode, s: Store)
    requires IsThree(t) && t.n in s
    requires forall x :: x in s ==> (One(t.n, x) + Count(t.l, x) + Count(t.m, x) + Count(t.r, x)) + Count(d, x) <= 1
    ensures var hs := SplitAt(t, d, k, p); Parted(hs.added.l, hs.added.r, hs.rest.l, t.r, t.n, s)
  {
    hide Count;
  }

  lemma RootsIn(t: Tree, d: Tree, q: CNode?, s: Store)
    requires t.Node? && Rep(t, q, s) && Rep(d, null, s)
    ensures IsIn(Root(t.l), s.Keys) && IsIn(Root(t.m), s.Keys) && IsIn(Root(t.r), s.Keys) && IsIn(Root(d), s.Keys)
  {
  }

  lemma {:induction false} CountOutside(t: Tree, S: set<CNode>, x: CNode)
    requires Within(t, S) && x !in S
    ensures Count(t, x) == 0
  {
    if t.Node? {
      CountOutside(t.l, S, x);
      CountOutside(t.m, S, x);
      CountOutside(t.r, S, x);
    }
  }

  lemma SplitCounts(t: Tree, d: Tree, k: int, p: CNode, x: CNode)
    requires IsThree(t)
    ensures var hs := SplitAt(t, d, k, p); Count(hs.added, x) + Count(hs.rest, x) == One(p, x) + Count(t, x) + Count(d, x)
  {
    hide Count;
    var hs := SplitAt(t, d, k, p);
    NodeCounts(t, x);
    NodeCounts(hs.added, x);
    NodeCounts(hs.rest, x);
    NodeCounts(Nil, x);
  }

  // After a split the added half is beside the tree.
  lemma SplitWhole(c: Context, t: Tree, d: Tree, k: int, p: CNode, s: Store, s': Store)
    requires IsThree(t) && Growing(Plug(c, t), d, s) && p !in s
    requires t.n in s && SplitInto(s, t.n, k, Root(d), p, s')
    ensures RisingKey(s[t.n].body, k) == SplitAt(t, d, k, p).k
    ensures var hs := SplitAt(t, d, k, p);
      Growing(Plug(c, hs.rest), hs.added, s') && Root(Plug(c, hs.rest)) == Root(Plug(c, t))
  {
    hide Count, Rep, Splittable, Fits, SplitInto;
    IsSplittable(c, t, d, s);
    SplitTrees(t, d, Parent(c), k, p, s, s');
    var hs := SplitAt(t, d, k, p);
    SplitElsewhere(c, t, d, k, p, s, s');
    Replug(c, t, s, hs.rest, s');
    SameRoot(c, t, hs.rest);
    forall x | x in s' ensures Count(Plug(c, hs.rest), x) + Count(hs.added, x) == 1 {
      SplitCountsWhole(c, t, d, k, p, s, s', x);
    }
  }

  lemma SplitCountsWhole(c: Context, t: Tree, d: Tree, k: int, p: CNode, s: Store, s': Store, x: CNode)
    requires IsThree(t) && Growing(Plug(c, t), d, s) && p !in s
    requires t.n in s && SplitInto(s, t.n, k, Root(d), p, s') && x in s'
    ensures var hs := SplitAt(t, d, k, p); Count(Plug(c, hs.rest), x) + Count(hs.added, x) == 1
  {
    hide Count, Rep;
    PlugCount(c, t, x);
    PlugCount(c, SplitAt(t, d, k, p).rest, x);
    SplitCounts(t, d, k, p, x);
    if x == p {
      RepWithin(Plug(c, t), null, s);
      RepWithin(d, null, s);
      CountOutside(Plug(c, t), s.Keys, p);
      CountOutside(d, s.Keys, p);
    }
  }

  lemma SplitElsewhere(c: Context, t: Tree, d: Tree, k: int, p: CNode, s: Store, s': Store)
    requires IsThree(t) && Growing(Plug(c, t), d, s) && p !in s
    requires t.n in s && SplitInto(s, t.n, k, Root(d), p, s')
    ensures forall x :: x in s && CountAround(c, x) > 0 ==> x in s' && s'[x] == s[x]
  {
    hide Count, Rep, SplitInto, Splittable;
    IsSplittable(c, t, d, s);
    SplitIsSpread(s, t.n, k, Root(d), p, s');
    RootCounts(t.l);
    RootCounts(t.m);
    RootCounts(d);
  }

  // ----- add -----

  // The two node n with one more key; with a subtree d, that goes before it.
  function AddKey(s: Store, n: CNode, k: int): Store
    requires n in s
  {
    if k > s[n].body.small then PutBigKey(s, n, k) else PutSmallKey(PutBigKey(s, n, s[n].body.small), n, k)
  }

  function AddStore(s: Store, n: CNode, k: int, d: CNode?): Store
    requires n in s
  {
    var s1 := AddKey(s, n, k);
    if k < s[n].body.small then PutChild(PutChild(s1, n, MiddleChild, s1[n].body.children.left), n, LeftChild, d)
    else PutChild(s1, n, MiddleChild, d)
  }

  function AddedBody(b: Body, k: int, d: CNode?): Body {
    if k < b.small
    then Body(k, true, b.small, true, Children(d, b.children.left, b.children.right))
    else Body(b.small, true, k, true, Children(b.children.left, d, b.children.right))
  }

  lemma AddMoves(s: Store, n: CNode, k: int, d: CNode?)
    requires n in s && s[n].body.smallSet && s[n].body.small != k && IsIn(d, s.Keys) && d != n
    requires IsIn(s[n].body.children.left, s.Keys) && s[n].body.children.left != n
    requires s[n].body.children.left != null ==> s[s[n].body.children.left].parent == n && d != s[n].body.children.left
    ensures Rewritten(s, AddStore(s, n, k, d), n, AddedBody(s[n].body, k, d), d, {}, n)
  {
    var s1 := AddKey(s, n, k);
    if k < s[n].body.small {
      var s2 := PutChild(s1, n, MiddleChild, s1[n].body.children.left);
    }
  }

  lemma AddTrees(c: Context, t: Tree, d: Tree, k: int, s: Store, s': Store)
    requires IsTwo(t) && Growing(Plug(c, t), d, s) && t.keys.k != k
    requires t.n in s && Rewritten(s, s', t.n, AddedBody(s[t.n].body, k, Root(d)), Root(d), {}, t.n)
    ensures Rep(AddedTo(t, d, k), Parent(c), s')
    ensures forall x :: x in s && CountAround(c, x) > 0 ==> s'[x] == s[x]
  {
    hide Count, Rep, Avoids, RootOnce;
    PlugRep(c, t, s);
    RepNode(t, Parent(c), s);
    RootsIn(t, d, Parent(c), s);
    AddApart(c, t, d, s);
    Transplanted(d, null, s, t.n, s', {t.n});
    KeptApart(t.l, t.n, s, s', {t.n} + RootSet(d));
    KeptApart(t.r, t.n, s, s', {t.n} + RootSet(d));
    RepMake(AddedTo(t, d, k), Parent(c), s');
  }

  lemma AddApart(c: Context, t: Tree, d: Tree, s: Store)
    requires IsTwo(t) && Growing(Plug(c, t), d, s) && t.n in s && IsIn(Root(d), s.Keys)
    ensures RootOnce(d) && Avoids(d, {t.n}) && Root(d) != t.n
    ensures Avoids(t.l, {t.n} + RootSet(d)) && Avoids(t.r, {t.n} + RootSet(d))
    ensures forall x :: x in s && CountAround(c, x) > 0 ==> x != t.n && x != Root(d)
  {
    hide Count;
    forall x | x in s
      ensures CountAround(c, x) + (One(t.n, x) + Count(t.l, x) + Count(t.m, x) + Count(t.r, x)) + Count(d, x) == 1
    {
      GrowingPart(c, t, d, s, x);
    }
    RootCounts(d);
  }

  // After add the tree holds everything.
  lemma AddWhole(c: Context, t: Tree, d: Tree, k: int, s: Store, s': Store)
    requires IsTwo(t) && Growing(Plug(c, t), d, s) && t.keys.k != k
    requires t.n in s && Rewritten(s, s', t.n, AddedBody(s[t.n].body, k, Root(d)), Root(d), {}, t.n)
    ensures var tree' := Plug(c, AddedTo(t, d, k));
      Rep(tree', null, s') && Exact(tree', s'.Keys) && Root(tree') == Root(Plug(c, t))
  {
    hide Count, Rep;
    var t' := AddedTo(t, d, k);
    AddTrees(c, t, d, k, s, s');
    Replug(c, t, s, t', s');
    SameRoot(c, t, t');
    RepWithin(Plug(c, t'), null, s');
    forall x | x in s' ensures Count(Plug(c, t'), x) == 1 {
      PlugCount(c, t, x);
      PlugCount(c, t', x);
      NodeCounts(t, x);
      NodeCounts(t', x);
      NodeCounts(Nil, x);
    }
  }

  // ----- A new root -----

  lemma NewRoot(t: Tree, d: Tree, k: int, p: CNode, s: Store, s': Store)
    requires Growing(t, d, s) && t.Node? && p !in s && s'.Keys == s.Keys + {p}
    requires s'[p] == NewCell(k, s'[p].body.big, Root(d), Root(t))
    requires forall x :: x in s ==> s'[x] == Cell(s[x].body, if x == Root(d) || x == Root(t) then p else s[x].parent)
    ensures Rep(Two(p, d, k, t), null, s') && Exact(Two(p, d, k, t), s'.Keys)
  {
    hide Count, Rep;
    RepWithin(t, null, s);
    RepWithin(d, null, s);
    RootCounts(t);
    RootCounts(d);
    assert RootOnce(t) && RootOnce(d) && Avoids(t, RootSet(d)) && Avoids(d, RootSet(t));
    Transplanted(t, null, s, p, s', RootSet(d));
    Transplanted(d, null, s, p, s', RootSet(t));
    RepNil(p, s');
    RepMake(Two(p, d, k, t), null, s');
    RepWithin(Two(p, d, k, t), null, s');
    forall x | x in s' ensures Count(Two(p, d, k, t), x) == 1 {
      NodeCounts(Two(p, d, k, t), x);
      NodeCounts(Nil, x);
      if x == p {
        CountOutside(t, s.Keys, p);
        CountOutside(d, s.Keys, p);
      }
    }
  }

  // ----- One round of the insertion loop -----

  // The key k, with the subtree d before it, is to go into the node t at c;
  // the keys of the whole are then target.
  ghost predicate Growth(c: Context, t: Tree, d: Tree, k: int, h: nat, target: seq<int>, s: Store) {
    Growing(Plug(c, t), d, s) && (IsTwo(t) || IsThree(t)) && (IsTwo(t) ==> k != t.keys.k) &&
    h > 0 && Perfect(t, h) && Perfect(d, h - 1) && PerfectAround(c, h) &&
    Before(c) + Spliced(t, d, k) + After(c) == target
  }

  lemma FillPerfect(c: Context, t: Tree, h: nat)
    requires !c.Top? && PerfectAround(c, h) && Perfect(t, h) && t.Node?
    ensures var p := Fill(c, t); Perfect(p, h + 1) && (IsTwo(p) || IsThree(p)) && PerfectAround(c.up, h + 1)
  {
  }

  // The two halves of a node at c: the added one is beside the tree.
  ghost predicate HalvesAt(c: Context, hs: Halves, h: nat, target: seq<int>, s: Store) {
    hs.rest.Node? && hs.added.Node? && Growing(Plug(c, hs.rest), hs.added, s) &&
    Perfect(hs.rest, h) && Perfect(hs.added, h) && Before(c) + HalvesKeys(hs) + After(c) == target &&
    (!c.Top? ==> Growth(c.up, Fill(c, hs.rest), hs.added, hs.k, h + 1, target, s))
  }

  lemma SplitGrowth(c: Context, t: Tree, d: Tree, k: int, h: nat, target: seq<int>, p: CNode, s: Store, s': Store)
    requires Growth(c, t, d, k, h, target, s) && IsThree(t) && Sorted(target)
    requires p !in s && t.n in s && SplitInto(s, t.n, k, Root(d), p, s')
    ensures var hs := SplitAt(t, d, k, p);
      HalvesAt(c, hs, h, target, s') && Root(Plug(c, hs.rest)) == Root(Plug(c, t)) &&
      hs.rest.n == t.n && hs.added.n == p && RisingKey(s[t.n].body, k) == hs.k
  {
    hide Growing, SplitInto, Spliced, Inorder, Sorted, RisingKey;
    SplitWhole(c, t, d, k, p, s, s');
    SplitKeys(t, d, k, p);
    SplitPerfect(t, d, k, p, h);
    var hs := SplitAt(t, d, k, p);
    if !c.Top? {
      FillPerfect(c, hs.rest, h);
      PointsBack(c, hs);
      PlugStep(c, hs.rest);
    }
  }

  lemma AddGrowth(c: Context, t: Tree, d: Tree, k: int, h: nat, target: seq<int>, s: Store)
    requires Growth(c, t, d, k, h, target, s) && IsTwo(t)
    ensures t.n in s
    ensures var tree', s' := Plug(c, AddedTo(t, d, k)), AddStore(s, t.n, k, Root(d));
      Rep(tree', null, s') && Exact(tree', s'.Keys) && Root(tree') == Root(Plug(c, t)) &&
      IsTree(tree') && Inorder(tree') == target
  {
    hide Count, Rep, Inorder, Spliced, AddStore;
    PlugRep(c, t, s);
    RepNode(t, Parent(c), s);
    RootsIn(t, d, Parent(c), s);
    AddApart(c, t, d, s);
    LeftChildFits(t, d, Parent(c), s);
    AddMoves(s, t.n, k, Root(d));
    AddWhole(c, t, d, k, s, AddStore(s, t.n, k, Root(d)));
    AddedKeys(t, d, k);
    PlugInorder(c, AddedTo(t, d, k));
    AddedPerfect(t, d, k, h);
    PlugPerfect(c, AddedTo(t, d, k), h);
  }

  lemma LeftChildFits(t: Tree, d: Tree, q: CNode?, s: Store)
    requires t.Node? && Rep(t, q, s) && Avoids(t.l, {t.n} + RootSet(d))
    ensures t.l.Node? ==> t.l.n in s && s[t.l.n].parent == t.n && t.l.n != t.n && Root(d) != t.l.n
  {
    RootCounts(t.l);
  }

  lemma RootGrowth(t: Tree, d: Tree, k: int, h: nat, p: CNode, s: Store, s': Store)
    requires Growing(t, d, s) && t.Node? && Perfect(t, h) && Perfect(d, h)
    requires p !in s && s'.Keys == s.Keys + {p} && s'[p] == NewCell(k, s'[p].body.big, Root(d), Root(t))
    requires forall x :: x in s ==> s'[x] == Cell(s[x].body, if x == Root(d) || x == Root(t) then p else s[x].parent)
    ensures var tree' := Two(p, d, k, t);
      Rep(tree', null, s') && Exact(tree', s'.Keys) && IsTree(tree') && Inorder(tree') == Inorder(d) + [k] + Inorder(t)
  {
    hide Growing, Rep, Exact, Inorder;
    NewRoot(t, d, k, p, s, s');
    TwoInorder(Two(p, d, k, t));
    assert Perfect(Two(p, d, k, t), h + 1);
  }

  // What the methods see of a node, and of the added one beside the tree.
  lemma PlugGrowing(c: Context, t: Tree, d: Tree, s: Store)
    requires Growing(Plug(c, t), d, s) && t.Node?
    ensures t.n in s && s[t.n].parent == Parent(c) && IsIn(Root(d), s.Keys)
    ensures var b := s[t.n].body;
      IsIn(b.children.left, s.Keys) &&
      (IsTwo(t) ==> b.smallSet && !b.bigSet && b.small == t.keys.k) && (IsThree(t) ==> b.smallSet && b.bigSet)
  {
    PlugRep(c, t, s);
    RepNode(t, Parent(c), s);
    RootsIn(t, d, Parent(c), s);
  }

  lemma GrowthSees(c: Context, t: Tree, d: Tree, k: int, h: nat, target: seq<int>, s: Store)
    requires Growth(c, t, d, k, h, target, s)
    ensures (IsTwo(t) || IsThree(t)) && t.n in s && s[t.n].parent == Parent(c) && IsIn(Root(d), s.Keys)
    ensures var b := s[t.n].body;
      IsIn(b.children.left, s.Keys) && b.smallSet && (b.bigSet <==> IsThree(t)) &&
      (IsTwo(t) ==> b.small == t.keys.k && b.small != k)
  {
    PlugGrowing(c, t, d, s);
  }

  lemma OneNode(n: CNode, keys: Keys)
    ensures Exact(Node(n, keys, Nil, Nil, Nil), {n})
  {
  }

  lemma AllAround(c: Context, hs: Halves)
    requires c.Top?
    ensures Before(c) + HalvesKeys(hs) + After(c) == HalvesKeys(hs) && Plug(c, hs.rest) == hs.rest
  {
  }

  // At a leaf, add is all there is to do.
  lemma AddAtLeaf(s: Store, n: CNode, k: int)
    requires n in s && s[n].body.children.left == s[n].body.children.middle == null && k != s[n].body.small
    ensures AddKey(s, n, k) == AddStore(s, n, k, null)
  {
    var s1 := AddKey(s, n, k);
    assert s1[n].body.children == s[n].body.children;
    assert PutChild(s1, n, MiddleChild, null) == s1;
    assert PutChild(s1, n, LeftChild, null) == s1;
  }

  // The leaf the search stops at, without the key: the loop can start there.
  lemma InsertStart(tree: Tree, key: int, s: Store)
    requires tree.Node? && IsTree(tree) && Proper(tree) && Sorted(Inorder(tree)) && !Has(tree, key)
    requires Rep(tree, null, s) && Exact(tree, s.Keys)
    ensures key !in Inorder(tree)
    ensures var (c, t) := Find(Top, tree, key);
      Growth(c, t, Nil, key, 1, With(Inorder(tree), key), s) && Plug(c, t) == tree && (IsTwo(t) || IsThree(t)) &&
      t.n in s && s[t.n].body.children == Children(null, null, null) && s[t.n].body.smallSet &&
      (s[t.n].body.bigSet <==> IsThree(t)) && (IsTwo(t) ==> s[t.n].body.small == t.keys.k)
  {
    hide Inorder, With, Sorted, Spliced, Count, Between;
    var h: nat :| Perfect(tree, h);
    BetweenTop(key);
    FindFinds(Top, tree, key, h);
    var (c, t) := Find(Top, tree, key);
    PlugTop(tree);
    PlugHeight(c, t, h);
    PlugRep(c, t, s);
    PerfectLeaf(t, h - Depth(c));
    SplicedAtLeaf(c, t, key);
    forall x | x in s ensures Count(Plug(c, t), x) + Count(Nil, x) == 1 {
      NodeCounts(Nil, x);
    }
  }

  lemma BetweenTop(key: int)
    ensures Between(Top, key)
  {
  }

  lemma PerfectLeaf(t: Tree, h: nat)
    requires Perfect(t, h) && t.Node? && t.l.Nil? && t.m.Nil? && t.r.Nil?
    ensures h == 1 && (IsTwo(t) || IsThree(t)) && t == Node(t.n, t.keys, Nil, Nil, Nil) && Perfect(Nil, 0)
  {
  }

  // ----- The methods -----

  method MakeParent(l: CNode, r: CNode, k: int, ghost S: set<CNode>) returns (p: CNode)
    requires l in S && r in S
    modifies l`parent, r`parent
    ensures p !in S && fresh(p)
    ensures var s, s' := old(At(S)), At(S + {p});
      s'.Keys == S + {p} && s'[p] == NewCell(k, s'[p].body.big, l, r) &&
      forall x :: x in S ==> s'[x] == Cell(s[x].body, if x == l || x == r then p else s[x].parent)
  {
    p := new CNode(l, r, Some(k), S);
    assert forall x :: x in S ==> At(S + {p})[x] == At(S)[x];
  }

  method Add(node: CNode, key: int, ghost S: set<CNode>) returns (code: Code)
    requires node in S
    modifies node
    ensures node.AsCell().parent == old(node.parent) && node.children == old(node.children)
    ensures old(node.GetSize()) == EmptyNode ==> code == Success && At(S) == PutSmallKey(old(At(S)), node, key)
    ensures old(node.GetSize()) == TwoNode && key != old(node.smallKey) ==>
      code == Success && At(S) == AddKey(old(At(S)), node, key)
    ensures old(node.GetSize()) == ThreeNode || (old(node.GetSize()) == TwoNode && key == old(node.smallKey)) ==>
      code == Failure && At(S) == old(At(S))
  {
    code := Failure;
    var eSize := node.GetSize();
    if eSize == EmptyNode {
      node.SetSmallKey(key, S);
      code := Success;
    } else if eSize == TwoNode && key > node.smallKey {
      node.SetBigKey(key, S);
      code := Success;
    } else if eSize == TwoNode && key < node.smallKey {
      node.SetBigKey(node.smallKey, S);
      node.SetSmallKey(key, S);
      code := Success;
    }
  }

  // A two node takes the key that rose from below, and the added node.
  method AddSubtree(node: CNode, risingKey: int, addedNode: CNode?, ghost S: set<CNode>)
    returns (code: Code, treeIsFixed: bool)
    requires node in S && IsIn(addedNode, S) && IsIn(node.children.left, S)
    requires node.GetSize() == TwoNode && risingKey != node.smallKey
    modifies S
    ensures code == Success && treeIsFixed && At(S) == AddStore(old(At(S)), node, risingKey, addedNode)
  {
    code, treeIsFixed := Failure, false;
    if risingKey < node.smallKey {
      var _ := Add(node, risingKey, S);
      node.SetChild(MiddleChild, node.children.left, S);
      node.SetChild(LeftChild, addedNode, S);
      treeIsFixed := true;
      code := Success;
    } else if risingKey > node.smallKey {
      var _ := Add(node, risingKey, S);
      node.SetChild(MiddleChild, addedNode, S);
      treeIsFixed := true;
      code := Success;
    }
  }
}
