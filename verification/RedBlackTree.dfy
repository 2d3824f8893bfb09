// RBTree (RedBlackTree.cpp): rotations, repair and insertion on linked nodes. What
// the assignments do to the nodes is proved against the functions of RedBlackFix,
// for the whole tree and both directions of its links.
module RedBlackTree {
  import opened SortedKeys
  import opened PowersOfTwo
  import opened RedBlackShape
  import opened RedBlackFix

  // ----- Rotations on the store -----

  // x goes below y, where x has the place of y's parent: what rotateLeft(x)
  // assigns if left, else rotateRight.
  ghost predicate Rotated(s: Store, s': Store, x: Node, y: Node, left: bool)
    requires x in s && y in s
  {
    var q, b := s[x].parent, if left then s[y].left else s[y].right;
    s'.Keys == s.Keys &&
    s'[x] == (if left then s[x].(right := b, parent := y) else s[x].(left := b, parent := y)) &&
    s'[y] == (if left then s[y].(left := x, parent := q) else s[y].(right := x, parent := q)) &&
    forall n :: n in s && n != x && n != y ==>
      s'[n] ==
        if n == b then s[n].(parent := x)
        else if n == q then if s[n].left == x then s[n].(left := y) else s[n].(right := y)
        else s[n]
  }

  // The five nodes a rotation touches are different ones.
  predicate Around(s: Store, x: Node, y: Node?, b: Node?) {
    x in s && y != null && y in s && x != y && (b != null ==> b in s && b != x && b != y && b != s[x].parent) &&
    (s[x].parent != null ==> s[x].parent in s && s[x].parent != x && s[x].parent != y)
  }

  // What the methods see of a subtree, and how its nodes are apart.
  lemma PartAt(c: Context, t: Tree, s: Store)
    requires Rep(Plug(c, t), null, s) && Exact(Plug(c, t), s.Keys) && t.Fork?
    ensures t.n in s && s[t.n] == Cell(t.k, t.color, Root(t.l), Root(t.r), Parent(c))
    ensures Rep(t.l, t.n, s) && Rep(t.r, t.n, s)
    ensures forall n :: n in s ==> CountAround(c, n) + One(t.n, n) + Count(t.l, n) + Count(t.r, n) == 1
    ensures !c.Top? ==>
      c.n in s && Rep(Fill(c, t), Parent(c.up), s) && s[c.n].left == Root(Fill(c, t).l) && s[c.n].right == Root(Fill(c, t).r)
  {
    hide Count, Rep;
    PlugRep(c, t, s);
    RepFork(t, Parent(c), s);
    if !c.Top? { RepFork(Fill(c, t), Parent(c.up), s); }
    forall n | n in s ensures CountAround(c, n) + One(t.n, n) + Count(t.l, n) + Count(t.r, n) == 1 {
      PlugCount(c, t, n);
      ForkCounts(t, n);
    }
  }

  lemma LeftAround(c: Context, t: Tree, s: Store)
    requires Rep(Plug(c, t), null, s) && Exact(Plug(c, t), s.Keys) && t.Fork? && t.r.Fork?
    ensures t.n in s && s[t.n].right == t.r.n && t.r.n in s && Around(s, t.n, t.r.n, s[t.r.n].left)
    ensures s[t.r.n].left == Root(t.r.l)
  {
    PartAt(c, t, s);
    RepFork(t.r, t.n, s);
    Apart(c, t, t.r, t.r.l, s);
  }

  lemma RightAround(c: Context, t: Tree, s: Store)
    requires Rep(Plug(c, t), null, s) && Exact(Plug(c, t), s.Keys) && t.Fork? && t.l.Fork?
    ensures t.n in s && s[t.n].left == t.l.n && t.l.n in s && Around(s, t.n, t.l.n, s[t.l.n].right)
    ensures s[t.l.n].right == Root(t.l.r)
  {
    PartAt(c, t, s);
    RepFork(t.l, t.n, s);
    Apart(c, t, t.l, t.l.r, s);
  }

  // A node, its child and the child's child are three, and not the parent.
  lemma Apart(c: Context, t: Tree, y: Tree, b: Tree, s: Store)
    requires t.Fork? && (y == t.l || y == t.r) && y.Fork? && (b == y.l || b == y.r)
    requires forall n :: n in s ==> CountAround(c, n) + One(t.n, n) + Count(t.l, n) + Count(t.r, n) == 1
    requires t.n in s && y.n in s && (b.Fork? ==> b.n in s) && (!c.Top? ==> c.n in s)
    ensures t.n != y.n && (b.Fork? ==> b.n != t.n && b.n != y.n && Root(b) != Parent(c))
    ensures !c.Top? ==> c.n != t.n && c.n != y.n
  {
    hide Count;
    RootCounts(b);
    ForkCounts(y, y.n);
    if b.Fork? { ForkCounts(y, b.n); }
    if !c.Top? {
      ForkCounts(y, c.n);
      assert CountAround(c, c.n) > 0;
    }
  }

  // A subtree with the same nodes has taken the place of t.
  lemma ExactPlug(c: Context, t: Tree, t': Tree, S: set<Node>)
    requires Exact(Plug(c, t), S) && forall x :: x in S ==> Count(t', x) == Count(t, x)
    ensures Exact(Plug(c, t'), S)
  {
    forall x | x in S ensures Count(Plug(c, t'), x) == 1 {
      PlugCount(c, t, x);
      PlugCount(c, t', x);
    }
  }

  lemma RotationCounts(t: Tree, x: Node)
    ensures t.Fork? && t.r.Fork? ==> Count(RotatedLeft(t), x) == Count(t, x)
    ensures t.Fork? && t.l.Fork? ==> Count(RotatedRight(t), x) == Count(t, x)
  {
    ForkCounts(t, x);
    if t.Fork? && t.r.Fork? {
      ForkCounts(RotatedLeft(t), x);
      ForkCounts(RotatedLeft(t).l, x);
      ForkCounts(t.r, x);
    }
    if t.Fork? && t.l.Fork? {
      ForkCounts(RotatedRight(t), x);
      ForkCounts(RotatedRight(t).r, x);
      ForkCounts(t.l, x);
    }
  }

  // The three subtrees of a rotation, and what is around, have no node in common
  // with the nodes that change.
  lemma Unmoved(u: Tree, q: Node?, s: Store, s': Store, x: Node, y: Node, b: Tree, p: Node?)
    requires Rep(u, q, s)
    requires forall n :: n in s && n != x && n != y && n != Root(b) && n != p ==> n in s' && s'[n] == s[n]
    requires forall n :: n in s && Count(u, n) > 0 ==> n != x && n != y && n != Root(b) && n != p
    ensures Rep(u, q, s')
  {
    Kept(u, q, s, s');
  }

  lemma TurnedTrees(c: Context, t: Tree, s: Store, s': Store, left: bool)
    requires Rep(Plug(c, t), null, s) && Exact(Plug(c, t), s.Keys) && t.Fork?
    requires if left then t.r.Fork? else t.l.Fork?
    requires var y := if left then t.r else t.l;
      t.n in s && y.n in s && Rotated(s, s', t.n, y.n, left)
    ensures Rep(if left then RotatedLeft(t) else RotatedRight(t), Parent(c), s')
  {
    hide Count, Rep;
    var y := if left then t.r else t.l;
    var (a, b, d) := if left then (t.l, y.l, y.r) else (t.r, y.r, y.l);
    PartAt(c, t, s);
    RepFork(y, t.n, s);
    PartsApart(c, t, y, a, b, d, s);
    Unmoved(a, t.n, s, s', t.n, y.n, b, Parent(c));
    Unmoved(d, y.n, s, s', t.n, y.n, b, Parent(c));
    Moved(b, y.n, s, t.n, s');
    var t' := if left then RotatedLeft(t) else RotatedRight(t);
    RepMake(if left then t'.l else t'.r, y.n, s');
    RepMake(t', Parent(c), s');
  }

  lemma PartsApart(c: Context, t: Tree, y: Tree, a: Tree, b: Tree, d: Tree, s: Store)
    requires t.Fork? && y.Fork? && ((y == t.r && a == t.l) || (y == t.l && a == t.r))
    requires (b == y.l && d == y.r) || (b == y.r && d == y.l)
    requires t.n in s && y.n in s && (b.Fork? ==> b.n in s) && (!c.Top? ==> c.n in s)
    requires forall n :: n in s ==> CountAround(c, n) + One(t.n, n) + Count(t.l, n) + Count(t.r, n) == 1
    ensures forall n :: n in s ==> CountAround(c, n) + One(t.n, n) + One(y.n, n) + Count(a, n) + Count(b, n) + Count(d, n) == 1
    ensures b.Fork? ==> Count(b, b.n) == 1
    ensures forall n :: n in s && Count(a, n) > 0 ==> n != t.n && n != y.n && n != Root(b) && n != Parent(c)
    ensures forall n :: n in s && Count(d, n) > 0 ==> n != t.n && n != y.n && n != Root(b) && n != Parent(c)
    ensures forall n :: n in s && Count(b, n) > 0 ==> n != t.n && n != y.n && n != Parent(c)
    ensures forall n :: n in s && CountAround(c, n) > 0 ==> n != t.n && n != y.n && n != Root(b)
  {
    hide Count;
    forall n | n in s
      ensures CountAround(c, n) + One(t.n, n) + One(y.n, n) + Count(a, n) + Count(b, n) + Count(d, n) == 1
    {
      ForkCounts(y, n);
    }
    SumApart(c, t.n, y.n, a, b, d, s);
  }

  lemma SumApart(c: Context, x: Node, y: Node, a: Tree, b: Tree, d: Tree, s: Store)
    requires forall n :: n in s ==> CountAround(c, n) + One(x, n) + One(y, n) + Count(a, n) + Count(b, n) + Count(d, n) == 1
    requires x in s && y in s && (b.Fork? ==> b.n in s) && (!c.Top? ==> c.n in s)
    ensures b.Fork? ==> Count(b, b.n) == 1
    ensures forall n :: n in s && Count(a, n) > 0 ==> n != x && n != y && n != Root(b) && n != Parent(c)
    ensures forall n :: n in s && Count(d, n) > 0 ==> n != x && n != y && n != Root(b) && n != Parent(c)
    ensures forall n :: n in s && Count(b, n) > 0 ==> n != x && n != y && n != Parent(c)
    ensures forall n :: n in s && CountAround(c, n) > 0 ==> n != x && n != y && n != Root(b)
  {
    hide Count;
    RootCounts(b);
    assert !c.Top? ==> CountAround(c, c.n) > 0;
  }

  lemma TurnedRelinks(c: Context, t: Tree, s: Store, s': Store, left: bool)
    requires Rep(Plug(c, t), null, s) && Exact(Plug(c, t), s.Keys) && t.Fork?
    requires if left then t.r.Fork? else t.l.Fork?
    requires var y := if left then t.r else t.l;
      t.n in s && y.n in s && Rotated(s, s', t.n, y.n, left)
    ensures Relinked(c, s, if left then t.r.n else t.l.n, s')
    ensures forall n :: n in s ==> CountAround(c, n) <= 1
  {
    hide Count, Rep, Relinked, Rotated;
    var y := if left then t.r else t.l;
    var (a, b, d) := if left then (t.l, y.l, y.r) else (t.r, y.r, y.l);
    PartAt(c, t, s);
    RepFork(y, t.n, s);
    PartsApart(c, t, y, a, b, d, s);
    if !c.Top? { RootCounts(Sibling(c)); }
    RotatedRelinks(c, t.n, y.n, Root(b), s, s', left);
  }

  lemma RotatedRelinks(c: Context, x: Node, y: Node, b: Node?, s: Store, s': Store, left: bool)
    requires x in s && y in s && Rotated(s, s', x, y, left) && s[x].parent == Parent(c)
    requires b == if left then s[y].left else s[y].right
    requires forall n :: n in s && CountAround(c, n) > 0 ==> n != x && n != y && n != b
    requires !c.Top? ==> c.n in s && (c.InLeft? <==> s[c.n].left == x)
    ensures Relinked(c, s, y, s')
  {
  }

  lemma TurnedWhole(c: Context, t: Tree, s: Store, s': Store, left: bool)
    requires Rep(Plug(c, t), null, s) && Exact(Plug(c, t), s.Keys) && t.Fork?
    requires if left then t.r.Fork? else t.l.Fork?
    requires var y := if left then t.r else t.l;
      t.n in s && y.n in s && Rotated(s, s', t.n, y.n, left)
    ensures var tree' := Plug(c, if left then RotatedLeft(t) else RotatedRight(t));
      Rep(tree', null, s') && Exact(tree', s'.Keys) &&
      Root(tree') == if c.Top? then Root(if left then t.r else t.l) else Root(Plug(c, t))
  {
    hide Count, Rep;
    var t' := if left then RotatedLeft(t) else RotatedRight(t);
    TurnedTrees(c, t, s, s', left);
    TurnedRelinks(c, t, s, s', left);
    Replug(c, t, s, t', s');
    forall x | x in s ensures Count(t', x) == Count(t, x) { RotationCounts(t, x); }
    ExactPlug(c, t, t', s.Keys);
    PlugRoot(c, t, t');
  }

  lemma {:induction false} PlugRoot(c: Context, t: Tree, t': Tree)
    ensures !c.Top? ==> Root(Plug(c, t')) == Root(Plug(c, t))
    ensures c.Top? ==> Root(Plug(c, t)) == Root(t)
    decreases c
  {
    if !c.Top? {
      PlugRoot(c.up, Fill(c, t), Fill(c, t'));
      if c.up.Top? { assert Plug(c, t) == Fill(c, t) && Plug(c, t') == Fill(c, t'); }
    }
  }

  lemma PaintedWhole(c: Context, t: Tree, color: Color, s: Store)
    requires Rep(Plug(c, t), null, s) && Exact(Plug(c, t), s.Keys) && t.Fork?
    ensures t.n in s
    ensures var tree', s' := Plug(c, Painted(t, color)), s[t.n := s[t.n].(color := color)];
      Rep(tree', null, s') && Exact(tree', s'.Keys) && Root(tree') == Root(Plug(c, t)) && s'.Keys == s.Keys
  {
    hide Count, Rep;
    var t' := Painted(t, color);
    PartAt(c, t, s);
    var s' := s[t.n := s[t.n].(color := color)];
    Kept(t.l, t.n, s, s');
    Kept(t.r, t.n, s, s');
    RepMake(t', Parent(c), s');
    Replug(c, t, s, t', s');
    forall x | x in s ensures Count(t', x) == Count(t, x) {
      ForkCounts(t, x);
      ForkCounts(t', x);
    }
    ExactPlug(c, t, t', s.Keys);
    PlugRoot(c, t, t');
  }

  // ----- BSTInsert on the store -----

  // s' holds the subtree with the new node pt; apart from it nothing changed.
  ghost predicate Grown(t: Tree, k: int, pt: Node, q: Node?, s: Store, s': Store) {
    Rep(BstInserted(t, k, pt), if t.Nil? then null else q, s') && s'.Keys == s.Keys &&
    forall n :: n in s && n != pt && Count(t, n) == 0 ==> s'[n] == s[n]
  }

  lemma {:induction false} BstCounts(t: Tree, k: int, pt: Node, x: Node)
    requires k !in Inorder(t)
    ensures Count(BstInserted(t, k, pt), x) == Count(t, x) + One(pt, x)
    ensures BstInserted(t, k, pt).Fork? && Root(BstInserted(t, k, pt)) == if t.Nil? then pt else t.n
  {
    if t.Fork? {
      Members(Inorder(t.l), t.k, Inorder(t.r), k);
      if k < t.k { BstCounts(t.l, k, pt, x); } else { BstCounts(t.r, k, pt, x); }
    }
  }

  // The way of BSTInsert meets the key.
  predicate HasKey(t: Tree, k: int) {
    t.Fork? && (k == t.k || if k < t.k then HasKey(t.l, k) else HasKey(t.r, k))
  }

  lemma {:induction false} HasKeyExactly(t: Tree, k: int)
    requires Sorted(Inorder(t))
    ensures HasKey(t, k) <==> k in Inorder(t)
  {
    if t.Fork? {
      SortedParts(Inorder(t.l), t.k, Inorder(t.r));
      Members(Inorder(t.l), t.k, Inorder(t.r), k);
      HasKeyExactly(t.l, k);
      HasKeyExactly(t.r, k);
    }
  }

  lemma KeyHere(t: Tree, k: int)
    requires t.Fork? && t.k == k
    ensures k in Inorder(t)
  {
    Members(Inorder(t.l), t.k, Inorder(t.r), k);
  }

  lemma ApartBelow(t: Tree, pt: Node, S: set<Node>)
    requires t.Fork? && forall n :: n in S ==> One(pt, n) + Count(t, n) <= 1
    ensures forall n :: n in S ==> One(pt, n) + One(t.n, n) + Count(t.l, n) + Count(t.r, n) <= 1
    ensures forall n :: n in S ==> One(pt, n) + Count(t.l, n) <= 1 && One(pt, n) + Count(t.r, n) <= 1
  {
    forall n | n in S ensures One(pt, n) + One(t.n, n) + Count(t.l, n) + Count(t.r, n) <= 1 {
      ForkCounts(t, n);
    }
  }

  // Growing below, the node above stays as it is.
  lemma GrownAside(t: Tree, u: Tree, k: int, pt: Node, s: Store, s1: Store)
    requires t.Fork? && (u == t.l || u == t.r) && t.n in s && k !in Inorder(u) && Grown(u, k, pt, t.n, s, s1)
    requires forall n :: n in s ==> One(pt, n) + One(t.n, n) + Count(t.l, n) + Count(t.r, n) <= 1
    ensures s1.Keys == s.Keys && s1[t.n] == s[t.n]
    ensures BstInserted(u, k, pt).Fork? && Root(BstInserted(u, k, pt)) != t.n
  {
    hide Rep;
    RootOfGrown(t, u, k, pt, s);
  }

  // The link to the subtree and its parent link are set.
  lemma BstStep(t: Tree, k: int, pt: Node, q: Node?, s: Store, s1: Store, s2: Store, r: Node, left: bool)
    requires t.Fork? && Rep(t, q, s) && pt in s && s[pt] == Cell(k, RED, null, null, null)
    requires forall n :: n in s ==> One(pt, n) + Count(t, n) <= 1
    requires (if left then k < t.k else k > t.k) && t.n in s && t.n in s1 && r in s1 && s1.Keys == s.Keys
    requires k !in Inorder(t) ==>
      var u := if left then t.l else t.r;
      Grown(u, k, pt, t.n, s, s1) && r == Root(BstInserted(u, k, pt)) && r != t.n
    requires HasKey(if left then t.l else t.r, k) ==> s1 == s && r == Root(if left then t.l else t.r)
    requires var s1' := s1[t.n := if left then s1[t.n].(left := r) else s1[t.n].(right := r)];
      s2 == s1'[r := s1'[r].(parent := t.n)]
    ensures k !in Inorder(t) ==> Grown(t, k, pt, q, s, s2) && t.n == Root(BstInserted(t, k, pt))
    ensures HasKey(t, k) ==> s2 == s
  {
    hide Count, Rep, Inorder, Grown, One;
    if k !in Inorder(t) {
      AbsentBelow(t, k);
      GrownStep(t, k, pt, q, s, s1, s2, left);
    }
    if HasKey(t, k) { RepFork(t, q, s); RepFork(if left then t.l else t.r, t.n, s); }
  }

  // The subtree u of t has grown, and the link to it and its parent link are set.
  lemma GrownStep(t: Tree, k: int, pt: Node, q: Node?, s: Store, s1: Store, s2: Store, left: bool)
    requires t.Fork? && Rep(t, q, s) && pt in s && s[pt] == Cell(k, RED, null, null, null)
    requires forall n :: n in s ==> One(pt, n) + Count(t, n) <= 1
    requires k !in Inorder(t) && (if left then k < t.k else k > t.k)
    requires Grown(if left then t.l else t.r, k, pt, t.n, s, s1)
    requires var r := Root(BstInserted(if left then t.l else t.r, k, pt));
      r != null && t.n in s && r in s && t.n != r &&
      s2 == s1[t.n := if left then s1[t.n].(left := r) else s1[t.n].(right := r)][r := s1[r].(parent := t.n)]
    ensures Grown(t, k, pt, q, s, s2)
  {
    hide Count, Rep, Inorder;
    var u, v := if left then t.l else t.r, if left then t.r else t.l;
    var u' := BstInserted(u, k, pt);
    RepFork(t, q, s);
    forall n | n in s ensures One(pt, n) + One(t.n, n) + Count(u, n) + Count(v, n) <= 1 {
      ForkCounts(t, n);
    }
    AbsentBelow(t, k);
    forall n | n in s ensures Count(u', n) == Count(u, n) + One(pt, n) { BstCounts(u, k, pt, n); }
    BstCounts(u, k, pt, pt);
    RootCounts(u');
    assert s1[t.n] == s[t.n];
    Moved(u', if u.Nil? then null else t.n, s1, t.n, s2);
    Kept(v, t.n, s, s2);
    RepMake(BstInserted(t, k, pt), q, s2);
    forall n | n in s && n != pt && Count(t, n) == 0 ensures s2[n] == s[n] {
      ForkCounts(t, n);
      ForkCounts(t, u'.n);
      RootCounts(u);
    }
  }

  lemma AbsentBelow(t: Tree, k: int)
    requires t.Fork? && k !in Inorder(t)
    ensures k !in Inorder(t.l) && k !in Inorder(t.r) && k != t.k
  {
    Members(Inorder(t.l), t.k, Inorder(t.r), k);
  }

  class RBTree {
    var root: Node?
    ghost var nodes: set<Node>
    ghost var tree: Tree

    ghost predicate Holds()
      reads this, nodes
    {
      root == Root(tree) && Rep(tree, null, At(nodes)) && Exact(tree, nodes)
    }

    ghost predicate Valid()
      reads this, nodes
    {
      Holds() && RedBlack(tree) && Sorted(Inorder(tree))
    }

    constructor ()
      ensures Valid() && tree == Nil
    {
      root, nodes, tree := null, {}, Nil;
      new;
      assert BlackHeight(Nil, 0);
    }

    // The node of t at c gets a color.
    method Paint(n: Node, color: Color, ghost c: Context, ghost t: Tree)
      requires Holds() && tree == Plug(c, t) && t.Fork? && t.n == n
      modifies this`tree, nodes
      ensures Holds() && tree == Plug(c, Painted(t, color))
    {
      hide Rep, Exact, Plug;
      assert At(nodes).Keys == nodes;
      PaintedWhole(c, t, color, At(nodes));
      n.SetColor(color, nodes);
      tree := Plug(c, Painted(t, color));
    }

    method RotateLeft(pt: Node, ghost c: Context, ghost t: Tree)
      requires Holds() && tree == Plug(c, t) && t.Fork? && t.r.Fork? && t.n == pt
      modifies this`root, this`tree, nodes
      ensures Holds() && tree == Plug(c, RotatedLeft(t))
    {
      hide Rep, Exact, Plug;
      ghost var s := At(nodes);
      assert s.Keys == nodes;
      LeftAround(c, t, s);
      PartAt(c, t, s);
      TurnLeft(pt);
      TurnedWhole(c, t, s, At(nodes), true);
      PlugRoot(c, t, t);
      tree := Plug(c, RotatedLeft(t));
      assert At(nodes).Keys == nodes;
    }

    // The assignments of rotateLeft.
    method TurnLeft(pt: Node)
      requires pt in nodes && Around(At(nodes), pt, pt.right, if pt.right == null then null else pt.right.left)
      modifies this`root, nodes
      ensures var y: Node := old(pt.right);
        Rotated(old(At(nodes)), At(nodes), pt, y, true) && root == if old(pt.parent) == null then y else old(root)
    {
      var rightChild: Node := pt.right;
      assert rightChild in nodes && (pt.parent != null ==> pt.parent in nodes);
      assert rightChild.left != null ==> rightChild.left in nodes;
      pt.right := rightChild.left;
      if pt.right != null {
        pt.right.parent := pt;
      }
      rightChild.parent := pt.parent;
      if pt.parent == null {
        root := rightChild;
      } else if pt == pt.parent.left {
        pt.parent.left := rightChild;
      } else {
        pt.parent.right := rightChild;
      }
      rightChild.left := pt;
      pt.parent := rightChild;
    }

    method RotateRight(pt: Node, ghost c: Context, ghost t: Tree)
      requires Holds() && tree == Plug(c, t) && t.Fork? && t.l.Fork? && t.n == pt
      modifies this`root, this`tree, nodes
      ensures Holds() && tree == Plug(c, RotatedRight(t))
    {
      hide Rep, Exact, Plug;
      ghost var s := At(nodes);
      assert s.Keys == nodes;
      RightAround(c, t, s);
      PartAt(c, t, s);
      TurnRight(pt);
      TurnedWhole(c, t, s, At(nodes), false);
      PlugRoot(c, t, t);
      tree := Plug(c, RotatedRight(t));
      assert At(nodes).Keys == nodes;
    }

    // The assignments of rotateRight.
    method TurnRight(pt: Node)
      requires pt in nodes && Around(At(nodes), pt, pt.left, if pt.left == null then null else pt.left.right)
      modifies this`root, nodes
      ensures var y: Node := old(pt.left);
        Rotated(old(At(nodes)), At(nodes), pt, y, false) && root == if old(pt.parent) == null then y else old(root)
    {
      var leftChild: Node := pt.left;
      assert leftChild in nodes && (pt.parent != null ==> pt.parent in nodes);
      assert leftChild.right != null ==> leftChild.right in nodes;
      pt.left := leftChild.right;
      if pt.left != null {
        pt.left.parent := pt;
      }
      leftChild.parent := pt.parent;
      if pt.parent == null {
        root := leftChild;
      } else if pt == pt.parent.left {
        pt.parent.left := leftChild;
      } else {
        pt.parent.right := leftChild;
      }
      leftChild.right := pt;
      pt.parent := leftChild;
    }

    // Case 1 of fixViolation, on the grandparent's subtree g.
    method Recolor(grandparent: Node, ghost c: Context, ghost g: Tree)
      requires Holds() && tree == Plug(c, g) && g.Fork? && g.l.Fork? && g.r.Fork? && g.n == grandparent
      requires grandparent.left != null && grandparent.right != null
      requires grandparent.left == g.l.n && grandparent.right == g.r.n
      modifies this`tree, nodes
      ensures Holds() && tree == Plug(c, Recolored(g))
    {
      hide Rep, Exact, Plug;
      var left, right := grandparent.left, grandparent.right;
      Paint(grandparent, RED, c, g);
      ghost var g1 := Painted(g, RED);
      PlugStep(InLeft(c, g.n, RED, g.k, g.r), g.l);
      Paint(left, BLACK, InLeft(c, g.n, RED, g.k, g.r), g.l);
      ghost var l := Painted(g.l, BLACK);
      PlugStep(InLeft(c, g.n, RED, g.k, g.r), l);
      PlugStep(InRight(c, g.n, RED, l, g.k), g.r);
      Paint(right, BLACK, InRight(c, g.n, RED, l, g.k), g.r);
      PlugStep(InRight(c, g.n, RED, l, g.k), Painted(g.r, BLACK));
    }

    // Cases 2 and 3, with the parent on the left.
    method TurnGrandparentRight(grandparent: Node, parentNode: Node, pt: Node, ghost c: Context, ghost g: Tree)
      returns (top: Node)
      requires Holds() && tree == Plug(c, g) && g.Fork? && g.l.Fork? && g.n == grandparent && g.l.n == parentNode
      requires (pt == parentNode.right) ==> g.l.r.Fork? && g.l.r.n == pt
      modifies this`root, this`tree, nodes
      ensures Holds() && tree == Plug(c, TurnedRight(g, old(pt == parentNode.right))) && top == TurnedRight(g, old(pt == parentNode.right)).n
    {
      hide Rep, Exact, Plug;
      var parent := parentNode;
      ghost var g' := g;
      if pt == parentNode.right {
        PlugStep(InLeft(c, g.n, g.color, g.k, g.r), g.l);
        RotateLeft(parentNode, InLeft(c, g.n, g.color, g.k, g.r), g.l);
        g' := g.(l := RotatedLeft(g.l));
        PlugStep(InLeft(c, g.n, g.color, g.k, g.r), g'.l);
        parent := pt;
      }
      RotateRight(grandparent, c, g');
      ghost var t := RotatedRight(g');
      ColorsAt(c, t, At(nodes));
      var parentColor, grandColor := parent.color, grandparent.color;
      Paint(parent, grandColor, c, t);
      ghost var up := InRight(c, t.n, t.r.color, t.l, t.k);
      PlugStep(up, t.r);
      Paint(grandparent, parentColor, up, t.r);
      PlugStep(up, Painted(t.r, parentColor));
      top := parent;
    }

    // The same with the parent on the right.
    method TurnGrandparentLeft(grandparent: Node, parentNode: Node, pt: Node, ghost c: Context, ghost g: Tree)
      returns (top: Node)
      requires Holds() && tree == Plug(c, g) && g.Fork? && g.r.Fork? && g.n == grandparent && g.r.n == parentNode
      requires (pt == parentNode.left) ==> g.r.l.Fork? && g.r.l.n == pt
      modifies this`root, this`tree, nodes
      ensures Holds() && tree == Plug(c, TurnedLeft(g, old(pt == parentNode.left))) && top == TurnedLeft(g, old(pt == parentNode.left)).n
    {
      hide Rep, Exact, Plug;
      var parent := parentNode;
      ghost var g' := g;
      if pt == parentNode.left {
        PlugStep(InRight(c, g.n, g.color, g.l, g.k), g.r);
        RotateRight(parentNode, InRight(c, g.n, g.color, g.l, g.k), g.r);
        g' := g.(r := RotatedRight(g.r));
        PlugStep(InRight(c, g.n, g.color, g.l, g.k), g'.r);
        parent := pt;
      }
      RotateLeft(grandparent, c, g');
      ghost var t := RotatedLeft(g');
      ColorsAt(c, t, At(nodes));
      var parentColor, grandColor := parent.color, grandparent.color;
      Paint(parent, grandColor, c, t);
      ghost var up := InLeft(c, t.n, t.l.color, t.k, t.r);
      PlugStep(up, t.l);
      Paint(grandparent, parentColor, up, t.l);
      PlugStep(up, Painted(t.l, parentColor));
      top := parent;
    }

    // BSTInsert, below rt: the new node pt comes to its place. If its key is on the
    // way, nothing changes.
    method BSTInsert(rt: Node?, pt: Node, ghost t: Tree, ghost q: Node?, ghost S: set<Node>) returns (r: Node)
      requires Rep(t, q, At(S)) && Root(t) == rt && pt in S && (rt != null ==> rt in S)
      requires pt.AsCell() == Cell(pt.data, RED, null, null, null)
      requires forall n :: n in S ==> One(pt, n) + Count(t, n) <= 1
      modifies S
      ensures r in S
      ensures pt.data !in Inorder(t) ==>
        Grown(t, pt.data, pt, q, old(At(S)), At(S)) && r == Root(BstInserted(t, pt.data, pt))
      ensures HasKey(t, pt.data) ==> At(S) == old(At(S)) && r == rt
      decreases t
    {
      hide Rep, Count, Inorder, Grown, BstInserted, One;
      ghost var s, k := At(S), pt.data;
      if rt == null {
        NewLeaf(k, pt, q, s);
        return pt;
      }
      RepFork(t, q, s);
      ApartBelow(t, pt, S);
      if pt.data < rt.data {
        var l := BSTInsert(rt.left, pt, t.l, rt, S);
        ghost var s1 := At(S);
        if k !in Inorder(t) {
          AbsentBelow(t, k);
          GrownAside(t, t.l, k, pt, s, s1);
        }
        rt.SetLeft(l, S);
        rt.left.SetParent(rt, S);
        BstStep(t, k, pt, q, s, s1, At(S), l, true);
      } else if pt.data > rt.data {
        var r' := BSTInsert(rt.right, pt, t.r, rt, S);
        ghost var s1 := At(S);
        if k !in Inorder(t) {
          AbsentBelow(t, k);
          GrownAside(t, t.r, k, pt, s, s1);
        }
        rt.SetRight(r', S);
        rt.right.SetParent(rt, S);
        BstStep(t, k, pt, q, s, s1, At(S), r', false);
      } else {
        KeyHere(t, k);
      }
      r := rt;
    }

    // From one red node below a red one to none.
    method FixViolation(pt: Node, ghost c: Context, ghost t: Tree, ghost h: int)
      requires Holds() && tree == Plug(c, t) && t.Fork? && t.n == pt
      requires WellAround(c, h) && Alternating(t) && BlackHeight(t, h)
      modifies this`root, this`tree, nodes
      ensures Holds() && tree == Fixed(c, t)
    {
      hide Rep, Exact, Plug, WellAround, Alternating, BlackHeight, TurnedLeft, TurnedRight, Recolored;
      var p := pt;
      ghost var c', t', h' := c, t, h;
      LoopSees(c', t', h', nodes);
      while p != root && p.color != BLACK && p.parent.color == RED
        invariant Holds() && tree == Plug(c', t') && t'.Fork? && t'.n == p
        invariant WellAround(c', h') && Alternating(t') && BlackHeight(t', h') && Fixed(c', t') == Fixed(c, t)
        invariant p in nodes && (p != root <==> !c'.Top?) && p.color == t'.color
        invariant !c'.Top? ==> p.parent == c'.n && p.parent in nodes && p.parent.color == c'.color
        decreases c'
      {
        var parentNode := p.parent;
        var grandparent := p.parent.parent;
        GrandparentSeen(c', t', h', nodes);
        ghost var g := Grandparent(c', t');
        if parentNode == grandparent.left {
          var uncle := grandparent.right;
          if uncle != null && uncle.color == RED {
            RecoloredWell(c', t', h');
            Recolor(grandparent, c'.up.up, g);
            p := grandparent;
            t' := Recolored(g);
          } else {
            TurnedWell(c', t', h');
            p := TurnGrandparentRight(grandparent, parentNode, p, c'.up.up, g);
            t' := Turned(c', t');
          }
        } else {
          var uncle := grandparent.left;
          if uncle != null && uncle.color == RED {
            RecoloredWell(c', t', h');
            Recolor(grandparent, c'.up.up, g);
            p := grandparent;
            t' := Recolored(g);
          } else {
            TurnedWell(c', t', h');
            p := TurnGrandparentLeft(grandparent, parentNode, p, c'.up.up, g);
            t' := Turned(c', t');
          }
        }
        c', h' := c'.up.up, h' + 1;
        LoopSees(c', t', h', nodes);
      }
      PlugForks(c', t');
      PlugTop(tree);
      PlugTop(Painted(tree, BLACK));
      Paint(root, BLACK, Top, tree);
    }

    // A new node, put where BSTInsert takes it: into the tree, or, if its key is there
    // already, nowhere.
    method Place(data: int) returns (pt: Node)
      requires Holds() && Sorted(Inorder(tree))
      modifies this, nodes
      ensures Holds() && fresh(pt) && pt !in old(nodes)
      ensures data !in old(Inorder(tree)) ==> tree == BstInserted(old(tree), data, pt) && nodes == old(nodes) + {pt}
      ensures data in old(Inorder(tree)) ==> tree == old(tree) && nodes == old(nodes)
      ensures data in old(Inorder(tree)) ==> root != pt && pt.color == RED && pt.parent == null
    {
      hide Rep, Exact, Inorder, BstInserted, Sorted, Root;
      pt := new Node(data);
      assert At(nodes) == old(At(nodes));
      PlaceNode(pt);
    }

    method PlaceNode(pt: Node)
      requires Holds() && Sorted(Inorder(tree)) && pt !in nodes && pt.AsCell() == Cell(pt.data, RED, null, null, null)
      modifies this, pt, nodes
      ensures Holds()
      ensures pt.data !in old(Inorder(tree)) ==> tree == BstInserted(old(tree), pt.data, pt) && nodes == old(nodes) + {pt}
      ensures pt.data in old(Inorder(tree)) ==> tree == old(tree) && nodes == old(nodes)
      ensures pt.data in old(Inorder(tree)) ==> root != pt && pt.color == RED && pt.parent == null
    {
      hide Rep, Exact, Inorder, BstInserted, Count, Grown, One, HasKey, Sorted;
      ghost var t, S, data := tree, nodes + {pt}, pt.data;
      Beside(t, pt, nodes);
      HasKeyExactly(t, data);
      ghost var s := At(S);
      root := BSTInsert(root, pt, tree, null, S);
      if data !in Inorder(t) {
        AfterPlace(t, data, pt, s, S);
        nodes := S;
        tree := BstInserted(t, data, pt);
      } else {
        StillThere(t, s, nodes, pt);
      }
    }

    // An absent key comes to its place; the tree stays red-black, and so low. For a key
    // that is there, the new node is left out of the tree, and fixViolation reads the
    // color of its missing parent.
    method Insert(data: int) returns (nullRead: bool)
      requires Valid()
      modifies this, nodes
      ensures Valid() && nodes >= old(nodes) && fresh(nodes - old(nodes))
      ensures nullRead <==> data in old(Inorder(tree))
      ensures nullRead ==> tree == old(tree) && nodes == old(nodes)
      ensures !nullRead ==> |nodes| == old(|nodes|) + 1 && |Inorder(tree)| == old(|Inorder(tree)|) + 1
      ensures !nullRead ==> forall x :: x in Inorder(tree) <==> x in old(Inorder(tree)) || x == data
      ensures var n := |Inorder(tree)|; Pow2(Height(tree)) <= (n + 1) * (n + 1)
    {
      hide Rep, Exact, Inorder, Sorted, Plug, RedBlack, Fixed, WellAround, PlaceOf, BstInserted, Height, Alternating, BlackHeight;
      ghost var t := tree;
      var pt := Place(data);
      nullRead := false;
      if data !in Inorder(t) {
        StartsFixing(t, data, pt);
        ParentThere(PlaceOf(Top, t, data), data, pt, nodes);
      }
      if pt != root && pt.color != BLACK && pt.parent == null {
        nullRead := true;
      } else {
        FixViolation(pt, PlaceOf(Top, t, data), Leaf(pt, data), 0);
        InsertedIsRedBlack(t, data, pt);
      }
      RedBlackHeight(tree);
    }
  }

  // What the loop of fixViolation finds of the new node.
  lemma ParentThere(c: Context, k: int, pt: Node, S: set<Node>)
    requires Rep(Plug(c, Leaf(pt, k)), null, At(S))
    ensures pt in S && (pt != Root(Plug(c, Leaf(pt, k))) ==> pt.parent != null)
  {
    PlugRep(c, Leaf(pt, k), At(S));
  }

  // A node that is not in the tree's nodes, beside them.
  lemma Beside(t: Tree, pt: Node, S: set<Node>)
    requires Rep(t, null, At(S)) && Exact(t, S) && pt !in S
    ensures Rep(t, null, At(S + {pt})) && forall n :: n in S + {pt} ==> One(pt, n) + Count(t, n) == 1
    ensures t.Fork? ==> t.n in S
    ensures var s := At(S + {pt}); Rep(t, null, Part(s, S)) && pt in s && s[pt] == pt.AsCell()
  {
    hide Rep, Count, One, Exact;
    assert At(S).Keys == S && At(S + {pt}).Keys == S + {pt};
    NodesApart(t, pt, At(S), At(S + {pt}));
    PartOf(S, S + {pt});
    RepFork(t, null, At(S));
  }

  lemma AfterPlace(t: Tree, k: int, pt: Node, s: Store, S: set<Node>)
    requires Grown(t, k, pt, null, s, At(S)) && k !in Inorder(t) && s.Keys == S
    requires forall n :: n in S ==> One(pt, n) + Count(t, n) == 1
    ensures Rep(BstInserted(t, k, pt), null, At(S)) && Exact(BstInserted(t, k, pt), S)
  {
    hide Rep, Exact, BstInserted, Count, Grown, One, Inorder;
    assert At(S).Keys == S;
    GrownWhole(t, k, pt, s, At(S));
  }

  ghost function Part(s: Store, S: set<Node>): Store {
    map n | n in S && n in s :: s[n]
  }

  lemma PartOf(R: set<Node>, S: set<Node>)
    requires R <= S
    ensures At(R) == Part(At(S), R)
  {
    assert At(R).Keys == Part(At(S), R).Keys;
  }

  // Nothing has changed: neither the tree nor the new node.
  lemma StillThere(t: Tree, s: Store, S: set<Node>, pt: Node)
    requires At(S + {pt}) == s && pt in s && Rep(t, null, Part(s, S))
    ensures Rep(t, null, At(S)) && pt.AsCell() == s[pt]
  {
    hide Rep;
    PartOf(S, S + {pt});
    assert At(S + {pt})[pt] == pt.AsCell();
  }

  lemma PlugStep(c: Context, t: Tree)
    requires !c.Top?
    ensures Plug(c, t) == Plug(c.up, Fill(c, t))
  {
  }

  lemma ColorsAt(c: Context, t: Tree, s: Store)
    requires Rep(Plug(c, t), null, s) && t.Fork?
    ensures t.n in s && s[t.n].color == t.color
    ensures t.l.Fork? ==> t.l.n in s && s[t.l.n].color == t.l.color
    ensures t.r.Fork? ==> t.r.n in s && s[t.r.n].color == t.r.color
  {
    PlugRep(c, t, s);
    RepFork(t, Parent(c), s);
    RepFork(t.l, t.n, s);
    RepFork(t.r, t.n, s);
  }

  // What the loop guard sees of the node at c, and of its parent.
  lemma LoopSees(c: Context, t: Tree, h: int, S: set<Node>)
    requires Rep(Plug(c, t), null, At(S)) && Exact(Plug(c, t), S) && t.Fork? && WellAround(c, h)
    ensures t.n in S && (t.n != Root(Plug(c, t)) <==> !c.Top?) && t.n.color == t.color
    ensures !c.Top? ==> t.n.parent == c.n && c.n in S && c.n.color == c.color
  {
    hide Rep, Exact, Plug;
    PlugRep(c, t, At(S));
    RepFork(t, Parent(c), At(S));
    PlugRoot(c, t, t);
    if !c.Top? {
      RepFork(Fill(c, t), Parent(c.up), At(S));
      RootElsewhere(c, t, S);
    }
  }

  lemma NewLeaf(k: int, pt: Node, q: Node?, s: Store)
    requires pt in s && s[pt] == Cell(k, RED, null, null, null)
    ensures Grown(Nil, k, pt, q, s, s) && BstInserted(Nil, k, pt) == Leaf(pt, k)
  {
  }

  // The grown subtree's root is not the node above it.
  lemma RootOfGrown(t: Tree, u: Tree, k: int, pt: Node, s: Store)
    requires t.Fork? && (u == t.l || u == t.r) && t.n in s && k !in Inorder(u)
    requires forall n :: n in s ==> One(pt, n) + One(t.n, n) + Count(t.l, n) + Count(t.r, n) <= 1
    ensures BstInserted(u, k, pt).Fork? && Root(BstInserted(u, k, pt)) != t.n
    ensures t.n != pt && Count(u, t.n) == 0 && pt !in [t.n]
  {
    BstCounts(u, k, pt, t.n);
    RootCounts(u);
  }

  lemma PlugTop(t: Tree)
    ensures Plug(Top, t) == t
  {
  }

  lemma {:induction false} PlugForks(c: Context, t: Tree)
    requires t.Fork?
    ensures Plug(c, t).Fork?
    decreases c
  {
    if !c.Top? { PlugForks(c.up, Fill(c, t)); }
  }

  lemma RootElsewhere(c: Context, t: Tree, S: set<Node>)
    requires !c.Top? && t.Fork? && t.n in S && Exact(Plug(c, t), S)
    ensures Root(Plug(c, t)) != t.n
  {
    PlugCount(c, t, t.n);
    RootAround(c, t);
  }

  lemma {:induction false} RootAround(c: Context, t: Tree)
    requires !c.Top?
    ensures Plug(c, t).Fork? && CountAround(c, Plug(c, t).n) > 0
    decreases c
  {
    if !c.up.Top? { RootAround(c.up, Fill(c, t)); }
  }

  // What the body sees of the grandparent and its children.
  lemma GrandparentSeen(c: Context, t: Tree, h: int, S: set<Node>)
    requires Rep(Plug(c, t), null, At(S)) && Exact(Plug(c, t), S) && t.Fork? && t.n in S && t.n.color == t.color
    requires WellAround(c, h) && !c.Top? && IsRed(t) && c.color.RED?
    ensures Violation(c, t) && c.n in S && c.n.parent == c.up.n && c.up.n in S
    ensures var g := Grandparent(c, t);
      Plug(c.up.up, g) == Plug(c, t) && g.n == c.up.n && g.n.left == Root(g.l) && g.n.right == Root(g.r) &&
      (Uncle(c).Fork? ==> Uncle(c).n in S && Uncle(c).n.color == Uncle(c).color) &&
      (c.up.InLeft? <==> c.n == g.n.left) && (c.up.InLeft? <==> c.n != g.n.right) &&
      c.n.left == Root(Fill(c, t).l) && c.n.right == Root(Fill(c, t).r) &&
      (c.InLeft? <==> t.n == c.n.left) && (c.InRight? <==> t.n == c.n.right)
  {
    hide Rep, Exact, Count;
    PlugRep(c, t, At(S));
    PlugRep(c.up, Fill(c, t), At(S));
    RepFork(Fill(c, t), c.up.n, At(S));
    RepFork(Grandparent(c, t), Parent(c.up.up), At(S));
    RepFork(Uncle(c), c.up.n, At(S));
    SiblingElsewhere(c, t, S);
    SiblingElsewhere(c.up, Fill(c, t), S);
  }

  lemma SiblingElsewhere(c: Context, t: Tree, S: set<Node>)
    requires !c.Top? && t.Fork? && t.n in S && Exact(Plug(c, t), S)
    ensures Root(Sibling(c)) != t.n
  {
    PlugCount(c, t, t.n);
    RootCounts(Sibling(c));
  }

  // A node that is not in the tree, beside it.
  lemma NodesApart(t: Tree, pt: Node, s: Store, s': Store)
    requires Rep(t, null, s) && Exact(t, s.Keys) && pt !in s && s'.Keys == s.Keys + {pt}
    requires forall n :: n in s ==> s'[n] == s[n]
    ensures Rep(t, null, s') && forall n :: n in s' ==> One(pt, n) + Count(t, n) == 1
    ensures t.Fork? ==> t.n in s'
  {
    Kept(t, null, s, s');
    CountOutside(t, null, s, pt);
    RepFork(t, null, s);
  }

  lemma GrownWhole(t: Tree, k: int, pt: Node, s: Store, s': Store)
    requires Grown(t, k, pt, null, s, s') && k !in Inorder(t)
    requires forall n :: n in s ==> One(pt, n) + Count(t, n) == 1
    ensures Rep(BstInserted(t, k, pt), null, s') && Exact(BstInserted(t, k, pt), s'.Keys)
  {
    forall n | n in s' ensures Count(BstInserted(t, k, pt), n) == 1 { BstCounts(t, k, pt, n); }
  }

  lemma StartsFixing(t: Tree, k: int, pt: Node)
    requires RedBlack(t) && k !in Inorder(t)
    ensures var c := PlaceOf(Top, t, k);
      WellAround(c, 0) && BstInserted(t, k, pt) == Plug(c, Leaf(pt, k)) && Inserted(t, k, pt) == Fixed(c, Leaf(pt, k)) &&
      Alternating(Leaf(pt, k)) && BlackHeight(Leaf(pt, k), 0)
  {
    hide Fixed;
    var h :| BlackHeight(t, h);
    PlaceWell(Top, t, k, h);
    PlaceHolds(Top, t, k, pt);
    PlugTop(BstInserted(t, k, pt));
  }
}
