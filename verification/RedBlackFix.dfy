// BSTInsert and fixViolation on trees: what they keep of the order, the colors and
// the black heights.
module RedBlackFix {
  import opened SortedKeys
  import opened PowersOfTwo
  import opened RedBlackShape

  // ----- BSTInsert -----

  function Leaf(n: Node, k: int): Tree {
    Fork(n, RED, Nil, k, Nil)
  }

  function BstInserted(t: Tree, k: int, n: Node): Tree {
    if t.Nil? then Leaf(n, k)
    else if k < t.k then Fork(t.n, t.color, BstInserted(t.l, k, n), t.k, t.r)
    else if k > t.k then Fork(t.n, t.color, t.l, t.k, BstInserted(t.r, k, n))
    else t
  }

  // The empty place BSTInsert comes to.
  function PlaceOf(c: Context, t: Tree, k: int): Context
    decreases t
  {
    if t.Nil? then c
    else if k < t.k then PlaceOf(InLeft(c, t.n, t.color, t.k, t.r), t.l, k)
    else PlaceOf(InRight(c, t.n, t.color, t.l, t.k), t.r, k)
  }

  // A new key comes into the order, and nothing else changes.
  lemma {:induction false} BstInsertedKeys(t: Tree, k: int, n: Node)
    requires Sorted(Inorder(t)) && k !in Inorder(t)
    ensures Sorted(Inorder(BstInserted(t, k, n)))
    ensures forall x :: x in Inorder(BstInserted(t, k, n)) <==> x in Inorder(t) || x == k
    ensures |Inorder(BstInserted(t, k, n))| == |Inorder(t)| + 1
  {
    if t.Nil? {
      assert Inorder(BstInserted(t, k, n)) == [k];
    } else {
      var l, r := Inorder(t.l), Inorder(t.r);
      SortedParts(l, t.k, r);
      Members(l, t.k, r, k);
      if k < t.k {
        BstInsertedKeys(t.l, k, n);
        SortedJoin(Inorder(BstInserted(t.l, k, n)), t.k, r);
        var l' := Inorder(BstInserted(t.l, k, n));
        forall x ensures x in l' + [t.k] + r <==> x in l + [t.k] + r || x == k {
          Members(l, t.k, r, x);
          Members(l', t.k, r, x);
        }
      } else {
        BstInsertedKeys(t.r, k, n);
        SortedJoin(l, t.k, Inorder(BstInserted(t.r, k, n)));
        var r' := Inorder(BstInserted(t.r, k, n));
        forall x ensures x in l + [t.k] + r' <==> x in l + [t.k] + r || x == k {
          Members(l, t.k, r, x);
          Members(l, t.k, r', x);
        }
      }
    }
  }

  lemma {:induction false} PlaceHolds(c: Context, t: Tree, k: int, n: Node)
    requires k !in Inorder(t)
    ensures Plug(PlaceOf(c, t, k), Leaf(n, k)) == Plug(c, BstInserted(t, k, n))
    ensures Plug(PlaceOf(c, t, k), Nil) == Plug(c, t)
    decreases t
  {
    if t.Fork? {
      Members(Inorder(t.l), t.k, Inorder(t.r), k);
      if k < t.k {
        PlaceHolds(InLeft(c, t.n, t.color, t.k, t.r), t.l, k, n);
      } else {
        PlaceHolds(InRight(c, t.n, t.color, t.l, t.k), t.r, k, n);
      }
    }
  }

  // ----- fixViolation -----

  predicate IsRed(t: Tree) {
    t.Fork? && t.color.RED?
  }

  function Painted(t: Tree, color: Color): Tree
    requires t.Fork?
  {
    t.(color := color)
  }

  function RotatedLeft(t: Tree): Tree
    requires t.Fork? && t.r.Fork?
  {
    Fork(t.r.n, t.r.color, Fork(t.n, t.color, t.l, t.k, t.r.l), t.r.k, t.r.r)
  }

  function RotatedRight(t: Tree): Tree
    requires t.Fork? && t.l.Fork?
  {
    Fork(t.l.n, t.l.color, t.l.l, t.l.k, Fork(t.n, t.color, t.l.r, t.k, t.r))
  }

  // Case 1: parent and uncle turn black, the grandparent red.
  function Recolored(g: Tree): (r: Tree)
    requires g.Fork? && g.l.Fork? && g.r.Fork?
    ensures r.Fork? && r.n == g.n
  {
    Fork(g.n, RED, Painted(g.l, BLACK), g.k, Painted(g.r, BLACK))
  }

  // Cases 2 and 3: the grandparent's subtree g, whose left, or right, child p is
  // red with a red child; inner says which.
  function TurnedRight(g: Tree, inner: bool): (r: Tree)
    requires g.Fork? && g.l.Fork? && (inner ==> g.l.r.Fork?)
    ensures r.Fork?
  {
    var g' := if inner then g.(l := RotatedLeft(g.l)) else g;
    var t := RotatedRight(g');
    Fork(t.n, g.color, t.l, t.k, Painted(t.r, g'.l.color))
  }

  function TurnedLeft(g: Tree, inner: bool): (r: Tree)
    requires g.Fork? && g.r.Fork? && (inner ==> g.r.l.Fork?)
    ensures r.Fork?
  {
    var g' := if inner then g.(r := RotatedRight(g.r)) else g;
    var t := RotatedLeft(g');
    Fork(t.n, g.color, Painted(t.l, g'.r.color), t.k, t.r)
  }

  // The loop goes on at a red node below a red parent, which has a parent.
  predicate Violation(c: Context, t: Tree) {
    IsRed(t) && !c.Top? && c.color.RED? && !c.up.Top?
  }

  function Uncle(c: Context): Tree
    requires !c.Top? && !c.up.Top?
  {
    Sibling(c.up)
  }

  function Grandparent(c: Context, t: Tree): Tree
    requires !c.Top? && !c.up.Top?
  {
    Fill(c.up, Fill(c, t))
  }

  function Turned(c: Context, t: Tree): Tree
    requires !c.Top? && !c.up.Top? && t.Fork?
  {
    if c.up.InLeft? then TurnedRight(Grandparent(c, t), c.InRight?) else TurnedLeft(Grandparent(c, t), c.InLeft?)
  }

  // The tree fixViolation leaves, started at the node of t at c.
  function Fixed(c: Context, t: Tree): Tree
    requires t.Fork?
    decreases c
  {
    if !Violation(c, t) then Blackened(Plug(c, t))
    else if IsRed(Uncle(c)) then Fixed(c.up.up, Recolored(Grandparent(c, t)))
    else Blackened(Plug(c.up.up, Turned(c, t)))
  }

  function Blackened(t: Tree): Tree {
    if t.Nil? then t else Painted(t, BLACK)
  }

  // ----- The keys stay in order -----

  lemma RotationKeys(t: Tree)
    ensures t.Fork? && t.r.Fork? ==> Inorder(RotatedLeft(t)) == Inorder(t)
    ensures t.Fork? && t.l.Fork? ==> Inorder(RotatedRight(t)) == Inorder(t)
    ensures forall color :: t.Fork? ==> Inorder(Painted(t, color)) == Inorder(t)
  {
    if t.Fork? && t.r.Fork? { Regroup(Inorder(t.l), [t.k], Inorder(t.r.l), [t.r.k], Inorder(t.r.r)); }
    if t.Fork? && t.l.Fork? { Regroup(Inorder(t.l.l), [t.l.k], Inorder(t.l.r), [t.k], Inorder(t.r)); }
  }

  lemma Regroup(a: seq<int>, x: seq<int>, b: seq<int>, y: seq<int>, d: seq<int>)
    ensures a + x + (b + y + d) == (a + x + b) + y + d
  {
  }

  lemma TurnedKeys(g: Tree, inner: bool)
    requires g.Fork?
    ensures g.l.Fork? && (inner ==> g.l.r.Fork?) ==> Inorder(TurnedRight(g, inner)) == Inorder(g)
    ensures g.r.Fork? && (inner ==> g.r.l.Fork?) ==> Inorder(TurnedLeft(g, inner)) == Inorder(g)
  {
    if g.l.Fork? && (inner ==> g.l.r.Fork?) {
      RotationKeys(g.l);
      var g' := if inner then g.(l := RotatedLeft(g.l)) else g;
      RotationKeys(g');
      RotationKeys(RotatedRight(g').r);
    }
    if g.r.Fork? && (inner ==> g.r.l.Fork?) {
      RotationKeys(g.r);
      var g' := if inner then g.(r := RotatedRight(g.r)) else g;
      RotationKeys(g');
      RotationKeys(RotatedLeft(g').l);
    }
  }

  lemma BlackenedKeys(t: Tree)
    ensures Inorder(Blackened(t)) == Inorder(t)
  {
  }

  lemma {:induction false} FixedKeys(c: Context, t: Tree)
    requires t.Fork?
    ensures Inorder(Fixed(c, t)) == Inorder(Plug(c, t))
    decreases c
  {
    hide Inorder, TurnedLeft, TurnedRight;
    BlackenedKeys(Plug(c, t));
    if Violation(c, t) {
      var g := Grandparent(c, t);
      PlugInorder(c.up.up, g);
      if IsRed(Uncle(c)) {
        RecoloredKeys(g);
        PlugInorder(c.up.up, Recolored(g));
        FixedKeys(c.up.up, Recolored(g));
      } else {
        TurnedKeys(g, if c.up.InLeft? then c.InRight? else c.InLeft?);
        PlugInorder(c.up.up, Turned(c, t));
        BlackenedKeys(Plug(c.up.up, Turned(c, t)));
      }
    }
  }

  lemma RecoloredKeys(g: Tree)
    requires g.Fork? && g.l.Fork? && g.r.Fork?
    ensures Inorder(Recolored(g)) == Inorder(g)
  {
    RotationKeys(g.l);
    RotationKeys(g.r);
  }

  // ----- The red-black properties -----

  // No red node has a red child.
  ghost predicate Alternating(t: Tree) {
    t.Fork? ==>
      Alternating(t.l) && Alternating(t.r) && (t.color.RED? ==> !IsRed(t.l) && !IsRed(t.r))
  }

  // Every way down meets h black nodes.
  ghost predicate BlackHeight(t: Tree, h: int) {
    if t.Nil? then h == 0
    else
      var h' := if t.color.BLACK? then h - 1 else h;
      BlackHeight(t.l, h') && BlackHeight(t.r, h')
  }

  ghost predicate RedBlack(t: Tree) {
    Alternating(t) && !IsRed(t) && exists h :: BlackHeight(t, h)
  }

  // Around the cut all is well, if a tree of black height h comes there; the
  // colors at the cut itself are left open.
  ghost predicate WellAround(c: Context, h: int) {
    c.Top? ||
    (Alternating(Sibling(c)) && BlackHeight(Sibling(c), h) && (c.color.RED? ==> !IsRed(Sibling(c)) && !c.up.Top? && !c.up.color.RED?) &&
     WellAround(c.up, if c.color.BLACK? then h + 1 else h))
  }

  // Plugging a tree that goes with the color above it.
  lemma {:induction false} PlugRedBlack(c: Context, t: Tree, h: int)
    requires WellAround(c, h) && Alternating(t) && BlackHeight(t, h) && (IsRed(t) ==> c.Top? || c.color.BLACK?)
    ensures RedBlack(Blackened(Plug(c, t)))
    decreases c
  {
    if c.Top? {
      assert BlackHeight(Blackened(t), if IsRed(t) then h + 1 else h);
    } else {
      PlugRedBlack(c.up, Fill(c, t), if c.color.BLACK? then h + 1 else h);
    }
  }

  lemma RecoloredWell(c: Context, t: Tree, h: int)
    requires WellAround(c, h) && Alternating(t) && BlackHeight(t, h) && Violation(c, t) && IsRed(Uncle(c))
    ensures var g := Recolored(Grandparent(c, t)); WellAround(c.up.up, h + 1) && Alternating(g) && BlackHeight(g, h + 1) && IsRed(g)
  {
  }

  lemma TurnedWell(c: Context, t: Tree, h: int)
    requires WellAround(c, h) && Alternating(t) && BlackHeight(t, h) && Violation(c, t) && !IsRed(Uncle(c))
    ensures var g := Turned(c, t); WellAround(c.up.up, h + 1) && Alternating(g) && BlackHeight(g, h + 1) && !IsRed(g)
  {
  }

  // From one red node too many to a red-black tree.
  lemma {:induction false} FixedRedBlack(c: Context, t: Tree, h: int)
    requires t.Fork? && WellAround(c, h) && Alternating(t) && BlackHeight(t, h)
    ensures RedBlack(Fixed(c, t))
    decreases c
  {
    hide Alternating, BlackHeight, RedBlack;
    if !Violation(c, t) {
      assert IsRed(t) ==> c.Top? || c.color.BLACK?;
      PlugRedBlack(c, t, h);
    } else if IsRed(Uncle(c)) {
      RecoloredWell(c, t, h);
      FixedRedBlack(c.up.up, Recolored(Grandparent(c, t)), h + 1);
    } else {
      TurnedWell(c, t, h);
      PlugRedBlack(c.up.up, Turned(c, t), h + 1);
    }
  }

  // The place in a red-black tree where the new node goes.
  lemma {:induction false} PlaceWell(c: Context, t: Tree, k: int, h: int)
    requires WellAround(c, h) && Alternating(t) && BlackHeight(t, h) && (IsRed(t) ==> !c.Top? && c.color.BLACK?)
    ensures WellAround(PlaceOf(c, t, k), 0)
    decreases t
  {
    if t.Fork? {
      var h' := if t.color.BLACK? then h - 1 else h;
      if k < t.k {
        PlaceWell(InLeft(c, t.n, t.color, t.k, t.r), t.l, k, h');
      } else {
        PlaceWell(InRight(c, t.n, t.color, t.l, t.k), t.r, k, h');
      }
    }
  }

  // ----- The whole insertion -----

  function Inserted(t: Tree, k: int, n: Node): Tree {
    Fixed(PlaceOf(Top, t, k), Leaf(n, k))
  }

  // A red-black search tree stays one, with the new key in its place.
  lemma InsertedIsRedBlack(t: Tree, k: int, n: Node)
    requires RedBlack(t) && Sorted(Inorder(t)) && k !in Inorder(t)
    ensures RedBlack(Inserted(t, k, n)) && Sorted(Inorder(Inserted(t, k, n)))
    ensures |Inorder(Inserted(t, k, n))| == |Inorder(t)| + 1
    ensures forall x :: x in Inorder(Inserted(t, k, n)) <==> x in Inorder(t) || x == k
  {
    hide Fixed;
    var c := PlaceOf(Top, t, k);
    var h :| BlackHeight(t, h);
    PlaceWell(Top, t, k, h);
    assert BlackHeight(Leaf(n, k), 0);
    FixedRedBlack(c, Leaf(n, k), 0);
    FixedKeys(c, Leaf(n, k));
    PlaceHolds(Top, t, k, n);
    BstInsertedKeys(t, k, n);
  }

  // ----- Height -----

  function Height(t: Tree): nat {
    if t.Nil? then 0 else 1 + if Height(t.l) > Height(t.r) then Height(t.l) else Height(t.r)
  }

  lemma {:induction false} HeightBound(t: Tree, h: int)
    requires Alternating(t) && BlackHeight(t, h)
    ensures 0 <= h && Height(t) <= 2 * h + (if IsRed(t) then 1 else 0) && Pow2(h) <= |Inorder(t)| + 1
  {
    if t.Fork? {
      var h' := if t.color.BLACK? then h - 1 else h;
      HeightBound(t.l, h');
      HeightBound(t.r, h');
      assert |Inorder(t)| == |Inorder(t.l)| + 1 + |Inorder(t.r)|;
    }
  }

  // The height is at most twice the binary logarithm of the number of keys and one.
  lemma RedBlackHeight(t: Tree)
    requires RedBlack(t)
    ensures var n := |Inorder(t)|; Pow2(Height(t)) <= (n + 1) * (n + 1)
  {
    var h :| BlackHeight(t, h);
    HeightBound(t, h);
    Pow2Doubles(Height(t), h);
    Square(Pow2(h), |Inorder(t)| + 1);
  }

  lemma Square(a: nat, b: nat)
    requires a <= b
    ensures a * a <= b * b
  {
    assert a * a <= a * b <= b * b;
  }
}
