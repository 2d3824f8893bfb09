// The nodes of the red-black tree (RedBlackTree.cpp) and their setters, the trees
// they carry as values that name their nodes, what it means that a store holds such
// a tree, and positions in it.
module RedBlackShape {
  datatype Color = RED | BLACK

  class Node {
    const data: int
    var color: Color
    var left: Node?
    var right: Node?
    var parent: Node?

    // The source leaves color unset; fixViolation needs a red node.
    constructor (data: int)
      ensures AsCell() == Cell(data, RED, null, null, null)
    {
      this.data, color := data, RED;
      left, right, parent := null, null, null;
    }

    ghost function AsCell(): Cell
      reads this
    {
      Cell(data, color, left, right, parent)
    }

    method SetColor(c: Color, ghost S: set<Node>)
      requires this in S
      modifies this`color
      ensures At(S) == old(At(S))[this := old(AsCell()).(color := c)]
    {
      color := c;
      assert At(S) == old(At(S))[this := AsCell()];
    }

    method SetLeft(x: Node?, ghost S: set<Node>)
      requires this in S
      modifies this`left
      ensures At(S) == old(At(S))[this := old(AsCell()).(left := x)]
    {
      left := x;
      assert At(S) == old(At(S))[this := AsCell()];
    }

    method SetRight(x: Node?, ghost S: set<Node>)
      requires this in S
      modifies this`right
      ensures At(S) == old(At(S))[this := old(AsCell()).(right := x)]
    {
      right := x;
      assert At(S) == old(At(S))[this := AsCell()];
    }

    method SetParent(x: Node?, ghost S: set<Node>)
      requires this in S
      modifies this`parent
      ensures At(S) == old(At(S))[this := old(AsCell()).(parent := x)]
    {
      parent := x;
      assert At(S) == old(At(S))[this := AsCell()];
    }
  }

  datatype Cell = Cell(data: int, color: Color, left: Node?, right: Node?, parent: Node?)

  type Store = map<Node, Cell>

  ghost function At(S: set<Node>): Store
    reads S
  {
    map n | n in S :: n.AsCell()
  }

  datatype Tree = Nil | Fork(n: Node, color: Color, l: Tree, k: int, r: Tree)

  function Root(t: Tree): Node? {
    if t.Nil? then null else t.n
  }

  function One(n: Node, x: Node): nat {
    if n == x then 1 else 0
  }

  function Count(t: Tree, x: Node): nat {
    if t.Nil? then 0 else One(t.n, x) + Count(t.l, x) + Count(t.r, x)
  }

  lemma ForkCounts(t: Tree, x: Node)
    ensures t.Fork? ==> Count(t, x) == One(t.n, x) + Count(t.l, x) + Count(t.r, x)
    ensures Count(Nil, x) == 0
  {
  }

  lemma RootCounts(t: Tree)
    ensures t.Fork? ==> Count(t, t.n) > 0
  {
  }

  function Inorder(t: Tree): seq<int> {
    if t.Nil? then [] else Inorder(t.l) + [t.k] + Inorder(t.r)
  }

  // The store holds the tree; its links agree in both directions.
  ghost predicate Rep(t: Tree, q: Node?, s: Store) {
    t.Fork? ==>
      t.n in s && s[t.n] == Cell(t.k, t.color, Root(t.l), Root(t.r), q) && Rep(t.l, t.n, s) && Rep(t.r, t.n, s)
  }

  lemma RepFork(t: Tree, q: Node?, s: Store)
    requires Rep(t, q, s)
    ensures t.Fork? ==>
      t.n in s && s[t.n] == Cell(t.k, t.color, Root(t.l), Root(t.r), q) && Rep(t.l, t.n, s) && Rep(t.r, t.n, s)
    ensures t.Fork? && t.l.Fork? ==> t.l.n in s
    ensures t.Fork? && t.r.Fork? ==> t.r.n in s
  {
  }

  lemma RepMake(t: Tree, q: Node?, s: Store)
    requires t.Fork? ==>
      t.n in s && s[t.n] == Cell(t.k, t.color, Root(t.l), Root(t.r), q) && Rep(t.l, t.n, s) && Rep(t.r, t.n, s)
    ensures Rep(t, q, s)
  {
  }

  lemma {:induction false} Kept(t: Tree, q: Node?, s: Store, s': Store)
    requires Rep(t, q, s)
    requires forall n :: n in s && Count(t, n) > 0 ==> n in s' && s'[n] == s[n]
    ensures Rep(t, q, s')
  {
    if t.Fork? {
      assert Count(t, t.n) > 0;
      Kept(t.l, t.n, s, s');
      Kept(t.r, t.n, s, s');
    }
  }

  // A subtree whose root alone has got another parent.
  lemma Moved(t: Tree, q: Node?, s: Store, q': Node?, s': Store)
    requires Rep(t, q, s) && (t.Fork? ==> Count(t, t.n) == 1)
    requires t.Fork? && t.n in s ==> t.n in s' && s'[t.n] == s[t.n].(parent := q')
    requires forall n :: n in s && Count(t, n) > 0 && n != Root(t) ==> n in s' && s'[n] == s[n]
    ensures Rep(t, q', s')
  {
    if t.Fork? {
      Kept(t.l, t.n, s, s');
      Kept(t.r, t.n, s, s');
    }
  }

  // Each node of S occurs once.
  ghost predicate Exact(t: Tree, S: set<Node>) {
    forall x :: x in S ==> Count(t, x) == 1
  }

  // ----- Positions -----

  datatype Context =
    | Top
    | InLeft(up: Context, n: Node, color: Color, k: int, r: Tree)
    | InRight(up: Context, n: Node, color: Color, l: Tree, k: int)

  function Fill(c: Context, t: Tree): Tree
    requires !c.Top?
  {
    match c
    case InLeft(_, n, color, k, r) => Fork(n, color, t, k, r)
    case InRight(_, n, color, l, k) => Fork(n, color, l, k, t)
  }

  function Plug(c: Context, t: Tree): Tree {
    if c.Top? then t else Plug(c.up, Fill(c, t))
  }

  function Parent(c: Context): Node? {
    if c.Top? then null else c.n
  }

  // The tree beside the cut.
  function Sibling(c: Context): Tree
    requires !c.Top?
  {
    if c.InLeft? then c.r else c.l
  }

  function CountAround(c: Context, x: Node): nat {
    if c.Top? then 0 else One(c.n, x) + Count(Sibling(c), x) + CountAround(c.up, x)
  }

  lemma {:induction false} PlugCount(c: Context, t: Tree, x: Node)
    ensures Count(Plug(c, t), x) == CountAround(c, x) + Count(t, x)
    decreases c
  {
    if !c.Top? { PlugCount(c.up, Fill(c, t), x); }
  }

  function Before(c: Context): seq<int> {
    match c
    case Top => []
    case InLeft(up, _, _, _, _) => Before(up)
    case InRight(up, _, _, l, k) => Before(up) + (Inorder(l) + [k])
  }

  function After(c: Context): seq<int> {
    match c
    case Top => []
    case InLeft(up, _, _, k, r) => ([k] + Inorder(r)) + After(up)
    case InRight(up, _, _, _, _) => After(up)
  }

  lemma {:induction false} PlugInorder(c: Context, t: Tree)
    ensures Inorder(Plug(c, t)) == Before(c) + Inorder(t) + After(c)
    decreases c
  {
    if c.Top? {
      assert [] + Inorder(t) + [] == Inorder(t);
    } else {
      PlugInorder(c.up, Fill(c, t));
      match c
      case InLeft(_, _, _, k, r) => RegroupLeft(Before(c.up), Inorder(t), [k], Inorder(r), After(c.up));
      case InRight(_, _, _, l, k) => RegroupRight(Before(c.up), Inorder(l), [k], Inorder(t), After(c.up));
    }
  }

  lemma RegroupLeft(b: seq<int>, i: seq<int>, k: seq<int>, r: seq<int>, a: seq<int>)
    ensures b + (i + k + r) + a == b + i + ((k + r) + a)
  {
  }

  lemma RegroupRight(b: seq<int>, l: seq<int>, k: seq<int>, i: seq<int>, a: seq<int>)
    ensures b + (l + k + i) + a == (b + (l + k)) + i + a
  {
  }

  lemma {:induction false} PlugRep(c: Context, t: Tree, s: Store)
    requires Rep(Plug(c, t), null, s)
    ensures Rep(t, Parent(c), s)
    ensures !c.Top? ==> Rep(Fill(c, t), Parent(c.up), s)
    decreases c
  {
    if !c.Top? { PlugRep(c.up, Fill(c, t), s); }
  }

  // Around the cut nothing has changed but the link to the new subtree.
  ghost predicate Relinked(c: Context, s: Store, r: Node?, s': Store) {
    forall n :: n in s && CountAround(c, n) > 0 ==>
      n in s' && s'[n] ==
        if c.Top? || n != c.n then s[n] else if c.InLeft? then s[n].(left := r) else s[n].(right := r)
  }

  lemma {:induction false} Replug(c: Context, t: Tree, s: Store, t': Tree, s': Store)
    requires Rep(Plug(c, t), null, s) && Rep(t', Parent(c), s') && Relinked(c, s, Root(t'), s')
    requires forall n :: n in s ==> CountAround(c, n) <= 1
    ensures Rep(Plug(c, t'), null, s')
    decreases c
  {
    if !c.Top? {
      PlugRep(c, t, s);
      Kept(Sibling(c), c.n, s, s');
      RepMake(Fill(c, t'), Parent(c.up), s');
      assert forall n :: n in s && CountAround(c.up, n) > 0 ==> CountAround(c, n) > 0 && n != c.n;
      forall n | n in s && CountAround(c.up, n) > 0 && !c.up.Top? && n == c.up.n
        ensures s[n] == if c.up.InLeft? then s[n].(left := c.n) else s[n].(right := c.n)
      {
        PlugRep(c.up, Fill(c, t), s);
      }
      Replug(c.up, Fill(c, t), s, Fill(c, t'), s');
    }
  }

  lemma {:induction false} CountOutside(t: Tree, q: Node?, s: Store, x: Node)
    requires Rep(t, q, s) && x !in s
    ensures Count(t, x) == 0
  {
    if t.Fork? {
      CountOutside(t.l, t.n, s, x);
      CountOutside(t.r, t.n, s, x);
    }
  }
}
