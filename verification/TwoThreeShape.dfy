// The shape of a 2-3 tree as a value that names the nodes carrying it, its keys in
// order, what it means that a store represents such a tree, and positions inside
// one, as a tree with a subtree cut out.
module TwoThreeShape {
  import opened TwoThreeNode

  datatype Keys = NoKey | OneKey(k: int) | TwoKeys(k1: int, k2: int) {
    function First(): seq<int> {
      match this
      case NoKey => []
      case OneKey(k) => [k]
      case TwoKeys(k1, _) => [k1]
    }

    function Second(): seq<int> {
      if TwoKeys? then [k2] else []
    }
  }

  datatype Tree = Nil | Node(n: CNode, keys: Keys, l: Tree, m: Tree, r: Tree)

  function Two(n: CNode, l: Tree, k: int, r: Tree): Tree {
    Node(n, OneKey(k), l, Nil, r)
  }

  function Three(n: CNode, l: Tree, k1: int, m: Tree, k2: int, r: Tree): Tree {
    Node(n, TwoKeys(k1, k2), l, m, r)
  }

  // A node that deletion has still to repair: its own key is gone and it has
  // at most a left child.
  function Hole(n: CNode, l: Tree): Tree {
    Node(n, NoKey, l, Nil, Nil)
  }

  predicate IsTwo(t: Tree) {
    t.Node? && t.keys.OneKey? && t.m.Nil?
  }

  predicate IsThree(t: Tree) {
    t.Node? && t.keys.TwoKeys?
  }

  predicate IsHole(t: Tree) {
    t.Node? && t.keys.NoKey? && t.m.Nil? && t.r.Nil?
  }

  function Root(t: Tree): CNode? {
    if t.Nil? then null else t.n
  }

  function One(n: CNode, x: CNode): nat {
    if n == x then 1 else 0
  }

  // How often x occurs in t.
  function Count(t: Tree, x: CNode): nat {
    match t
    case Nil => 0
    case Node(n, _, l, m, r) => One(n, x) + Count(l, x) + Count(m, x) + Count(r, x)
  }

  lemma NodeCounts(t: Tree, n: CNode)
    ensures t.Node? ==> Count(t, n) == One(t.n, n) + Count(t.l, n) + Count(t.m, n) + Count(t.r, n)
    ensures Count(Nil, n) == 0
  {
  }

  // The keys in order.
  function Inorder(t: Tree): seq<int> {
    match t
    case Nil => []
    case Node(_, keys, l, m, r) => Inorder(l) + keys.First() + Inorder(m) + keys.Second() + Inorder(r)
  }

  // The keys of t in order, ahead of rest: regrouping subtrees does not change
  // how this unfolds.
  function Ahead(t: Tree, rest: seq<int>): seq<int> {
    match t
    case Nil => rest
    case Node(_, keys, l, m, r) =>
      match keys
      case NoKey => Ahead(l, Ahead(m, Ahead(r, rest)))
      case OneKey(k) => Ahead(l, [k] + Ahead(m, Ahead(r, rest)))
      case TwoKeys(k1, k2) => Ahead(l, [k1] + Ahead(m, [k2] + Ahead(r, rest)))
  }

  lemma AheadHole(t: Tree, rest: seq<int>)
    requires IsHole(t)
    ensures Ahead(t, rest) == Ahead(t.l, rest)
  {
  }

  lemma AheadTwo(t: Tree, rest: seq<int>)
    requires IsTwo(t)
    ensures Ahead(t, rest) == Ahead(t.l, [t.keys.k] + Ahead(t.r, rest))
  {
  }

  lemma AheadThree(t: Tree, rest: seq<int>)
    requires IsThree(t)
    ensures Ahead(t, rest) == Ahead(t.l, [t.keys.k1] + Ahead(t.m, [t.keys.k2] + Ahead(t.r, rest)))
  {
  }

  lemma Associate(a: seq<int>, b: seq<int>, c: seq<int>, d: seq<int>, e: seq<int>, rest: seq<int>)
    ensures a + b + c + d + e + rest == a + (b + (c + (d + (e + rest))))
  {
  }

  lemma {:induction false} AheadInorder(t: Tree, rest: seq<int>)
    ensures Ahead(t, rest) == Inorder(t) + rest
  {
    if t.Nil? {
      assert [] + rest == rest;
    } else {
      var tail := Inorder(t.r) + rest;
      AheadInorder(t.r, rest);
      Associate(Inorder(t.l), t.keys.First(), Inorder(t.m), t.keys.Second(), Inorder(t.r), rest);
      assert t.keys.Second() == [] ==> t.keys.Second() + tail == tail;
      tail := t.keys.Second() + tail;
      AheadInorder(t.m, tail);
      tail := Inorder(t.m) + tail;
      assert t.keys.First() == [] ==> t.keys.First() + tail == tail;
      AheadInorder(t.l, t.keys.First() + tail);
    }
  }

  // A 2-3 tree of height h: two or three children, all leaves at one depth, no hole.
  ghost predicate Perfect(t: Tree, h: nat) {
    match t
    case Nil => h == 0
    case Node(_, keys, l, m, r) =>
      h > 0 && !keys.NoKey? && Perfect(l, h - 1) && Perfect(r, h - 1) &&
      if keys.TwoKeys? then Perfect(m, h - 1) else m.Nil?
  }

  // ----- Representation -----

  predicate Fits(b: Body, keys: Keys, l: Tree, m: Tree, r: Tree) {
    b.children == Children(Root(l), Root(m), Root(r)) &&
    match keys
    case NoKey => !b.bigSet
    case OneKey(k) => b.smallSet && b.small == k && !b.bigSet
    case TwoKeys(k1, k2) => b.smallSet && b.small == k1 && b.bigSet && b.big == k2
  }

  // The store holds the tree t, and every parent link of it points back; the
  // root's parent link is q.
  ghost predicate Rep(t: Tree, q: CNode?, s: Store) {
    match t
    case Nil => true
    case Node(n, keys, l, m, r) =>
      n in s && s[n].parent == q && Fits(s[n].body, keys, l, m, r) &&
      Rep(l, n, s) && Rep(m, n, s) && Rep(r, n, s)
  }

  lemma RepNode(t: Tree, q: CNode?, s: Store)
    requires Rep(t, q, s) && t.Node?
    ensures t.n in s && s[t.n].parent == q && Fits(s[t.n].body, t.keys, t.l, t.m, t.r)
    ensures Rep(t.l, t.n, s) && Rep(t.m, t.n, s) && Rep(t.r, t.n, s)
  {
  }

  // The links of a represented node stay in the store.
  lemma RepLinks(t: Tree, q: CNode?, s: Store)
    requires Rep(t, q, s) && t.Node?
    ensures t.n in s && s[t.n].body.children == Children(Root(t.l), Root(t.m), Root(t.r))
    ensures IsIn(Root(t.l), s.Keys) && IsIn(Root(t.m), s.Keys) && IsIn(Root(t.r), s.Keys)
  {
  }

  lemma RepNil(q: CNode?, s: Store)
    ensures Rep(Nil, q, s)
  {
  }

  lemma RepMake(t: Tree, q: CNode?, s: Store)
    requires t.Node? && t.n in s && s[t.n].parent == q && Fits(s[t.n].body, t.keys, t.l, t.m, t.r)
    requires Rep(t.l, t.n, s) && Rep(t.m, t.n, s) && Rep(t.r, t.n, s)
    ensures Rep(t, q, s)
  {
  }

  lemma {:induction false} Kept(t: Tree, q: CNode?, s: Store, s': Store)
    requires Rep(t, q, s)
    requires forall n :: n in s && Count(t, n) > 0 ==> n in s' && s'[n] == s[n]
    ensures Rep(t, q, s')
  {
    if !t.Nil? {
      assert Count(t, t.n) > 0;
      Kept(t.l, t.n, s, s'); Kept(t.m, t.n, s, s'); Kept(t.r, t.n, s, s');
    }
  }

  // No node of S occurs twice.
  ghost predicate Distinct(t: Tree, S: set<CNode>) {
    forall x :: x in S ==> Count(t, x) <= 1
  }

  predicate Within(t: Tree, S: set<CNode>) {
    t.Node? ==> t.n in S && Within(t.l, S) && Within(t.m, S) && Within(t.r, S)
  }

  // The nodes of t are those of S, each once.
  ghost predicate Exact(t: Tree, S: set<CNode>) {
    Within(t, S) && forall x :: x in S ==> Count(t, x) == 1
  }

  lemma {:induction false} RepWithin(t: Tree, q: CNode?, s: Store)
    requires Rep(t, q, s)
    ensures Within(t, s.Keys)
  {
    if t.Node? {
      RepWithin(t.l, t.n, s);
      RepWithin(t.m, t.n, s);
      RepWithin(t.r, t.n, s);
    }
  }

  // s' holds t' where s held t and is s elsewhere; the nodes of t that t' does
  // not use have been deleted.
  ghost predicate Replaced(t: Tree, q: CNode?, s: Store, t': Tree, s': Store) {
    Rep(t', q, s') && Root(t') == Root(t) && s'.Keys <= s.Keys &&
    forall n :: n in s ==>
      (n in s' <==> (Count(t, n) == 0 || Count(t', n) > 0)) &&
      (Count(t, n) == 0 ==> s'[n] == s[n]) &&
      Count(t', n) <= Count(t, n)
  }

  // ----- Positions -----

  // A tree with one subtree cut out, seen from the cut: n is the parent node.
  datatype Context =
    | Top
    | InLeft(up: Context, n: CNode, keys: Keys, m: Tree, r: Tree)
    | InMiddle(up: Context, n: CNode, keys: Keys, l: Tree, r: Tree)
    | InRight(up: Context, n: CNode, keys: Keys, l: Tree, m: Tree)

  // The parent's subtree, with t at the cut.
  function Fill(c: Context, t: Tree): Tree
    requires !c.Top?
  {
    match c
    case InLeft(_, n, keys, m, r) => Node(n, keys, t, m, r)
    case InMiddle(_, n, keys, l, r) => Node(n, keys, l, t, r)
    case InRight(_, n, keys, l, m) => Node(n, keys, l, m, t)
  }

  // The whole tree, with t at the cut.
  function Plug(c: Context, t: Tree): Tree {
    if c.Top? then t else Plug(c.up, Fill(c, t))
  }

  function Parent(c: Context): CNode? {
    if c.Top? then null else c.n
  }

  function Depth(c: Context): nat {
    if c.Top? then 0 else 1 + Depth(c.up)
  }

  function CountAround(c: Context, x: CNode): nat {
    if c.Top? then 0 else Count(Fill(c, Nil), x) + CountAround(c.up, x)
  }

  // The keys of the parent's subtree to the left and to the right of the cut.
  function Left(c: Context): seq<int> {
    match c
    case Top => []
    case InLeft(_, _, _, _, _) => []
    case InMiddle(_, _, keys, l, _) => Inorder(l) + keys.First()
    case InRight(_, _, keys, l, m) => Inorder(l) + keys.First() + Inorder(m) + keys.Second()
  }

  function Right(c: Context): seq<int> {
    match c
    case Top => []
    case InLeft(_, _, keys, m, r) => keys.First() + Inorder(m) + keys.Second() + Inorder(r)
    case InMiddle(_, _, keys, _, r) => keys.Second() + Inorder(r)
    case InRight(_, _, _, _, _) => []
  }

  // The keys of the whole tree before and after the cut.
  function Before(c: Context): seq<int> {
    if c.Top? then [] else Before(c.up) + Left(c)
  }

  function After(c: Context): seq<int> {
    if c.Top? then [] else Right(c) + After(c.up)
  }

  lemma FillInorder(c: Context, t: Tree)
    requires !c.Top?
    ensures Inorder(Fill(c, t)) == Left(c) + Inorder(t) + Right(c)
  {
  }

  lemma Regroup(a: seq<int>, b: seq<int>, c: seq<int>, d: seq<int>, e: seq<int>)
    ensures a + (b + c + d) + e == (a + b) + c + (d + e)
  {
  }

  lemma {:induction false} PlugInorder(c: Context, t: Tree)
    ensures Inorder(Plug(c, t)) == Before(c) + Inorder(t) + After(c)
  {
    if !c.Top? {
      PlugInorder(c.up, Fill(c, t));
      FillInorder(c, t);
      Regroup(Before(c.up), Left(c), Inorder(t), Right(c), After(c.up));
    }
  }

  lemma FillCount(c: Context, t: Tree, x: CNode)
    requires !c.Top?
    ensures Count(Fill(c, t), x) == Count(Fill(c, Nil), x) + Count(t, x)
  {
  }

  lemma {:induction false} PlugCount(c: Context, t: Tree, x: CNode)
    ensures Count(Plug(c, t), x) == CountAround(c, x) + Count(t, x)
  {
    if !c.Top? {
      PlugCount(c.up, Fill(c, t), x);
      FillCount(c, t, x);
    }
  }

  // Everything beside the cut is perfect, if a tree of height h is put there.
  ghost predicate PerfectAround(c: Context, h: nat) {
    c.Top? || (PerfectBeside(c, h) && PerfectAround(c.up, h + 1))
  }

  ghost predicate PerfectBeside(c: Context, h: nat)
    requires !c.Top?
  {
    match c
    case InLeft(_, _, keys, m, r) =>
      !keys.NoKey? && Perfect(r, h) && if keys.TwoKeys? then Perfect(m, h) else m.Nil?
    case InMiddle(_, _, keys, l, r) =>
      keys.TwoKeys? && Perfect(l, h) && Perfect(r, h)
    case InRight(_, _, keys, l, m) =>
      !keys.NoKey? && Perfect(l, h) && if keys.TwoKeys? then Perfect(m, h) else m.Nil?
  }

  // A position in a perfect tree has a height of its own.
  lemma {:induction false} PlugPerfect(c: Context, t: Tree, h: nat)
    ensures PerfectAround(c, h) && Perfect(t, h) ==> Perfect(Plug(c, t), h + Depth(c))
    decreases c
  {
    if !c.Top? {
      PlugPerfect(c.up, Fill(c, t), h + 1);
    }
  }

  // A node that is there at all is at a node position, not at a missing middle child.
  lemma {:induction false} PlugHeight(c: Context, t: Tree, h: nat)
    requires Perfect(Plug(c, t), h) && !t.Nil?
    ensures Depth(c) <= h && Perfect(t, h - Depth(c)) && PerfectAround(c, h - Depth(c))
    decreases c
  {
    if !c.Top? {
      PlugHeight(c.up, Fill(c, t), h);
    }
  }

  lemma {:induction false} PlugRep(c: Context, t: Tree, s: Store)
    requires Rep(Plug(c, t), null, s)
    ensures Rep(t, Parent(c), s)
    ensures !c.Top? ==> Rep(Fill(c, t), Parent(c.up), s)
  {
    if !c.Top? {
      PlugRep(c.up, Fill(c, t), s);
    }
  }

  // Replacing the tree at the cut replaces it in the whole.
  lemma {:induction false} Replug(c: Context, t: Tree, s: Store, t': Tree, s': Store)
    requires Rep(Plug(c, t), null, s) && Rep(t', Parent(c), s') && Root(t') == Root(t)
    requires forall n :: n in s && CountAround(c, n) > 0 ==> n in s' && s'[n] == s[n]
    ensures Rep(Plug(c, t'), null, s')
    decreases c
  {
    if !c.Top? {
      PlugRep(c, t, s);
      Refill(c, t, s, t', s');
      Replug(c.up, Fill(c, t), s, Fill(c, t'), s');
    }
  }

  lemma Refill(c: Context, t: Tree, s: Store, t': Tree, s': Store)
    requires !c.Top? && Rep(Fill(c, t), Parent(c.up), s) && Rep(t', c.n, s') && Root(t') == Root(t)
    requires forall n :: n in s && CountAround(c, n) > 0 ==> n in s' && s'[n] == s[n]
    ensures Rep(Fill(c, t'), Parent(c.up), s')
  {
    assert Count(Fill(c, Nil), c.n) > 0;
    match c
    case InLeft(_, n, _, m, r) => Kept(m, n, s, s'); Kept(r, n, s, s');
    case InMiddle(_, n, _, l, r) => Kept(l, n, s, s'); Kept(r, n, s, s');
    case InRight(_, n, _, l, m) => Kept(l, n, s, s'); Kept(m, n, s, s');
  }
}
