// The rotations around the root (CTree::globalRotation, cases 9 to 14). They
// move keys only: between the rightmost node of one child of the root and the
// leftmost node of the next, through a key of the root.
module TwoThreeGlobal {
  import opened TwoThreeNode
  import opened TwoThreeShape
  import opened TwoThreeRotation

  // The subtrees getMinNode and getMaxNode stop at.
  function Leftmost(t: Tree): (r: Tree)
    requires t.Node?
    ensures r.Node? && r.l.Nil?
  {
    if t.l.Nil? then t else Leftmost(t.l)
  }

  function Rightmost(t: Tree): (r: Tree)
    requires t.Node?
    ensures r.Node? && r.r.Nil?
  {
    if t.r.Nil? then t else Rightmost(t.r)
  }

  function WithLeftmost(t: Tree, keys: Keys): Tree
    requires t.Node?
  {
    if t.l.Nil? then Node(t.n, keys, t.l, t.m, t.r) else Node(t.n, t.keys, WithLeftmost(t.l, keys), t.m, t.r)
  }

  function WithRightmost(t: Tree, keys: Keys): Tree
    requires t.Node?
  {
    if t.r.Nil? then Node(t.n, keys, t.l, t.m, t.r) else Node(t.n, t.keys, t.l, t.m, WithRightmost(t.r, keys))
  }

  // ----- Counts and representation -----

  lemma {:induction false} OutermostCounts(t: Tree, keys: Keys, n: CNode)
    requires t.Node?
    ensures Count(WithLeftmost(t, keys), n) == Count(t, n) && Count(WithRightmost(t, keys), n) == Count(t, n)
    ensures Count(t, Leftmost(t).n) > 0 && Count(t, Rightmost(t).n) > 0
  {
    if t.l.Node? { OutermostCounts(t.l, keys, n); }
    if t.r.Node? { OutermostCounts(t.r, keys, n); }
  }

  // n's keys in s' are keys, and nothing else of t changed.
  ghost predicate Rekeyed(t: Tree, n: CNode, keys: Keys, s: Store, s': Store)
  {
    n in s && n in s' && s'[n].parent == s[n].parent && s'[n].body.children == s[n].body.children &&
    (match keys
     case NoKey => !s'[n].body.bigSet
     case OneKey(k) => s'[n].body.smallSet && s'[n].body.small == k && !s'[n].body.bigSet
     case TwoKeys(k1, k2) =>
       s'[n].body.smallSet && s'[n].body.small == k1 && s'[n].body.bigSet && s'[n].body.big == k2) &&
    forall x :: x in s && Count(t, x) > 0 && x != n ==> x in s' && s'[x] == s[x]
  }

  lemma {:induction false} LeftmostRep(t: Tree, keys: Keys, q: CNode?, s: Store, s': Store)
    requires t.Node? && Rep(t, q, s) && Distinct(t, s.Keys)
    requires Rekeyed(t, Leftmost(t).n, keys, s, s')
    ensures Rep(WithLeftmost(t, keys), q, s')
  {
    var d := Leftmost(t).n;
    OutermostCounts(t, keys, d);
    assert Count(t, d) <= 1 && Count(t, t.n) <= 1;
    if t.l.Nil? {
      Kept(t.m, t.n, s, s');
      Kept(t.r, t.n, s, s');
    } else {
      OutermostCounts(t.l, keys, d);
      forall x | x in s ensures Count(t.l, x) <= Count(t, x) <= 1 {}
      LeftmostRep(t.l, keys, t.n, s, s');
      Kept(t.m, t.n, s, s');
      Kept(t.r, t.n, s, s');
    }
  }

  lemma {:induction false} RightmostRep(t: Tree, keys: Keys, q: CNode?, s: Store, s': Store)
    requires t.Node? && Rep(t, q, s) && Distinct(t, s.Keys)
    requires Rekeyed(t, Rightmost(t).n, keys, s, s')
    ensures Rep(WithRightmost(t, keys), q, s')
  {
    var d := Rightmost(t).n;
    OutermostCounts(t, keys, d);
    assert Count(t, d) <= 1 && Count(t, t.n) <= 1;
    if t.r.Nil? {
      Kept(t.m, t.n, s, s');
      Kept(t.l, t.n, s, s');
    } else {
      OutermostCounts(t.r, keys, d);
      forall x | x in s ensures Count(t.r, x) <= Count(t, x) <= 1 {}
      RightmostRep(t.r, keys, t.n, s, s');
      Kept(t.m, t.n, s, s');
      Kept(t.l, t.n, s, s');
    }
  }

  // ----- The assignments of the six cases -----

  function KeyToLeftBySmall(s: Store, p: CNode, h: CNode, d: CNode): Store
    requires p in s && h in s && d in s
  {
    var s1 := PutSmallKey(s, h, s[p].body.small);
    var s2 := PutSmallKey(s1, p, s1[d].body.small);
    var s3 := PutSmallKey(s2, d, s2[d].body.big);
    DropBigKey(s3, d)
  }

  // Cases 9 and 14.
  method MoveKeyLeftBySmall(p: CNode, h: CNode, d: CNode, ghost S: set<CNode>)
    requires p in S && h in S && d in S
    modifies S
    ensures At(S) == KeyToLeftBySmall(old(At(S)), p, h, d)
  {
    h.SetSmallKey(p.smallKey, S);
    p.SetSmallKey(d.smallKey, S);
    d.SetSmallKey(d.bigKey, S);
    d.UnsetBigKey(S);
  }

  function KeyToRightBySmall(s: Store, p: CNode, h: CNode, d: CNode): Store
    requires p in s && h in s && d in s
  {
    var s1 := PutSmallKey(s, h, s[p].body.small);
    var s2 := PutSmallKey(s1, p, s1[d].body.big);
    DropBigKey(s2, d)
  }

  // Cases 10 and 13.
  method MoveKeyRightBySmall(p: CNode, h: CNode, d: CNode, ghost S: set<CNode>)
    requires p in S && h in S && d in S
    modifies S
    ensures At(S) == KeyToRightBySmall(old(At(S)), p, h, d)
  {
    h.SetSmallKey(p.smallKey, S);
    p.SetSmallKey(d.bigKey, S);
    d.UnsetBigKey(S);
  }

  function KeyToLeftByBig(s: Store, p: CNode, h: CNode, d: CNode): Store
    requires p in s && h in s && d in s
  {
    var s1 := PutSmallKey(s, h, s[p].body.big);
    var s2 := PutBigKey(s1, p, s1[d].body.small);
    var s3 := PutSmallKey(s2, d, s2[d].body.big);
    DropBigKey(s3, d)
  }

  // Case 11.
  method MoveKeyLeftByBig(p: CNode, h: CNode, d: CNode, ghost S: set<CNode>)
    requires p in S && h in S && d in S
    modifies S
    ensures At(S) == KeyToLeftByBig(old(At(S)), p, h, d)
  {
    h.SetSmallKey(p.bigKey, S);
    p.SetBigKey(d.smallKey, S);
    d.SetSmallKey(d.bigKey, S);
    d.UnsetBigKey(S);
  }

  function KeyToRightByBig(s: Store, p: CNode, h: CNode, d: CNode): Store
    requires p in s && h in s && d in s
  {
    var s1 := PutSmallKey(s, h, s[p].body.big);
    var s2 := PutBigKey(s1, p, s1[d].body.big);
    DropBigKey(s2, d)
  }

  // Case 12.
  method MoveKeyRightByBig(p: CNode, h: CNode, d: CNode, ghost S: set<CNode>)
    requires p in S && h in S && d in S
    modifies S
    ensures At(S) == KeyToRightByBig(old(At(S)), p, h, d)
  {
    h.SetSmallKey(p.bigKey, S);
    p.SetBigKey(d.bigKey, S);
    d.UnsetBigKey(S);
  }

  // What all do besides the parent's key.
  ghost predicate KeyMoved(s: Store, s': Store, p: CNode, h: CNode, d: CNode, sep: int, kept: int)
    requires p in s && h in s && d in s
  {
    s'.Keys == s.Keys && s'[p].parent == s[p].parent &&
    s'[h] == s[h].(body := WithSmall(s[h].body, sep)) &&
    s'[d] == s[d].(body := s[d].body.(small := kept, bigSet := false)) &&
    forall x :: x in s && x !in {p, h, d} ==> s'[x] == s[x]
  }

  lemma KeyMovedKeeps(s: Store, s': Store, p: CNode, h: CNode, d: CNode)
    requires p in s && h in s && d in s
    requires exists sep, kept :: KeyMoved(s, s', p, h, d, sep, kept)
    ensures s'.Keys == s.Keys && s'[p].parent == s[p].parent
  {
  }

  lemma KeysMove(s: Store, p: CNode, h: CNode, d: CNode)
    requires p in s && h in s && d in s && p != h && p != d && h != d && s[d].body.smallSet
    ensures var b, db := s[p].body, s[d].body;
      KeyMoved(s, KeyToLeftBySmall(s, p, h, d), p, h, d, b.small, db.big) &&
      KeyToLeftBySmall(s, p, h, d)[p].body == WithSmall(b, db.small) &&
      KeyMoved(s, KeyToRightBySmall(s, p, h, d), p, h, d, b.small, db.small) &&
      KeyToRightBySmall(s, p, h, d)[p].body == WithSmall(b, db.big) &&
      KeyMoved(s, KeyToLeftByBig(s, p, h, d), p, h, d, b.big, db.big) &&
      KeyToLeftByBig(s, p, h, d)[p].body == WithBig(b, db.small) &&
      KeyMoved(s, KeyToRightByBig(s, p, h, d), p, h, d, b.big, db.small) &&
      KeyToRightByBig(s, p, h, d)[p].body == WithBig(b, db.big)
  {
  }

  // ----- The trees: x and y are neighbouring subtrees of the root p, g the third -----

  ghost predicate RootRegion(t: Tree, g: Tree, p: CNode, x: Tree, y: Tree, s: Store) {
    p in s && Distinct(t, s.Keys) && x.Node? && y.Node? && Rep(x, p, s) && Rep(y, p, s) && Rep(g, p, s) &&
    forall n :: n in s ==> Count(t, n) == One(p, n) + Count(x, n) + Count(y, n) + Count(g, n)
  }

  lemma RootRegionApart(t: Tree, g: Tree, p: CNode, x: Tree, y: Tree, s: Store)
    requires RootRegion(t, g, p, x, y, s)
    ensures var h, d := Rightmost(x).n, Leftmost(y).n;
      h in s && d in s && p != h && p != d && h != d &&
      Count(x, p) == Count(x, d) == 0 && Count(y, p) == Count(y, h) == 0 && Count(g, p) == Count(g, h) == Count(g, d) == 0
  {
    var h, d := Rightmost(x).n, Leftmost(y).n;
    OutermostCounts(x, NoKey, h);
    OutermostCounts(y, NoKey, d);
    CountedInStore(x, p, s, h);
    CountedInStore(y, p, s, d);
    assert Count(t, p) <= 1 && Count(t, h) <= 1 && Count(t, d) <= 1;
  }

  lemma {:induction false} CountedInStore(t: Tree, q: CNode?, s: Store, n: CNode)
    requires Rep(t, q, s) && Count(t, n) > 0
    ensures n in s
  {
    if t.n != n {
      if Count(t.l, n) > 0 { CountedInStore(t.l, t.n, s, n); }
      else if Count(t.m, n) > 0 { CountedInStore(t.m, t.n, s, n); }
      else { CountedInStore(t.r, t.n, s, n); }
    }
  }

  lemma KeyMovedLeftTrees(t: Tree, g: Tree, p: CNode, x: Tree, y: Tree, s: Store, s': Store, sep: int)
    requires RootRegion(t, g, p, x, y, s) && IsThree(Leftmost(y))
    requires var h, d := Rightmost(x).n, Leftmost(y).n;
      h in s && d in s && !s[h].body.bigSet && KeyMoved(s, s', p, h, d, sep, Leftmost(y).keys.k2)
    requires s[Leftmost(y).n].body.smallSet
    ensures Rep(WithRightmost(x, OneKey(sep)), p, s') && Rep(WithLeftmost(y, OneKey(Leftmost(y).keys.k2)), p, s')
    ensures Rep(g, p, s') && forall n :: n in s && Count(t, n) == 0 ==> s'[n] == s[n]
  {
    hide Count;
    RootRegionApart(t, g, p, x, y, s);
    RightmostRep(x, OneKey(sep), p, s, s');
    LeftmostRep(y, OneKey(Leftmost(y).keys.k2), p, s, s');
    Kept(g, p, s, s');
    OutermostCounts(x, NoKey, p);
    OutermostCounts(y, NoKey, p);
    assert Count(t, p) > 0 && Count(t, Rightmost(x).n) > 0 && Count(t, Leftmost(y).n) > 0;
  }

  lemma KeyMovedRightTrees(t: Tree, g: Tree, p: CNode, x: Tree, y: Tree, s: Store, s': Store, sep: int)
    requires RootRegion(t, g, p, x, y, s) && IsThree(Rightmost(x))
    requires var h, d := Leftmost(y).n, Rightmost(x).n;
      h in s && d in s && !s[h].body.bigSet && KeyMoved(s, s', p, h, d, sep, Rightmost(x).keys.k1)
    requires s[Rightmost(x).n].body.smallSet
    ensures Rep(WithRightmost(x, OneKey(Rightmost(x).keys.k1)), p, s') && Rep(WithLeftmost(y, OneKey(sep)), p, s')
    ensures Rep(g, p, s') && forall n :: n in s && Count(t, n) == 0 ==> s'[n] == s[n]
  {
    hide Count;
    RootRegionApart(t, g, p, x, y, s);
    RightmostRep(x, OneKey(Rightmost(x).keys.k1), p, s, s');
    LeftmostRep(y, OneKey(sep), p, s, s');
    Kept(g, p, s, s');
    OutermostCounts(x, NoKey, p);
    OutermostCounts(y, NoKey, p);
    assert Count(t, p) > 0 && Count(t, Rightmost(x).n) > 0 && Count(t, Leftmost(y).n) > 0;
  }

  // ----- Keys in order -----

  lemma {:induction false} LeftmostGives(t: Tree, rest: seq<int>)
    requires t.Node? && IsThree(Leftmost(t)) && Leftmost(t).m.Nil?
    ensures Ahead(t, rest) == [Leftmost(t).keys.k1] + Ahead(WithLeftmost(t, OneKey(Leftmost(t).keys.k2)), rest)
  {
    if t.l.Node? {
      LeftmostGives(t.l, match t.keys
        case NoKey => Ahead(t.m, Ahead(t.r, rest))
        case OneKey(k) => [k] + Ahead(t.m, Ahead(t.r, rest))
        case TwoKeys(k1, k2) => [k1] + Ahead(t.m, [k2] + Ahead(t.r, rest)));
    }
  }

  lemma {:induction false} LeftmostTakes(t: Tree, k: int, rest: seq<int>)
    requires t.Node? && IsHole(Leftmost(t))
    ensures Ahead(WithLeftmost(t, OneKey(k)), rest) == [k] + Ahead(t, rest)
  {
    if t.l.Node? {
      LeftmostTakes(t.l, k, match t.keys
        case NoKey => Ahead(t.m, Ahead(t.r, rest))
        case OneKey(k) => [k] + Ahead(t.m, Ahead(t.r, rest))
        case TwoKeys(k1, k2) => [k1] + Ahead(t.m, [k2] + Ahead(t.r, rest)));
    }
  }

  lemma {:induction false} RightmostGives(t: Tree, rest: seq<int>)
    requires t.Node? && IsThree(Rightmost(t))
    ensures Ahead(t, rest) == Ahead(WithRightmost(t, OneKey(Rightmost(t).keys.k1)), [Rightmost(t).keys.k2] + rest)
  {
    if t.r.Node? { RightmostGives(t.r, rest); }
  }

  lemma {:induction false} RightmostTakes(t: Tree, k: int, rest: seq<int>)
    requires t.Node? && IsHole(Rightmost(t))
    ensures Ahead(WithRightmost(t, OneKey(k)), rest) == Ahead(t, [k] + rest)
  {
    if t.r.Node? { RightmostTakes(t.r, k, rest); }
  }

  // Between neighbours x and y with separating key sep.
  lemma KeyLeftAhead(x: Tree, sep: int, y: Tree, rest: seq<int>)
    requires x.Node? && IsHole(Rightmost(x)) && y.Node? && IsThree(Leftmost(y)) && Leftmost(y).m.Nil?
    ensures var d := Leftmost(y).keys;
      Ahead(x, [sep] + Ahead(y, rest)) ==
      Ahead(WithRightmost(x, OneKey(sep)), [d.k1] + Ahead(WithLeftmost(y, OneKey(d.k2)), rest))
  {
    LeftmostGives(y, rest);
    RightmostTakes(x, sep, Ahead(y, rest));
  }

  lemma KeyRightAhead(x: Tree, sep: int, y: Tree, rest: seq<int>)
    requires x.Node? && IsThree(Rightmost(x)) && y.Node? && IsHole(Leftmost(y))
    ensures var d := Rightmost(x).keys;
      Ahead(x, [sep] + Ahead(y, rest)) ==
      Ahead(WithRightmost(x, OneKey(d.k1)), [d.k2] + Ahead(WithLeftmost(y, OneKey(sep)), rest))
  {
    LeftmostTakes(y, sep, rest);
    RightmostGives(x, [sep] + Ahead(y, rest));
  }

  lemma {:induction false} LeftmostKeys(t: Tree, q: CNode?, s: Store)
    requires t.Node? && Rep(t, q, s)
    ensures var d := Leftmost(t); d.n in s && Fits(s[d.n].body, d.keys, d.l, d.m, d.r)
  {
    if t.l.Node? { LeftmostKeys(t.l, t.n, s); }
  }

  lemma {:induction false} RightmostKeys(t: Tree, q: CNode?, s: Store)
    requires t.Node? && Rep(t, q, s)
    ensures var d := Rightmost(t); d.n in s && Fits(s[d.n].body, d.keys, d.l, d.m, d.r)
  {
    if t.r.Node? { RightmostKeys(t.r, t.n, s); }
  }

  // ----- The six cases: the guard, the tree that results, and the proof -----

  predicate Case9(t: Tree, n: CNode) {
    IsThree(t) && t.l.Node? && t.m.Node? && n == Rightmost(t.l).n && IsThree(Leftmost(t.m))
  }

  function Rotated9(t: Tree, n: CNode): Tree
    requires Case9(t, n)
  {
    var d := Leftmost(t.m).keys;
    Three(t.n, WithRightmost(t.l, OneKey(t.keys.k1)), d.k1, WithLeftmost(t.m, OneKey(d.k2)), t.keys.k2, t.r)
  }

  predicate Case10(t: Tree, n: CNode) {
    IsThree(t) && t.l.Node? && t.m.Node? && n == Leftmost(t.m).n && IsThree(Rightmost(t.l))
  }

  function Rotated10(t: Tree, n: CNode): Tree
    requires Case10(t, n)
  {
    var d := Rightmost(t.l).keys;
    Three(t.n, WithRightmost(t.l, OneKey(d.k1)), d.k2, WithLeftmost(t.m, OneKey(t.keys.k1)), t.keys.k2, t.r)
  }

  predicate Case11(t: Tree, n: CNode) {
    IsThree(t) && t.m.Node? && t.r.Node? && n == Rightmost(t.m).n && IsThree(Leftmost(t.r))
  }

  function Rotated11(t: Tree, n: CNode): Tree
    requires Case11(t, n)
  {
    var d := Leftmost(t.r).keys;
    Three(t.n, t.l, t.keys.k1, WithRightmost(t.m, OneKey(t.keys.k2)), d.k1, WithLeftmost(t.r, OneKey(d.k2)))
  }

  predicate Case12(t: Tree, n: CNode) {
    IsThree(t) && t.m.Node? && t.r.Node? && n == Leftmost(t.r).n && IsThree(Rightmost(t.m))
  }

  function Rotated12(t: Tree, n: CNode): Tree
    requires Case12(t, n)
  {
    var d := Rightmost(t.m).keys;
    Three(t.n, t.l, t.keys.k1, WithRightmost(t.m, OneKey(d.k1)), d.k2, WithLeftmost(t.r, OneKey(t.keys.k2)))
  }

  predicate Case13(t: Tree, n: CNode) {
    IsTwo(t) && t.l.Node? && t.r.Node? && n == Leftmost(t.r).n && IsThree(Rightmost(t.l))
  }

  function Rotated13(t: Tree, n: CNode): Tree
    requires Case13(t, n)
  {
    var d := Rightmost(t.l).keys;
    Two(t.n, WithRightmost(t.l, OneKey(d.k1)), d.k2, WithLeftmost(t.r, OneKey(t.keys.k)))
  }

  predicate Case14(t: Tree, n: CNode) {
    IsTwo(t) && t.l.Node? && t.r.Node? && n == Rightmost(t.l).n && IsThree(Leftmost(t.r))
  }

  function Rotated14(t: Tree, n: CNode): Tree
    requires Case14(t, n)
  {
    var d := Leftmost(t.r).keys;
    Two(t.n, WithRightmost(t.l, OneKey(t.keys.k)), d.k1, WithLeftmost(t.r, OneKey(d.k2)))
  }

  // The source tries cases 9 to 12 at a three node and 13 and 14 at a two node, in order.
  predicate CanRotateGlobally(t: Tree, n: CNode) {
    Case9(t, n) || Case10(t, n) || Case11(t, n) || Case12(t, n) || Case13(t, n) || Case14(t, n)
  }

  function GloballyRotated(t: Tree, n: CNode): Tree
    requires CanRotateGlobally(t, n)
  {
    if Case9(t, n) then Rotated9(t, n)
    else if Case10(t, n) then Rotated10(t, n)
    else if Case11(t, n) then Rotated11(t, n)
    else if Case12(t, n) then Rotated12(t, n)
    else if Case13(t, n) then Rotated13(t, n)
    else Rotated14(t, n)
  }

  lemma RootReplaced(t: Tree, s: Store, t': Tree, s': Store)
    requires t.Node? && t'.Node? && t.n == t'.n && s'.Keys == s.Keys && t.n in s
    requires s'[t.n].parent == null && Fits(s'[t.n].body, t'.keys, t'.l, t'.m, t'.r)
    requires Rep(t'.l, t.n, s') && Rep(t'.m, t.n, s') && Rep(t'.r, t.n, s')
    requires forall n :: n in s ==>
      Count(t'.l, n) == Count(t.l, n) && Count(t'.m, n) == Count(t.m, n) && Count(t'.r, n) == Count(t.r, n)
    requires forall n :: n in s && Count(t, n) == 0 ==> s'[n] == s[n]
    ensures Replaced(t, null, s, t', s')
  {
  }

  lemma Case9Holds(t: Tree, n: CNode, s: Store)
    requires Case9(t, n) && Rep(t, null, s) && Distinct(t, s.Keys) && t.n in s && n in s && !s[n].body.bigSet
    ensures Leftmost(t.m).n in s
    ensures Replaced(t, null, s, Rotated9(t, n), KeyToLeftBySmall(s, t.n, n, Leftmost(t.m).n))
  {
    hide KeyToLeftBySmall, KeyMoved, Count, Rep, Replaced;
    var p, d := t.n, Leftmost(t.m);
    RepNode(t, null, s);
    RepNil(p, s);
    forall v | v in s
      ensures Count(t, v) == One(p, v) + Count(t.l, v) + Count(t.m, v) + Count(t.r, v)
      ensures Count(WithRightmost(t.l, OneKey(t.keys.k1)), v) == Count(t.l, v)
      ensures Count(WithLeftmost(t.m, OneKey(d.keys.k2)), v) == Count(t.m, v)
    {
      NodeCounts(t, v);
      OutermostCounts(t.l, OneKey(t.keys.k1), v);
      OutermostCounts(t.m, OneKey(d.keys.k2), v);
    }
    RootRegionApart(t, t.r, p, t.l, t.m, s);
    LeftmostKeys(t.m, p, s);
    KeysMove(s, p, n, d.n);
    var s' := KeyToLeftBySmall(s, p, n, d.n);
    KeyMovedLeftTrees(t, t.r, p, t.l, t.m, s, s', t.keys.k1);
    KeyMovedKeeps(s, s', p, n, d.n);
    RepNil(p, s');
    RootReplaced(t, s, Rotated9(t, n), s');
  }

  lemma Case10Holds(t: Tree, n: CNode, s: Store)
    requires Case10(t, n) && Rep(t, null, s) && Distinct(t, s.Keys) && t.n in s && n in s && !s[n].body.bigSet
    ensures Rightmost(t.l).n in s
    ensures Replaced(t, null, s, Rotated10(t, n), KeyToRightBySmall(s, t.n, n, Rightmost(t.l).n))
  {
    hide KeyToRightBySmall, KeyMoved, Count, Rep, Replaced;
    var p, d := t.n, Rightmost(t.l);
    RepNode(t, null, s);
    RepNil(p, s);
    forall v | v in s
      ensures Count(t, v) == One(p, v) + Count(t.l, v) + Count(t.m, v) + Count(t.r, v)
      ensures Count(WithRightmost(t.l, OneKey(d.keys.k1)), v) == Count(t.l, v)
      ensures Count(WithLeftmost(t.m, OneKey(t.keys.k1)), v) == Count(t.m, v)
    {
      NodeCounts(t, v);
      OutermostCounts(t.l, OneKey(d.keys.k1), v);
      OutermostCounts(t.m, OneKey(t.keys.k1), v);
    }
    RootRegionApart(t, t.r, p, t.l, t.m, s);
    RightmostKeys(t.l, p, s);
    KeysMove(s, p, n, d.n);
    var s' := KeyToRightBySmall(s, p, n, d.n);
    KeyMovedRightTrees(t, t.r, p, t.l, t.m, s, s', t.keys.k1);
    KeyMovedKeeps(s, s', p, n, d.n);
    RepNil(p, s');
    RootReplaced(t, s, Rotated10(t, n), s');
  }

  lemma Case11Holds(t: Tree, n: CNode, s: Store)
    requires Case11(t, n) && Rep(t, null, s) && Distinct(t, s.Keys) && t.n in s && n in s && !s[n].body.bigSet
    ensures Leftmost(t.r).n in s
    ensures Replaced(t, null, s, Rotated11(t, n), KeyToLeftByBig(s, t.n, n, Leftmost(t.r).n))
  {
    hide KeyToLeftByBig, KeyMoved, Count, Rep, Replaced;
    var p, d := t.n, Leftmost(t.r);
    RepNode(t, null, s);
    RepNil(p, s);
    forall v | v in s
      ensures Count(t, v) == One(p, v) + Count(t.m, v) + Count(t.r, v) + Count(t.l, v)
      ensures Count(WithRightmost(t.m, OneKey(t.keys.k2)), v) == Count(t.m, v)
      ensures Count(WithLeftmost(t.r, OneKey(d.keys.k2)), v) == Count(t.r, v)
    {
      NodeCounts(t, v);
      OutermostCounts(t.m, OneKey(t.keys.k2), v);
      OutermostCounts(t.r, OneKey(d.keys.k2), v);
    }
    RootRegionApart(t, t.l, p, t.m, t.r, s);
    LeftmostKeys(t.r, p, s);
    KeysMove(s, p, n, d.n);
    var s' := KeyToLeftByBig(s, p, n, d.n);
    KeyMovedLeftTrees(t, t.l, p, t.m, t.r, s, s', t.keys.k2);
    KeyMovedKeeps(s, s', p, n, d.n);
    RepNil(p, s');
    RootReplaced(t, s, Rotated11(t, n), s');
  }

  lemma Case12Holds(t: Tree, n: CNode, s: Store)
    requires Case12(t, n) && Rep(t, null, s) && Distinct(t, s.Keys) && t.n in s && n in s && !s[n].body.bigSet
    ensures Rightmost(t.m).n in s
    ensures Replaced(t, null, s, Rotated12(t, n), KeyToRightByBig(s, t.n, n, Rightmost(t.m).n))
  {
    hide KeyToRightByBig, KeyMoved, Count, Rep, Replaced;
    var p, d := t.n, Rightmost(t.m);
    RepNode(t, null, s);
    RepNil(p, s);
    forall v | v in s
      ensures Count(t, v) == One(p, v) + Count(t.m, v) + Count(t.r, v) + Count(t.l, v)
      ensures Count(WithRightmost(t.m, OneKey(d.keys.k1)), v) == Count(t.m, v)
      ensures Count(WithLeftmost(t.r, OneKey(t.keys.k2)), v) == Count(t.r, v)
    {
      NodeCounts(t, v);
      OutermostCounts(t.m, OneKey(d.keys.k1), v);
      OutermostCounts(t.r, OneKey(t.keys.k2), v);
    }
    RootRegionApart(t, t.l, p, t.m, t.r, s);
    RightmostKeys(t.m, p, s);
    KeysMove(s, p, n, d.n);
    var s' := KeyToRightByBig(s, p, n, d.n);
    KeyMovedRightTrees(t, t.l, p, t.m, t.r, s, s', t.keys.k2);
    KeyMovedKeeps(s, s', p, n, d.n);
    RepNil(p, s');
    RootReplaced(t, s, Rotated12(t, n), s');
  }

  lemma Case13Holds(t: Tree, n: CNode, s: Store)
    requires Case13(t, n) && Rep(t, null, s) && Distinct(t, s.Keys) && t.n in s && n in s && !s[n].body.bigSet
    ensures Rightmost(t.l).n in s
    ensures Replaced(t, null, s, Rotated13(t, n), KeyToRightBySmall(s, t.n, n, Rightmost(t.l).n))
  {
    hide KeyToRightBySmall, KeyMoved, Count, Rep, Replaced;
    var p, d := t.n, Rightmost(t.l);
    RepNode(t, null, s);
    RepNil(p, s);
    forall v | v in s
      ensures Count(t, v) == One(p, v) + Count(t.l, v) + Count(t.r, v) + Count(Nil, v)
      ensures Count(WithRightmost(t.l, OneKey(d.keys.k1)), v) == Count(t.l, v)
      ensures Count(WithLeftmost(t.r, OneKey(t.keys.k)), v) == Count(t.r, v)
    {
      NodeCounts(t, v);
      OutermostCounts(t.l, OneKey(d.keys.k1), v);
      OutermostCounts(t.r, OneKey(t.keys.k), v);
    }
    RootRegionApart(t, Nil, p, t.l, t.r, s);
    RightmostKeys(t.l, p, s);
    KeysMove(s, p, n, d.n);
    var s' := KeyToRightBySmall(s, p, n, d.n);
    KeyMovedRightTrees(t, Nil, p, t.l, t.r, s, s', t.keys.k);
    KeyMovedKeeps(s, s', p, n, d.n);
    RepNil(p, s');
    RootReplaced(t, s, Rotated13(t, n), s');
  }

  lemma Case14Holds(t: Tree, n: CNode, s: Store)
    requires Case14(t, n) && Rep(t, null, s) && Distinct(t, s.Keys) && t.n in s && n in s && !s[n].body.bigSet
    ensures Leftmost(t.r).n in s
    ensures Replaced(t, null, s, Rotated14(t, n), KeyToLeftBySmall(s, t.n, n, Leftmost(t.r).n))
  {
    hide KeyToLeftBySmall, KeyMoved, Count, Rep, Replaced;
    var p, d := t.n, Leftmost(t.r);
    RepNode(t, null, s);
    RepNil(p, s);
    forall v | v in s
      ensures Count(t, v) == One(p, v) + Count(t.l, v) + Count(t.r, v) + Count(Nil, v)
      ensures Count(WithRightmost(t.l, OneKey(t.keys.k)), v) == Count(t.l, v)
      ensures Count(WithLeftmost(t.r, OneKey(d.keys.k2)), v) == Count(t.r, v)
    {
      NodeCounts(t, v);
      OutermostCounts(t.l, OneKey(t.keys.k), v);
      OutermostCounts(t.r, OneKey(d.keys.k2), v);
    }
    RootRegionApart(t, Nil, p, t.l, t.r, s);
    LeftmostKeys(t.r, p, s);
    KeysMove(s, p, n, d.n);
    var s' := KeyToLeftBySmall(s, p, n, d.n);
    KeyMovedLeftTrees(t, Nil, p, t.l, t.r, s, s', t.keys.k);
    KeyMovedKeeps(s, s', p, n, d.n);
    RepNil(p, s');
    RootReplaced(t, s, Rotated14(t, n), s');
  }

  // ----- Each case on the nodes themselves -----

  method RotateRoot9(p: CNode, h: CNode, d: CNode, ghost t: Tree, ghost S: set<CNode>)
    requires Case9(t, h) && Rep(t, null, At(S)) && Distinct(t, S) && p == t.n && d == Leftmost(t.m).n
    requires p in S && h in S && !h.bigKeyIsSet
    modifies S
    ensures Replaced(t, null, old(At(S)), Rotated9(t, h), At(S))
  {
    hide Replaced, Rep, Count;
    ghost var s := At(S);
    assert s.Keys == S;
    Case9Holds(t, h, s);
    MoveKeyLeftBySmall(p, h, d, S);
  }

  method RotateRoot10(p: CNode, h: CNode, d: CNode, ghost t: Tree, ghost S: set<CNode>)
    requires Case10(t, h) && Rep(t, null, At(S)) && Distinct(t, S) && p == t.n && d == Rightmost(t.l).n
    requires p in S && h in S && !h.bigKeyIsSet
    modifies S
    ensures Replaced(t, null, old(At(S)), Rotated10(t, h), At(S))
  {
    hide Replaced, Rep, Count;
    ghost var s := At(S);
    assert s.Keys == S;
    Case10Holds(t, h, s);
    MoveKeyRightBySmall(p, h, d, S);
  }

  method RotateRoot11(p: CNode, h: CNode, d: CNode, ghost t: Tree, ghost S: set<CNode>)
    requires Case11(t, h) && Rep(t, null, At(S)) && Distinct(t, S) && p == t.n && d == Leftmost(t.r).n
    requires p in S && h in S && !h.bigKeyIsSet
    modifies S
    ensures Replaced(t, null, old(At(S)), Rotated11(t, h), At(S))
  {
    hide Replaced, Rep, Count;
    ghost var s := At(S);
    assert s.Keys == S;
    Case11Holds(t, h, s);
    MoveKeyLeftByBig(p, h, d, S);
  }

  method RotateRoot12(p: CNode, h: CNode, d: CNode, ghost t: Tree, ghost S: set<CNode>)
    requires Case12(t, h) && Rep(t, null, At(S)) && Distinct(t, S) && p == t.n && d == Rightmost(t.m).n
    requires p in S && h in S && !h.bigKeyIsSet
    modifies S
    ensures Replaced(t, null, old(At(S)), Rotated12(t, h), At(S))
  {
    hide Replaced, Rep, Count;
    ghost var s := At(S);
    assert s.Keys == S;
    Case12Holds(t, h, s);
    MoveKeyRightByBig(p, h, d, S);
  }

  method RotateRoot13(p: CNode, h: CNode, d: CNode, ghost t: Tree, ghost S: set<CNode>)
    requires Case13(t, h) && Rep(t, null, At(S)) && Distinct(t, S) && p == t.n && d == Rightmost(t.l).n
    requires p in S && h in S && !h.bigKeyIsSet
    modifies S
    ensures Replaced(t, null, old(At(S)), Rotated13(t, h), At(S))
  {
    hide Replaced, Rep, Count;
    ghost var s := At(S);
    assert s.Keys == S;
    Case13Holds(t, h, s);
    MoveKeyRightBySmall(p, h, d, S);
  }

  method RotateRoot14(p: CNode, h: CNode, d: CNode, ghost t: Tree, ghost S: set<CNode>)
    requires Case14(t, h) && Rep(t, null, At(S)) && Distinct(t, S) && p == t.n && d == Leftmost(t.r).n
    requires p in S && h in S && !h.bigKeyIsSet
    modifies S
    ensures Replaced(t, null, old(At(S)), Rotated14(t, h), At(S))
  {
    hide Replaced, Rep, Count;
    ghost var s := At(S);
    assert s.Keys == S;
    Case14Holds(t, h, s);
    MoveKeyLeftBySmall(p, h, d, S);
  }
}
