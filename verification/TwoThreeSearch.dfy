// Where CTree::search stops, where deleteItem takes a key out, and what both
// mean for the keys in order.
module TwoThreeSearch {
  import opened SortedKeys
  import opened TwoThreeNode
  import opened TwoThreeShape
  import opened TwoThreeRepair

  predicate InKeys(key: int, keys: Keys) {
    key in keys.First() || key in keys.Second()
  }

  // The child the search goes on with, and its position.
  function Next(c: Context, t: Tree, key: int): (Context, Tree)
    requires t.Node? && !t.keys.NoKey?
  {
    if key < t.keys.First()[0] then (InLeft(c, t.n, t.keys, t.m, t.r), t.l)
    else if t.keys.OneKey? || key > t.keys.k2 then (InRight(c, t.n, t.keys, t.l, t.m), t.r)
    else (InMiddle(c, t.n, t.keys, t.l, t.r), t.m)
  }

  // No holes, and an inner node has all the children its keys ask for.
  predicate Proper(t: Tree) {
    t.Node? ==>
      !t.keys.NoKey? && Proper(t.l) && Proper(t.m) && Proper(t.r) &&
      if t.l.Nil? then t.m.Nil? && t.r.Nil? else t.r.Node? && (t.keys.TwoKeys? <==> t.m.Node?)
  }

  lemma {:induction false} PerfectProper(t: Tree, h: nat)
    requires Perfect(t, h)
    ensures Proper(t)
  {
    if t.Node? {
      PerfectProper(t.l, h - 1);
      PerfectProper(t.r, h - 1);
      if t.keys.TwoKeys? { PerfectProper(t.m, h - 1); }
    }
  }

  // The position the search stops at: at the key, or where it would be added.
  function Find(c: Context, t: Tree, key: int): (r: (Context, Tree))
    requires t.Node? && Proper(t)
    ensures Plug(r.0, r.1) == Plug(c, t)
    ensures r.1.Node? && Proper(r.1)
    decreases t
  {
    var (c', t') := Next(c, t, key);
    if InKeys(key, t.keys) || t'.Nil? then (c, t) else Find(c', t', key)
  }

  // ----- Order -----

  lemma SortedThree(l: seq<int>, k1: int, m: seq<int>, k2: int, r: seq<int>)
    requires Sorted(l + [k1] + (m + [k2] + r))
    ensures Sorted(l) && Sorted(m) && Sorted(r) && k1 < k2
    ensures Below(l, k1) && Above(m, k1) && Above(r, k1) && Below(m, k2) && Above(r, k2)
  {
    SortedParts(l, k1, m + [k2] + r);
    SortedParts(m, k2, r);
    BoundsOfParts(m, k2, r, k1);
  }

  // ----- What the search finds -----

  // Everything to the left of the position is smaller, to the right larger.
  ghost predicate Between(c: Context, key: int) {
    match c
    case Top => true
    case InLeft(up, _, keys, m, r) =>
      Between(up, key) && Above(keys.First() + keys.Second(), key) && Above(Inorder(m), key) && Above(Inorder(r), key)
    case InMiddle(up, _, keys, l, r) =>
      Between(up, key) && Below(Inorder(l), key) && Below(keys.First(), key) && Above(keys.Second(), key) &&
      Above(Inorder(r), key)
    case InRight(up, _, keys, l, m) =>
      Between(up, key) && Below(Inorder(l), key) && Below(Inorder(m), key) && Below(keys.First() + keys.Second(), key)
  }

  lemma TwoInorder(t: Tree)
    requires IsTwo(t)
    ensures Inorder(t) == Inorder(t.l) + [t.keys.k] + Inorder(t.r)
  {
  }

  lemma ThreeInorder(t: Tree)
    requires IsThree(t)
    ensures Inorder(t) == Inorder(t.l) + [t.keys.k1] + (Inorder(t.m) + [t.keys.k2] + Inorder(t.r))
  {
    var l, m, r := Inorder(t.l), Inorder(t.m), Inorder(t.r);
    assert l + [t.keys.k1] + m + [t.keys.k2] + r == l + [t.keys.k1] + (m + [t.keys.k2] + r);
  }

  lemma StepBetween(c: Context, t: Tree, key: int, h: nat)
    requires Perfect(t, h) && t.Node? && Sorted(Inorder(t)) && Between(c, key) && !InKeys(key, t.keys)
    ensures var (c', t') := Next(c, t, key);
      Between(c', key) && Sorted(Inorder(t')) && (key in Inorder(t) <==> key in Inorder(t')) &&
      Perfect(t', h - 1)
  {
    if t.keys.OneKey? {
      StepFromTwo(c, t, key);
    } else {
      StepFromThree(c, t, key);
    }
  }

  lemma StepFromTwo(c: Context, t: Tree, key: int)
    requires IsTwo(t) && Sorted(Inorder(t)) && Between(c, key) && !InKeys(key, t.keys)
    ensures var (c', t') := Next(c, t, key);
      Between(c', key) && Sorted(Inorder(t')) && (key in Inorder(t) <==> key in Inorder(t'))
  {
    var l, k, r := Inorder(t.l), t.keys.k, Inorder(t.r);
    TwoInorder(t);
    SortedParts(l, k, r);
    Members(l, k, r, key);
  }

  lemma StepFromThree(c: Context, t: Tree, key: int)
    requires IsThree(t) && Sorted(Inorder(t)) && Between(c, key) && !InKeys(key, t.keys)
    ensures var (c', t') := Next(c, t, key);
      Between(c', key) && Sorted(Inorder(t')) && (key in Inorder(t) <==> key in Inorder(t'))
  {
    var l, k1, m, k2, r := Inorder(t.l), t.keys.k1, Inorder(t.m), t.keys.k2, Inorder(t.r);
    ThreeInorder(t);
    SortedThree(l, k1, m, k2, r);
    Members(m, k2, r, key);
    Members(l, k1, m + [k2] + r, key);
  }

  // The search finds the key exactly if the tree has it; otherwise it stops at
  // the leaf, between the keys that surround it.
  lemma {:induction false} FindFinds(c: Context, t: Tree, key: int, h: nat)
    requires Perfect(t, h) && t.Node? && Proper(t) && Sorted(Inorder(t)) && Between(c, key)
    ensures var (c', t') := Find(c, t, key);
      (key in Inorder(t) <==> InKeys(key, t'.keys)) &&
      Between(c', key) && Sorted(Inorder(t')) &&
      (!InKeys(key, t'.keys) ==> t'.l.Nil? && t'.m.Nil? && t'.r.Nil?)
    decreases t
  {
    if !InKeys(key, t.keys) {
      StepBetween(c, t, key, h);
      var (c', t') := Next(c, t, key);
      if t'.Node? {
        FindFinds(c', t', key, h - 1);
      }
    } else {
      assert key in Inorder(t);
    }
  }
}
