// CTree::insert on trees: adding a key to a node, splitting a node, and what
// both make of the keys in order and of the shape.
module TwoThreeInsertion {
  import opened SortedKeys
  import opened TwoThreeNode
  import opened TwoThreeShape
  import opened TwoThreeGlobal
  import opened TwoThreeRepair
  import opened TwoThreeSearch
  import opened TwoThreeDeletion
  import opened TwoThreeTraversal

  // s with key, before the first larger key.
  function With(s: seq<int>, key: int): seq<int> {
    if s == [] then [key]
    else if key < s[0] then [key] + s
    else [s[0]] + With(s[1..], key)
  }

  lemma Joined(a: seq<int>, b: seq<int>, key: int)
    ensures Below(a + b, key) <==> Below(a, key) && Below(b, key)
    ensures Above(a + b, key) <==> Above(a, key) && Above(b, key)
  {
    assert forall x :: x in a + b <==> x in a || x in b;
  }

  lemma {:induction false} WithSplit(a: seq<int>, key: int, b: seq<int>)
    requires Below(a, key) && Above(b, key)
    ensures With(a + b, key) == a + [key] + b
  {
    var s := a + b;
    if a == [] {
      assert s == b && [] + [key] + b == [key] + b;
      assert b != [] ==> b[0] in b;
    } else {
      assert s[0] == a[0] && a[0] in a && s[1..] == a[1..] + b;
      assert forall x :: x in a[1..] ==> x in a;
      WithSplit(a[1..], key, b);
      assert [a[0]] + (a[1..] + [key] + b) == a + [key] + b;
    }
  }

  lemma {:induction false} WithSorted(s: seq<int>, key: int)
    requires Sorted(s) && key !in s
    ensures Sorted(With(s, key)) && forall x :: x in With(s, key) <==> x in s || x == key
  {
    if s != [] {
      assert s == [s[0]] + s[1..] && s == [] + [s[0]] + s[1..];
      SortedParts([], s[0], s[1..]);
      if key < s[0] {
        assert [] + [key] + s == [key] + s;
        forall x | x in s ensures key < x {}
        SortedJoin([], key, s);
      } else {
        WithSorted(s[1..], key);
        var rest := With(s[1..], key);
        assert [] + [s[0]] + rest == [s[0]] + rest;
        SortedJoin([], s[0], rest);
      }
    }
  }

  // The keys of t with those of d and k in front of one of its subtrees, the
  // one k's size points to.
  function Spliced(t: Tree, d: Tree, k: int): seq<int>
    requires IsTwo(t) || IsThree(t)
  {
    var l, r, put := Inorder(t.l), Inorder(t.r), Inorder(d) + [k];
    if IsTwo(t) then
      if k < t.keys.k then put + l + [t.keys.k] + r else l + [t.keys.k] + put + r
    else
      var m := Inorder(t.m);
      if k > t.keys.k2 then l + [t.keys.k1] + m + [t.keys.k2] + put + r
      else if k < t.keys.k1 then put + l + [t.keys.k1] + m + [t.keys.k2] + r
      else l + [t.keys.k1] + put + m + [t.keys.k2] + r
  }

  // A two node with one more key and the subtree before it.
  function AddedTo(t: Tree, d: Tree, k: int): Tree
    requires IsTwo(t)
  {
    if k < t.keys.k then Three(t.n, d, k, t.l, t.keys.k, t.r) else Three(t.n, t.l, t.keys.k, d, k, t.r)
  }

  // The two halves of a split node, and the key between them.
  datatype Halves = Halves(added: Tree, k: int, rest: Tree)

  // A three node with one more key and the subtree before it, split: the added
  // node holds the smaller part.
  function SplitAt(t: Tree, d: Tree, k: int, n: CNode): Halves
    requires IsThree(t)
  {
    if k > t.keys.k2 then Halves(Two(n, t.l, t.keys.k1, t.m), t.keys.k2, Two(t.n, d, k, t.r))
    else if k < t.keys.k1 then Halves(Two(n, d, k, t.l), t.keys.k1, Two(t.n, t.m, t.keys.k2, t.r))
    else Halves(Two(n, t.l, t.keys.k1, d), k, Two(t.n, t.m, t.keys.k2, t.r))
  }

  function HalvesKeys(hs: Halves): seq<int> {
    Inorder(hs.added) + [hs.k] + Inorder(hs.rest)
  }

  lemma AddedKeys(t: Tree, d: Tree, k: int)
    requires IsTwo(t)
    ensures Inorder(AddedTo(t, d, k)) == Spliced(t, d, k)
  {
    hide Inorder;
    var l, r := Inorder(t.l), Inorder(t.r);
    ThreeInorder(AddedTo(t, d, k));
    assert Inorder(d) + [k] + (l + [t.keys.k] + r) == Inorder(d) + [k] + l + [t.keys.k] + r;
    assert l + [t.keys.k] + (Inorder(d) + [k] + r) == l + [t.keys.k] + (Inorder(d) + [k]) + r;
  }

  lemma SplitKeys(t: Tree, d: Tree, k: int, n: CNode)
    requires IsThree(t)
    ensures HalvesKeys(SplitAt(t, d, k, n)) == Spliced(t, d, k)
  {
    var hs := SplitAt(t, d, k, n);
    TwoInorder(hs.added);
    TwoInorder(hs.rest);
    Flatten(Inorder(hs.added.l), [hs.added.keys.k], Inorder(hs.added.r), [hs.k],
            Inorder(hs.rest.l), [hs.rest.keys.k], Inorder(hs.rest.r));
  }

  lemma Flatten(a: seq<int>, b: seq<int>, c: seq<int>, d: seq<int>, e: seq<int>, f: seq<int>, g: seq<int>)
    ensures (a + b + c) + d + (e + f + g) == a + b + c + d + e + f + g
    ensures a + b + c + d + e + f + g == (a + b) + c + d + e + f + g
    ensures a + b + c + d + e + f + g == a + b + (c + d) + e + f + g
    ensures a + b + c + d + e + f + g == a + b + c + d + (e + f) + g
  {
  }

  lemma AddedPerfect(t: Tree, d: Tree, k: int, h: nat)
    requires IsTwo(t) && Perfect(t, h) && Perfect(d, h - 1)
    ensures Perfect(AddedTo(t, d, k), h)
  {
  }

  lemma SplitPerfect(t: Tree, d: Tree, k: int, n: CNode, h: nat)
    requires IsThree(t) && Perfect(t, h) && Perfect(d, h - 1)
    ensures Perfect(SplitAt(t, d, k, n).added, h) && Perfect(SplitAt(t, d, k, n).rest, h)
  {
  }

  // The key between the halves points to the subtree the halves stand for.
  lemma PointsBack(c: Context, hs: Halves)
    requires !c.Top? && (IsTwo(Fill(c, hs.rest)) || IsThree(Fill(c, hs.rest))) && hs.rest.Node?
    requires Sorted(Before(c) + HalvesKeys(hs) + After(c))
    ensures var p := Fill(c, hs.rest);
      Before(c) + HalvesKeys(hs) + After(c) == Before(c.up) + Spliced(p, hs.added, hs.k) + After(c.up) &&
      (IsTwo(p) ==> hs.k != p.keys.k)
  {
    hide Spliced, Inorder, Left, Right;
    var mid, l, r := HalvesKeys(hs), Left(c), Right(c);
    Regroup(Before(c.up), l, mid, r, After(c.up));
    MiddleSorted(Before(c.up), l + mid + r, After(c.up));
    var a, b := Inorder(hs.added), Inorder(hs.rest);
    assert l + (a + [hs.k] + b) + r == (l + a) + [hs.k] + (b + r);
    SortedParts(l + a, hs.k, b + r);
    Joined(l, a, hs.k);
    Joined(b, r, hs.k);
    PointsTo(c, hs);
  }

  lemma PointsTo(c: Context, hs: Halves)
    requires !c.Top? && (IsTwo(Fill(c, hs.rest)) || IsThree(Fill(c, hs.rest))) && hs.rest.Node?
    requires Below(Left(c), hs.k) && Above(Right(c), hs.k)
    ensures var p := Fill(c, hs.rest);
      Spliced(p, hs.added, hs.k) == Left(c) + HalvesKeys(hs) + Right(c) && (IsTwo(p) ==> hs.k != p.keys.k)
  {
    hide Inorder;
    var a, b, k := Inorder(hs.added), Inorder(hs.rest), hs.k;
    NoKeys();
    match c
    case InLeft(_, _, keys, m, r) =>
      if keys.TwoKeys? {
        assert Right(c) == [keys.k1] + Inorder(m) + [keys.k2] + Inorder(r);
        assert Right(c)[0] == keys.k1 && Right(c)[1 + |Inorder(m)|] == keys.k2;
        assert keys.k1 in Right(c) && keys.k2 in Right(c) && k < keys.k1 && k < keys.k2;
        assert a + [k] + b + [keys.k1] + Inorder(m) + [keys.k2] + Inorder(r) == [] + (a + [k] + b) + Right(c);
      } else {
        assert Right(c) == [keys.k] + Inorder(r) && Right(c)[0] == keys.k && keys.k in Right(c) && k < keys.k;
        assert a + [k] + b + [keys.k] + Inorder(r) == [] + (a + [k] + b) + Right(c);
      }
    case InMiddle(_, _, keys, l, r) =>
      assert Inorder(l) + [keys.k1] == Left(c) && [keys.k2] + Inorder(r) == Right(c);
      assert Left(c)[|Inorder(l)|] == keys.k1 && Right(c)[0] == keys.k2;
      assert keys.k1 in Left(c) && keys.k2 in Right(c) && keys.k1 < k < keys.k2;
      assert Inorder(l) + [keys.k1] + (a + [k]) + b + [keys.k2] + Inorder(r) == Left(c) + (a + [k] + b) + Right(c);
    case InRight(_, _, keys, l, m) =>
      if keys.TwoKeys? {
        assert Left(c) == Inorder(l) + [keys.k1] + Inorder(m) + [keys.k2];
        assert Left(c)[|Inorder(l)|] == keys.k1 && Left(c)[|Left(c)| - 1] == keys.k2;
        assert keys.k1 in Left(c) && keys.k2 in Left(c) && keys.k1 < k && keys.k2 < k;
        assert Inorder(l) + [keys.k1] + Inorder(m) + [keys.k2] + (a + [k]) + b == Left(c) + (a + [k] + b) + [];
      } else {
        assert Left(c) == Inorder(l) + [keys.k];
        assert Left(c)[|Inorder(l)|] == keys.k && keys.k in Left(c);
        assert IsTwo(Fill(c, hs.rest)) && keys.k < k;
        assert Inorder(l) + [keys.k] + (a + [k]) + b == Left(c) + (a + [k] + b) + [];
      }
  }

  // ----- Where the search stops without the key -----

  lemma {:induction false} BetweenParts(c: Context, key: int)
    requires Between(c, key)
    ensures Below(Before(c), key) && Above(After(c), key)
  {
    if !c.Top? {
      BetweenParts(c.up, key);
      BetweenStep(c, key);
      Joined(Before(c.up), Left(c), key);
      Joined(Right(c), After(c.up), key);
    }
  }

  lemma BetweenStep(c: Context, key: int)
    requires Between(c, key)
    ensures Below(Left(c), key) && Above(Right(c), key)
  {
    hide Inorder;
    match c
    case Top =>
    case InLeft(_, _, keys, m, r) =>
      var a, b := keys.First(), keys.Second();
      Joined(a + Inorder(m) + b, Inorder(r), key);
      Joined(a + Inorder(m), b, key);
      Joined(a, Inorder(m), key);
      Joined(a, b, key);
    case InMiddle(_, _, keys, l, r) =>
      Joined(Inorder(l), keys.First(), key);
      Joined(keys.Second(), Inorder(r), key);
    case InRight(_, _, keys, l, m) =>
      var a, b := keys.First(), keys.Second();
      Joined(Inorder(l) + a + Inorder(m), b, key);
      Joined(Inorder(l) + a, Inorder(m), key);
      Joined(Inorder(l), a, key);
      Joined(a, b, key);
  }

  // At the leaf, adding the key is the right place in the whole tree.
  lemma SplicedAtLeaf(c: Context, t: Tree, key: int)
    requires (IsTwo(t) || IsThree(t)) && t == Node(t.n, t.keys, Nil, Nil, Nil) && !InKeys(key, t.keys)
    requires Between(c, key) && Sorted(Inorder(t))
    ensures Before(c) + Spliced(t, Nil, key) + After(c) == With(Inorder(Plug(c, t)), key)
  {
    hide With, Inorder, Before, After, Plug, Spliced, Sorted;
    BetweenParts(c, key);
    PlugInorder(c, t);
    var p, q := LeafParts(t, key);
    SplicedBeside(Before(c), p, q, key, After(c));
  }

  lemma LeafParts(t: Tree, key: int) returns (p: seq<int>, q: seq<int>)
    requires (IsTwo(t) || IsThree(t)) && t == Node(t.n, t.keys, Nil, Nil, Nil) && !InKeys(key, t.keys)
    requires Sorted(Inorder(t))
    ensures Inorder(t) == p + q && Spliced(t, Nil, key) == p + [key] + q && Below(p, key) && Above(q, key)
  {
    hide Inorder;
    LeafInorder(t.n, t.keys);
    NoKeys();
    if IsTwo(t) {
      var k := t.keys.k;
      p, q := if key < k then [] else [k], if key < k then [k] else [];
      assert [] + [key] + [] + [k] + [] == [] + [key] + [k];
      assert [] + [k] + ([] + [key]) + [] == [k] + [key] + [];
    } else {
      var k1, k2 := t.keys.k1, t.keys.k2;
      assert Inorder(t) == [k1, k2] && Inorder(t)[0] == k1 && Inorder(t)[1] == k2;
      p := if key > k2 then [k1, k2] else if key < k1 then [] else [k1];
      q := if key > k2 then [] else if key < k1 then [k1, k2] else [k2];
      assert [] + [k1] + [] + [k2] + ([] + [key]) + [] == [k1, k2] + [key] + [];
      assert [] + [key] + [] + [k1] + [] + [k2] + [] == [] + [key] + [k1, k2];
      assert [] + [k1] + ([] + [key]) + [] + [k2] + [] == [k1] + [key] + [k2];
    }
  }

  lemma SplicedBeside(a: seq<int>, p: seq<int>, q: seq<int>, key: int, b: seq<int>)
    requires Below(a, key) && Above(b, key) && Below(p, key) && Above(q, key)
    ensures With(a + (p + q) + b, key) == a + (p + [key] + q) + b
  {
    hide With, Below, Above;
    Joined(a, p, key);
    Joined(q, b, key);
    WithSplit(a + p, key, q + b);
    assert a + (p + q) + b == (a + p) + (q + b);
    assert a + (p + [key] + q) + b == (a + p) + [key] + (q + b);
  }
}
