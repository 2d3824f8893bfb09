// CTree::localRotation as a function from the parent's subtree to the repaired
// subtree, case by case, and the proof that the assignments of every case compute
// it and keep the keys in order.
module TwoThreeLocal {
  import opened TwoThreeNode
  import opened TwoThreeShape
  import opened TwoThreeRotation
  import opened TwoThreeRegion

  // ----- The eight cases: the guard and the subtree that results -----

  predicate Case1(t: Tree) {
    IsTwo(t) && IsHole(t.l) && IsThree(t.r)
  }

  function Rotated1(t: Tree): Tree
    requires Case1(t)
  {
    Two(t.n, FilledRight(t.l, t.keys.k, t.r.l), t.r.keys.k1, ButFirst(t.r))
  }

  predicate Case2(t: Tree) {
    IsThree(t) && IsHole(t.l) && IsThree(t.m)
  }

  function Rotated2(t: Tree): Tree
    requires Case2(t)
  {
    Three(t.n, FilledRight(t.l, t.keys.k1, t.m.l), t.m.keys.k1, ButFirst(t.m), t.keys.k2, t.r)
  }

  predicate Case3(t: Tree) {
    IsThree(t) && IsHole(t.l) && IsTwo(t.m) && IsThree(t.r)
  }

  function Rotated3(t: Tree): Tree
    requires Case3(t)
  {
    Three(t.n, FilledRight(t.l, t.keys.k1, t.m.l), t.m.keys.k,
          Two(t.m.n, t.m.r, t.keys.k2, t.r.l), t.r.keys.k1, ButFirst(t.r))
  }

  predicate Case4(t: Tree) {
    IsThree(t) && IsHole(t.m) && IsThree(t.r)
  }

  function Rotated4(t: Tree): Tree
    requires Case4(t)
  {
    Three(t.n, t.l, t.keys.k1, FilledRight(t.m, t.keys.k2, t.r.l), t.r.keys.k1, ButFirst(t.r))
  }

  predicate Case5(t: Tree) {
    IsThree(t) && IsHole(t.m) && IsThree(t.l)
  }

  function Rotated5(t: Tree): Tree
    requires Case5(t)
  {
    Three(t.n, ButLast(t.l), t.l.keys.k2, FilledLeft(t.m, t.l.r, t.keys.k1), t.keys.k2, t.r)
  }

  predicate Case6(t: Tree) {
    IsTwo(t) && IsHole(t.r) && IsThree(t.l)
  }

  function Rotated6(t: Tree): Tree
    requires Case6(t)
  {
    Two(t.n, ButLast(t.l), t.l.keys.k2, FilledLeft(t.r, t.l.r, t.keys.k))
  }

  predicate Case7(t: Tree) {
    IsThree(t) && IsHole(t.r) && IsThree(t.m)
  }

  function Rotated7(t: Tree): Tree
    requires Case7(t)
  {
    Three(t.n, t.l, t.keys.k1, ButLast(t.m), t.m.keys.k2, FilledLeft(t.r, t.m.r, t.keys.k2))
  }

  predicate Case8(t: Tree) {
    IsThree(t) && IsHole(t.r) && IsTwo(t.m) && IsThree(t.l)
  }

  function Rotated8(t: Tree): Tree
    requires Case8(t)
  {
    Three(t.n, ButLast(t.l), t.l.keys.k2, Two(t.m.n, t.l.r, t.keys.k1, t.m.l), t.m.keys.k,
          FilledLeft(t.r, t.m.r, t.keys.k2))
  }

  // The order of the guards is the source's.
  predicate CanRotate(t: Tree) {
    Case1(t) || Case2(t) || Case3(t) || Case4(t) || Case5(t) || Case6(t) || Case7(t) || Case8(t)
  }

  function Rotated(t: Tree): Tree
    requires CanRotate(t)
  {
    if Case1(t) then Rotated1(t)
    else if Case2(t) then Rotated2(t)
    else if Case3(t) then Rotated3(t)
    else if Case4(t) then Rotated4(t)
    else if Case5(t) then Rotated5(t)
    else if Case6(t) then Rotated6(t)
    else if Case7(t) then Rotated7(t)
    else Rotated8(t)
  }

  // ----- Node counts -----

  lemma FilledCounts(h: Tree, k: int, b: Tree, n: CNode)
    requires IsHole(h)
    ensures Count(FilledRight(h, k, b), n) == Count(h, n) + Count(b, n)
    ensures Count(FilledLeft(h, b, k), n) == Count(h, n) + Count(b, n)
  {
    assert Count(h, n) == One(h.n, n) + Count(h.l, n) + Count(h.m, n) + Count(h.r, n);
  }

  lemma DonorCounts(d: Tree, n: CNode)
    requires IsThree(d)
    ensures Count(d, n) == Count(d.l, n) + Count(ButFirst(d), n)
    ensures Count(d, n) == Count(d.r, n) + Count(ButLast(d), n)
  {
  }

  lemma Case1Holds(t: Tree, q: CNode?, s: Store)
    requires Case1(t) && Rep(t, q, s) && Distinct(t, s.Keys) && t.l.n in s && t.r.n in s
    ensures Apart(t.n, t.l, t.r)
    ensures Replaced(t, q, s, Rotated1(t), TookFirstBySmall(s, t.n, t.l.n, t.r.n))
  {
    hide TookFirstBySmall, FirstMoved, Count;
    var p, h, d := t.n, t.l, t.r;
    var s' := TookFirstBySmall(s, p, h.n, d.n);
    forall n | n in s
      ensures Count(t, n) == Pieces(p, h, d, n) + Count(Nil, n) && Count(t, n) == Count(Rotated1(t), n)
    {
      NodeCounts(t, n);
      NodeCounts(Rotated1(t), n);
      FilledCounts(h, t.keys.k, d.l, n);
      DonorCounts(d, n);
    }
    RegionApart(t, Nil, p, h, d, s);
    TookFirstBySmallMoves(s, p, h.n, d.n);
    FirstMovedInside(t, Nil, s, s', p, h, t.keys.k, d);
  }

  lemma Case2Holds(t: Tree, q: CNode?, s: Store)
    requires Case2(t) && Rep(t, q, s) && Distinct(t, s.Keys) && t.l.n in s && t.m.n in s
    ensures Apart(t.n, t.l, t.m)
    ensures Replaced(t, q, s, Rotated2(t), TookFirstBySmall(s, t.n, t.l.n, t.m.n))
  {
    hide TookFirstBySmall, FirstMoved, Count;
    var p, h, d := t.n, t.l, t.m;
    var s' := TookFirstBySmall(s, p, h.n, d.n);
    forall n | n in s
      ensures Count(t, n) == Pieces(p, h, d, n) + Count(t.r, n) && Count(t, n) == Count(Rotated2(t), n)
    {
      NodeCounts(t, n);
      NodeCounts(Rotated2(t), n);
      FilledCounts(h, t.keys.k1, d.l, n);
      DonorCounts(d, n);
    }
    RegionApart(t, t.r, p, h, d, s);
    TookFirstBySmallMoves(s, p, h.n, d.n);
    FirstMovedInside(t, t.r, s, s', p, h, t.keys.k1, d);
  }

  lemma Case4Holds(t: Tree, q: CNode?, s: Store)
    requires Case4(t) && Rep(t, q, s) && Distinct(t, s.Keys) && t.m.n in s && t.r.n in s
    ensures Apart(t.n, t.m, t.r)
    ensures Replaced(t, q, s, Rotated4(t), TookFirstByBig(s, t.n, t.m.n, t.r.n))
  {
    hide TookFirstByBig, FirstMoved, Count;
    var p, h, d := t.n, t.m, t.r;
    var s' := TookFirstByBig(s, p, h.n, d.n);
    forall n | n in s
      ensures Count(t, n) == Pieces(p, h, d, n) + Count(t.l, n) && Count(t, n) == Count(Rotated4(t), n)
    {
      NodeCounts(t, n);
      NodeCounts(Rotated4(t), n);
      FilledCounts(h, t.keys.k2, d.l, n);
      DonorCounts(d, n);
    }
    RegionApart(t, t.l, p, h, d, s);
    TookFirstByBigMoves(s, p, h.n, d.n);
    FirstMovedInside(t, t.l, s, s', p, h, t.keys.k2, d);
  }

  lemma Case5Holds(t: Tree, q: CNode?, s: Store)
    requires Case5(t) && Rep(t, q, s) && Distinct(t, s.Keys) && t.m.n in s && t.l.n in s
    ensures Apart(t.n, t.m, t.l)
    ensures Replaced(t, q, s, Rotated5(t), TookLastBySmall(s, t.n, t.m.n, t.l.n))
  {
    hide TookLastBySmall, LastMoved, Count;
    var p, h, d := t.n, t.m, t.l;
    var s' := TookLastBySmall(s, p, h.n, d.n);
    forall n | n in s
      ensures Count(t, n) == Pieces(p, h, d, n) + Count(t.r, n) && Count(t, n) == Count(Rotated5(t), n)
    {
      NodeCounts(t, n);
      NodeCounts(Rotated5(t), n);
      FilledCounts(h, t.keys.k1, d.r, n);
      DonorCounts(d, n);
    }
    RegionApart(t, t.r, p, h, d, s);
    TookLastBySmallMoves(s, p, h.n, d.n);
    LastMovedInside(t, t.r, s, s', p, h, t.keys.k1, d);
  }

  lemma Case6Holds(t: Tree, q: CNode?, s: Store)
    requires Case6(t) && Rep(t, q, s) && Distinct(t, s.Keys) && t.r.n in s && t.l.n in s
    ensures Apart(t.n, t.r, t.l)
    ensures Replaced(t, q, s, Rotated6(t), TookLastBySmall(s, t.n, t.r.n, t.l.n))
  {
    hide TookLastBySmall, LastMoved, Count;
    var p, h, d := t.n, t.r, t.l;
    var s' := TookLastBySmall(s, p, h.n, d.n);
    forall n | n in s
      ensures Count(t, n) == Pieces(p, h, d, n) + Count(Nil, n) && Count(t, n) == Count(Rotated6(t), n)
    {
      NodeCounts(t, n);
      NodeCounts(Rotated6(t), n);
      FilledCounts(h, t.keys.k, d.r, n);
      DonorCounts(d, n);
    }
    RegionApart(t, Nil, p, h, d, s);
    TookLastBySmallMoves(s, p, h.n, d.n);
    LastMovedInside(t, Nil, s, s', p, h, t.keys.k, d);
  }

  lemma Case7Holds(t: Tree, q: CNode?, s: Store)
    requires Case7(t) && Rep(t, q, s) && Distinct(t, s.Keys) && t.r.n in s && t.m.n in s
    ensures Apart(t.n, t.r, t.m)
    ensures Replaced(t, q, s, Rotated7(t), TookLastByBig(s, t.n, t.r.n, t.m.n))
  {
    hide TookLastByBig, LastMoved, Count;
    var p, h, d := t.n, t.r, t.m;
    var s' := TookLastByBig(s, p, h.n, d.n);
    forall n | n in s
      ensures Count(t, n) == Pieces(p, h, d, n) + Count(t.l, n) && Count(t, n) == Count(Rotated7(t), n)
    {
      NodeCounts(t, n);
      NodeCounts(Rotated7(t), n);
      FilledCounts(h, t.keys.k2, d.r, n);
      DonorCounts(d, n);
    }
    RegionApart(t, t.l, p, h, d, s);
    TookLastByBigMoves(s, p, h.n, d.n);
    LastMovedInside(t, t.l, s, s', p, h, t.keys.k2, d);
  }

  lemma LentCounts(h: Tree, k: int, m: Tree, n: CNode)
    requires IsHole(h) && IsTwo(m)
    ensures Count(FilledRight(h, k, m.l), n) + Count(Hole(m.n, m.r), n) == Count(h, n) + Count(m, n)
    ensures Count(FilledLeft(h, m.r, k), n) + Count(Hole(m.n, m.l), n) == Count(h, n) + Count(m, n)
  {
    FilledCounts(h, k, m.l, n);
    FilledCounts(h, k, m.r, n);
    NodeCounts(m, n);
    NodeCounts(Hole(m.n, m.r), n);
    NodeCounts(Hole(m.n, m.l), n);
  }

  // After the first half of case 3 the middle node is the hole.
  lemma Case3Counts(t: Tree, n: CNode)
    requires Case3(t)
    ensures Count(t, n) == Pieces(t.n, t.l, t.m, n) + Count(t.r, n)
    ensures Count(t, n) == Pieces(t.n, Hole(t.m.n, t.m.r), t.r, n) + Count(FilledRight(t.l, t.keys.k1, t.m.l), n)
  {
    hide Count;
    NodeCounts(t, n);
    LentCounts(t.l, t.keys.k1, t.m, n);
  }

  lemma Case3Half(t: Tree, q: CNode?, s: Store)
    requires Case3(t) && Rep(t, q, s) && Distinct(t, s.Keys) && t.l.n in s && t.m.n in s && t.r.n in s
    ensures Apart(t.n, t.l, t.m)
    ensures var s1 := LentFirst(s, t.n, t.l.n, t.m.n);
      Region(t, FilledRight(t.l, t.keys.k1, t.m.l), t.n, Hole(t.m.n, t.m.r), t.r, s1) &&
      s1[t.n].body == WithSmall(s[t.n].body, t.m.keys.k) && s1[t.n].parent == q && s1.Keys == s.Keys &&
      s1[t.m.n].body.smallSet && s1[t.m.n].body.small == t.keys.k2 &&
      forall n :: n in s && Count(t, n) == 0 ==> s1[n] == s[n]
  {
    hide LentFirst, FirstLent, Count, Rep, Apart;
    RepNode(t, q, s);
    var p, h, m, d := t.n, t.l, t.m, t.r;
    var s1 := LentFirst(s, p, h.n, m.n);
    RepNode(m, p, s);
    RepNode(h, p, s);
    forall n | n in s
      ensures Count(t, n) == Pieces(p, h, m, n) + Count(d, n)
      ensures Count(t, n) == Pieces(p, Hole(m.n, m.r), d, n) + Count(FilledRight(t.l, t.keys.k1, t.m.l), n)
    {
      Case3Counts(t, n);
    }
    RegionApart(t, d, p, h, m, s);
    ApartNodes(p, h, m);
    LentFirstMoves(s, p, h.n, m.n);
    FirstLentInside(t, d, s, s1, p, h, m);
  }

  lemma Case3Holds(t: Tree, q: CNode?, s: Store)
    requires Case3(t) && Rep(t, q, s) && Distinct(t, s.Keys) && t.l.n in s && t.m.n in s && t.r.n in s
    ensures Replaced(t, q, s, Rotated3(t), TookFirstUp(LentFirst(s, t.n, t.l.n, t.m.n), t.n, t.m.n, t.r.n))
  {
    hide LentFirst, TookFirstUp, FirstMoved, Count;
    var p, h, m, d := t.n, t.l, t.m, t.r;
    Case3Half(t, q, s);
    var s1 := LentFirst(s, p, h.n, m.n);
    var s2 := TookFirstUp(s1, p, m.n, d.n);
    var l', m' := FilledRight(h, t.keys.k1, m.l), Hole(m.n, m.r);
    forall n | n in s
      ensures Count(t, n) == Count(Rotated3(t), n)
    {
      NodeCounts(t, n);
      NodeCounts(Rotated3(t), n);
      LentCounts(h, t.keys.k1, m, n);
      FilledCounts(m', t.keys.k2, d.l, n);
      DonorCounts(d, n);
    }
    RegionApart(t, l', p, m', d, s1);
    assert s1[d.n].body.small == d.keys.k1;
    TookFirstUpMoves(s1, p, m.n, d.n);
    FirstMovedInside(t, l', s1, s2, p, m', t.keys.k2, d);
  }

  // After the first half of case 8 the middle node is the hole.
  lemma Case8Counts(t: Tree, n: CNode)
    requires Case8(t)
    ensures Count(t, n) == Pieces(t.n, t.r, t.m, n) + Count(t.l, n)
    ensures Count(t, n) == Pieces(t.n, Hole(t.m.n, t.m.l), t.l, n) + Count(FilledLeft(t.r, t.m.r, t.keys.k2), n)
  {
    hide Count;
    NodeCounts(t, n);
    LentCounts(t.r, t.keys.k2, t.m, n);
  }

  lemma Case8Half(t: Tree, q: CNode?, s: Store)
    requires Case8(t) && Rep(t, q, s) && Distinct(t, s.Keys) && t.l.n in s && t.m.n in s && t.r.n in s
    ensures Apart(t.n, t.r, t.m)
    ensures var s1 := LentLast(s, t.n, t.r.n, t.m.n);
      Region(t, FilledLeft(t.r, t.m.r, t.keys.k2), t.n, Hole(t.m.n, t.m.l), t.l, s1) &&
      s1[t.n].body == WithBig(s[t.n].body, t.m.keys.k) && s1[t.n].parent == q && s1.Keys == s.Keys &&
      forall n :: n in s && Count(t, n) == 0 ==> s1[n] == s[n]
  {
    hide LentLast, LastLent, Count, Rep, Apart;
    RepNode(t, q, s);
    var p, h, m, d := t.n, t.r, t.m, t.l;
    var s1 := LentLast(s, p, h.n, m.n);
    RepNode(m, p, s);
    RepNode(h, p, s);
    forall n | n in s
      ensures Count(t, n) == Pieces(p, h, m, n) + Count(d, n)
      ensures Count(t, n) == Pieces(p, Hole(m.n, m.l), d, n) + Count(FilledLeft(t.r, t.m.r, t.keys.k2), n)
    {
      Case8Counts(t, n);
    }
    RegionApart(t, d, p, h, m, s);
    ApartNodes(p, h, m);
    LentLastMoves(s, p, h.n, m.n);
    LastLentInside(t, d, s, s1, p, h, m);
  }

  lemma Case8Holds(t: Tree, q: CNode?, s: Store)
    requires Case8(t) && Rep(t, q, s) && Distinct(t, s.Keys) && t.l.n in s && t.m.n in s && t.r.n in s
    ensures Replaced(t, q, s, Rotated8(t), TookLastBySmall(LentLast(s, t.n, t.r.n, t.m.n), t.n, t.m.n, t.l.n))
  {
    hide LentLast, TookLastBySmall, LastMoved, Count;
    var p, h, m, d := t.n, t.r, t.m, t.l;
    Case8Half(t, q, s);
    var s1 := LentLast(s, p, h.n, m.n);
    var s2 := TookLastBySmall(s1, p, m.n, d.n);
    var r', m' := FilledLeft(h, m.r, t.keys.k2), Hole(m.n, m.l);
    forall n | n in s
      ensures Count(t, n) == Count(Rotated8(t), n)
    {
      NodeCounts(t, n);
      NodeCounts(Rotated8(t), n);
      LentCounts(h, t.keys.k2, m, n);
      FilledCounts(m', t.keys.k1, d.r, n);
      DonorCounts(d, n);
    }
    RegionApart(t, r', p, m', d, s1);
    assert s1[d.n].body.big == d.keys.k2;
    TookLastBySmallMoves(s1, p, m.n, d.n);
    LastMovedInside(t, r', s1, s2, p, m', t.keys.k1, d);
  }

  // ----- Each case on the nodes themselves -----

  method Rotate1(p: CNode, h: CNode, d: CNode, ghost t: Tree, ghost q: CNode?, ghost S: set<CNode>)
    requires Case1(t) && Rep(t, q, At(S)) && Distinct(t, S) && p == t.n && h == t.l.n && d == t.r.n
    modifies S
    ensures Replaced(t, q, old(At(S)), Rotated1(t), At(S))
  {
    hide Replaced, Rep, Count;
    ghost var s := At(S);
    assert s.Keys == S;
    RepNode(t, q, s);
    RepLinks(t.l, p, s);
    RepLinks(t.r, p, s);
    Case1Holds(t, q, s);
    TakeFirstBySmall(p, h, d, S);
  }

  method Rotate2(p: CNode, h: CNode, d: CNode, ghost t: Tree, ghost q: CNode?, ghost S: set<CNode>)
    requires Case2(t) && Rep(t, q, At(S)) && Distinct(t, S) && p == t.n && h == t.l.n && d == t.m.n
    modifies S
    ensures Replaced(t, q, old(At(S)), Rotated2(t), At(S))
  {
    hide Replaced, Rep, Count;
    ghost var s := At(S);
    assert s.Keys == S;
    RepNode(t, q, s);
    RepLinks(t.l, p, s);
    RepLinks(t.m, p, s);
    Case2Holds(t, q, s);
    TakeFirstBySmall(p, h, d, S);
  }

  method Rotate4(p: CNode, h: CNode, d: CNode, ghost t: Tree, ghost q: CNode?, ghost S: set<CNode>)
    requires Case4(t) && Rep(t, q, At(S)) && Distinct(t, S) && p == t.n && h == t.m.n && d == t.r.n
    modifies S
    ensures Replaced(t, q, old(At(S)), Rotated4(t), At(S))
  {
    hide Replaced, Rep, Count;
    ghost var s := At(S);
    assert s.Keys == S;
    RepNode(t, q, s);
    RepLinks(t.m, p, s);
    RepLinks(t.r, p, s);
    Case4Holds(t, q, s);
    TakeFirstByBig(p, h, d, S);
  }

  method Rotate5(p: CNode, h: CNode, d: CNode, ghost t: Tree, ghost q: CNode?, ghost S: set<CNode>)
    requires Case5(t) && Rep(t, q, At(S)) && Distinct(t, S) && p == t.n && h == t.m.n && d == t.l.n
    modifies S
    ensures Replaced(t, q, old(At(S)), Rotated5(t), At(S))
  {
    hide Replaced, Rep, Count;
    ghost var s := At(S);
    assert s.Keys == S;
    RepNode(t, q, s);
    RepLinks(t.m, p, s);
    RepLinks(t.l, p, s);
    Case5Holds(t, q, s);
    TakeLastBySmall(p, h, d, S);
  }

  method Rotate6(p: CNode, h: CNode, d: CNode, ghost t: Tree, ghost q: CNode?, ghost S: set<CNode>)
    requires Case6(t) && Rep(t, q, At(S)) && Distinct(t, S) && p == t.n && h == t.r.n && d == t.l.n
    modifies S
    ensures Replaced(t, q, old(At(S)), Rotated6(t), At(S))
  {
    hide Replaced, Rep, Count;
    ghost var s := At(S);
    assert s.Keys == S;
    RepNode(t, q, s);
    RepLinks(t.r, p, s);
    RepLinks(t.l, p, s);
    Case6Holds(t, q, s);
    TakeLastBySmall(p, h, d, S);
  }

  method Rotate7(p: CNode, h: CNode, d: CNode, ghost t: Tree, ghost q: CNode?, ghost S: set<CNode>)
    requires Case7(t) && Rep(t, q, At(S)) && Distinct(t, S) && p == t.n && h == t.r.n && d == t.m.n
    modifies S
    ensures Replaced(t, q, old(At(S)), Rotated7(t), At(S))
  {
    hide Replaced, Rep, Count;
    ghost var s := At(S);
    assert s.Keys == S;
    RepNode(t, q, s);
    RepLinks(t.r, p, s);
    RepLinks(t.m, p, s);
    Case7Holds(t, q, s);
    TakeLastByBig(p, h, d, S);
  }

  method Rotate3(p: CNode, l: CNode, m: CNode, r: CNode, ghost t: Tree, ghost q: CNode?, ghost S: set<CNode>)
    requires Case3(t) && Rep(t, q, At(S)) && Distinct(t, S) && p == t.n && l == t.l.n && m == t.m.n && r == t.r.n
    modifies S
    ensures Replaced(t, q, old(At(S)), Rotated3(t), At(S))
  {
    hide Replaced, Rep, Count;
    ghost var s := At(S);
    assert s.Keys == S;
    RepNode(t, q, s);
    RepLinks(t.l, p, s);
    RepLinks(t.m, p, s);
    RepLinks(t.r, p, s);
    Case3Half(t, q, s);
    Case3Holds(t, q, s);
    RegionApart(t, FilledRight(t.l, t.keys.k1, t.m.l), p, Hole(m, t.m.r), t.r, LentFirst(s, p, l, m));
    LendFirst(p, l, m, S);
    RepLinks(t.r, p, At(S));
    TakeFirstUp(p, m, r, S);
  }

  method Rotate8(p: CNode, l: CNode, m: CNode, r: CNode, ghost t: Tree, ghost q: CNode?, ghost S: set<CNode>)
    requires Case8(t) && Rep(t, q, At(S)) && Distinct(t, S) && p == t.n && l == t.l.n && m == t.m.n && r == t.r.n
    modifies S
    ensures Replaced(t, q, old(At(S)), Rotated8(t), At(S))
  {
    hide Replaced, Rep, Count;
    ghost var s := At(S);
    assert s.Keys == S;
    RepNode(t, q, s);
    RepLinks(t.l, p, s);
    RepLinks(t.m, p, s);
    RepLinks(t.r, p, s);
    Case8Half(t, q, s);
    Case8Holds(t, q, s);
    RegionApart(t, FilledLeft(t.r, t.m.r, t.keys.k2), p, Hole(m, t.m.l), t.l, LentLast(s, p, r, m));
    LendLast(p, r, m, S);
    RepLinks(t.l, p, At(S));
    GapLinks(Hole(m, t.m.l), p, At(S));
    TakeLastBySmall(p, m, l, S);
  }

  lemma GapLinks(h: Tree, q: CNode, s: Store)
    requires Gap(h, q, s)
    ensures h.n in s && IsIn(s[h.n].body.children.left, s.Keys)
  {
  }

  // ----- What a rotation means: no key moves, and the hole is filled -----

  lemma FirstAhead(h: Tree, sep: int, d: Tree, rest: seq<int>)
    requires IsHole(h) && IsThree(d)
    ensures Ahead(h, [sep] + Ahead(d, rest)) ==
            Ahead(FilledRight(h, sep, d.l), [d.keys.k1] + Ahead(ButFirst(d), rest))
  {
    AheadHole(h, [sep] + Ahead(d, rest));
    AheadTwo(FilledRight(h, sep, d.l), [d.keys.k1] + Ahead(ButFirst(d), rest));
    AheadTwo(ButFirst(d), rest);
  }

  lemma LastAhead(d: Tree, sep: int, h: Tree, rest: seq<int>)
    requires IsHole(h) && IsThree(d)
    ensures Ahead(d, [sep] + Ahead(h, rest)) ==
            Ahead(ButLast(d), [d.keys.k2] + Ahead(FilledLeft(h, d.r, sep), rest))
  {
    AheadHole(h, rest);
    AheadTwo(FilledLeft(h, d.r, sep), rest);
    AheadTwo(ButLast(d), [d.keys.k2] + Ahead(FilledLeft(h, d.r, sep), rest));
  }

  lemma LentAhead(h: Tree, sep: int, m: Tree, rest: seq<int>)
    requires IsHole(h) && IsTwo(m)
    ensures Ahead(h, [sep] + Ahead(m, rest)) ==
            Ahead(FilledRight(h, sep, m.l), [m.keys.k] + Ahead(Hole(m.n, m.r), rest))
    ensures Ahead(m, [sep] + Ahead(h, rest)) ==
            Ahead(Hole(m.n, m.l), [m.keys.k] + Ahead(FilledLeft(h, m.r, sep), rest))
  {
    AheadHole(h, [sep] + Ahead(m, rest));
    AheadHole(h, rest);
    AheadTwo(m, rest);
    AheadTwo(m, [sep] + Ahead(h, rest));
    AheadTwo(FilledRight(h, sep, m.l), [m.keys.k] + Ahead(Hole(m.n, m.r), rest));
    AheadTwo(FilledLeft(h, m.r, sep), rest);
    AheadHole(Hole(m.n, m.r), rest);
    AheadHole(Hole(m.n, m.l), [m.keys.k] + Ahead(FilledLeft(h, m.r, sep), rest));
  }

  lemma RotatedAhead(t: Tree)
    requires CanRotate(t)
    ensures Ahead(Rotated(t), []) == Ahead(t, [])
  {
    hide Ahead;
    var t' := Rotated(t);
    if IsTwo(t) {
      AheadTwo(t, []);
      AheadTwo(t', []);
      if Case1(t) { FirstAhead(t.l, t.keys.k, t.r, []); } else { LastAhead(t.l, t.keys.k, t.r, []); }
    } else {
      AheadThree(t, []);
      AheadThree(t', []);
      RotatedAheadThree(t);
    }
  }

  lemma RotatedAheadThree(t: Tree)
    requires CanRotate(t) && IsThree(t)
    ensures var t' := Rotated(t);
      Ahead(t'.l, [t'.keys.k1] + Ahead(t'.m, [t'.keys.k2] + Ahead(t'.r, []))) ==
      Ahead(t.l, [t.keys.k1] + Ahead(t.m, [t.keys.k2] + Ahead(t.r, [])))
  {
    hide Ahead;
    if Case2(t) {
      FirstAhead(t.l, t.keys.k1, t.m, [t.keys.k2] + Ahead(t.r, []));
    } else if Case3(t) {
      LentAhead(t.l, t.keys.k1, t.m, [t.keys.k2] + Ahead(t.r, []));
      FirstAhead(Hole(t.m.n, t.m.r), t.keys.k2, t.r, []);
    } else if Case4(t) {
      FirstAhead(t.m, t.keys.k2, t.r, []);
    } else if Case5(t) {
      LastAhead(t.l, t.keys.k1, t.m, [t.keys.k2] + Ahead(t.r, []));
    } else if Case7(t) {
      LastAhead(t.m, t.keys.k2, t.r, []);
    } else {
      LentAhead(t.r, t.keys.k2, t.m, []);
      LastAhead(t.l, t.keys.k1, Hole(t.m.n, t.m.l), [t.m.keys.k] + Ahead(FilledLeft(t.r, t.m.r, t.keys.k2), []));
    }
  }

  lemma RotatedInorder(t: Tree)
    requires CanRotate(t)
    ensures Inorder(Rotated(t)) == Inorder(t)
  {
    hide *;
    RotatedAhead(t);
    AheadInorder(t, []);
    AheadInorder(Rotated(t), []);
    assert Inorder(t) + [] == Inorder(t) && Inorder(Rotated(t)) + [] == Inorder(Rotated(t));
  }
}
