// The rotations that repair a hole from a neighbouring three node
// (CTree::localRotation, cases 1 to 8): what the assignments of each case do
// to the store, and which tree that store then holds.
module TwoThreeRotation {
  import opened TwoThreeNode
  import opened TwoThreeShape

  function WithSmall(b: Body, k: int): Body {
    b.(small := k, smallSet := true)
  }

  function WithBig(b: Body, k: int): Body {
    b.(big := k, bigSet := true)
  }

  // ----- The common tails of cases 1 to 4 and of cases 5 to 8 -----

  function DroppedFirst(s: Store, r: CNode): Store
    requires r in s
  {
    var s1 := PutSmallKey(s, r, s[r].body.big);
    var s2 := DropBigKey(s1, r);
    var s3 := PutChild(s2, r, LeftChild, s2[r].body.children.middle);
    PutChild(s3, r, MiddleChild, null)
  }

  method DropFirst(r: CNode, ghost S: set<CNode>)
    requires r in S && IsIn(r.children.middle, S)
    modifies S
    ensures At(S) == DroppedFirst(old(At(S)), r)
  {
    r.SetSmallKey(r.bigKey, S);
    r.UnsetBigKey(S);
    r.SetChild(LeftChild, r.children.middle, S);
    r.SetChild(MiddleChild, null, S);
  }

  function DroppedLast(s: Store, l: CNode): Store
    requires l in s
  {
    var s1 := DropBigKey(s, l);
    var s2 := PutChild(s1, l, RightChild, s1[l].body.children.middle);
    PutChild(s2, l, MiddleChild, null)
  }

  method DropLast(l: CNode, ghost S: set<CNode>)
    requires l in S && IsIn(l.children.middle, S)
    modifies S
    ensures At(S) == DroppedLast(old(At(S)), l)
  {
    l.UnsetBigKey(S);
    l.SetChild(RightChild, l.children.middle, S);
    l.SetChild(MiddleChild, null, S);
  }

  // ----- Cases 1, 2 and 4: take from the right neighbour -----

  function TookFirstBySmall(s: Store, p: CNode, h: CNode, d: CNode): Store
    requires p in s && h in s && d in s
  {
    var s1 := PutSmallKey(s, h, s[p].body.small);
    var s2 := PutChild(s1, h, RightChild, s1[d].body.children.left);
    var s3 := PutSmallKey(s2, p, s2[d].body.small);
    DroppedFirst(s3, d)
  }

  // Cases 1 and 2: through the small key of the parent.
  method TakeFirstBySmall(p: CNode, h: CNode, d: CNode, ghost S: set<CNode>)
    requires p in S && h in S && d in S && p != h && p != d && h != d
    requires IsIn(d.children.left, S) && IsIn(d.children.middle, S)
    modifies S
    ensures At(S) == TookFirstBySmall(old(At(S)), p, h, d)
  {
    h.SetSmallKey(p.smallKey, S);
    h.SetChild(RightChild, d.children.left, S);
    p.SetSmallKey(d.smallKey, S);
    DropFirst(d, S);
  }

  function TookFirstByBig(s: Store, p: CNode, h: CNode, d: CNode): Store
    requires p in s && h in s && d in s
  {
    var s1 := PutSmallKey(s, h, s[p].body.big);
    var s2 := PutChild(s1, h, RightChild, s1[d].body.children.left);
    var s3 := PutBigKey(s2, p, s2[d].body.small);
    DroppedFirst(s3, d)
  }

  // Case 4: through the big key of the parent.
  method TakeFirstByBig(p: CNode, h: CNode, d: CNode, ghost S: set<CNode>)
    requires p in S && h in S && d in S && p != h && p != d && h != d
    requires IsIn(d.children.left, S) && IsIn(d.children.middle, S)
    modifies S
    ensures At(S) == TookFirstByBig(old(At(S)), p, h, d)
  {
    h.SetSmallKey(p.bigKey, S);
    h.SetChild(RightChild, d.children.left, S);
    p.SetBigKey(d.smallKey, S);
    DropFirst(d, S);
  }

  // What both do to the store, besides the parent's key.
  ghost predicate FirstMoved(s: Store, s': Store, p: CNode, h: CNode, d: CNode, sep: int)
    requires p in s && h in s && d in s
  {
    var db := s[d].body;
    s'.Keys == s.Keys &&
    s'[h].body == WithSmall(s[h].body, sep).(children := s[h].body.children.(right := db.children.left)) &&
    s'[p].body.children == s[p].body.children &&
    s'[d].body == WithSmall(db, db.big).(bigSet := false, children := Children(db.children.middle, null, db.children.right)) &&
    forall x :: x in s ==>
      (x !in {p, h, d} ==> s'[x].body == s[x].body) &&
      s'[x].parent == if x == db.children.middle then d else if x == db.children.left then h else s[x].parent
  }

  lemma TookFirstBySmallMoves(s: Store, p: CNode, h: CNode, d: CNode)
    requires p in s && h in s && d in s && p != h && p != d && h != d
    ensures var s' := TookFirstBySmall(s, p, h, d);
      FirstMoved(s, s', p, h, d, s[p].body.small) && s'[p].body == WithSmall(s[p].body, s[d].body.small)
  {
  }

  lemma TookFirstByBigMoves(s: Store, p: CNode, h: CNode, d: CNode)
    requires p in s && h in s && d in s && p != h && p != d && h != d
    ensures var s' := TookFirstByBig(s, p, h, d);
      FirstMoved(s, s', p, h, d, s[p].body.big) && s'[p].body == WithBig(s[p].body, s[d].body.small)
  {
  }

  // ----- Cases 5, 6 and 7: take from the left neighbour -----

  function TookLastBySmall(s: Store, p: CNode, h: CNode, d: CNode): Store
    requires p in s && h in s && d in s
  {
    var s1 := PutSmallKey(s, h, s[p].body.small);
    var s2 := PutChild(s1, h, RightChild, s1[h].body.children.left);
    var s3 := PutChild(s2, h, LeftChild, s2[d].body.children.right);
    var s4 := PutSmallKey(s3, p, s3[d].body.big);
    DroppedLast(s4, d)
  }

  // Cases 5 and 6: through the small key of the parent.
  method TakeLastBySmall(p: CNode, h: CNode, d: CNode, ghost S: set<CNode>)
    requires p in S && h in S && d in S && p != h && p != d && h != d
    requires IsIn(h.children.left, S) && IsIn(d.children.right, S) && IsIn(d.children.middle, S)
    modifies S
    ensures At(S) == TookLastBySmall(old(At(S)), p, h, d)
  {
    h.SetSmallKey(p.smallKey, S);
    h.SetChild(RightChild, h.children.left, S);
    h.SetChild(LeftChild, d.children.right, S);
    p.SetSmallKey(d.bigKey, S);
    DropLast(d, S);
  }

  function TookLastByBig(s: Store, p: CNode, h: CNode, d: CNode): Store
    requires p in s && h in s && d in s
  {
    var s1 := PutSmallKey(s, h, s[p].body.big);
    var s2 := PutChild(s1, h, RightChild, s1[h].body.children.left);
    var s3 := PutChild(s2, h, LeftChild, s2[d].body.children.right);
    var s4 := PutBigKey(s3, p, s3[d].body.big);
    DroppedLast(s4, d)
  }

  // Case 7: through the big key of the parent.
  method TakeLastByBig(p: CNode, h: CNode, d: CNode, ghost S: set<CNode>)
    requires p in S && h in S && d in S && p != h && p != d && h != d
    requires IsIn(h.children.left, S) && IsIn(d.children.right, S) && IsIn(d.children.middle, S)
    modifies S
    ensures At(S) == TookLastByBig(old(At(S)), p, h, d)
  {
    h.SetSmallKey(p.bigKey, S);
    h.SetChild(RightChild, h.children.left, S);
    h.SetChild(LeftChild, d.children.right, S);
    p.SetBigKey(d.bigKey, S);
    DropLast(d, S);
  }

  ghost predicate LastMoved(s: Store, s': Store, p: CNode, h: CNode, d: CNode, sep: int)
    requires p in s && h in s && d in s
  {
    var hb, db := s[h].body, s[d].body;
    s'.Keys == s.Keys &&
    s'[h].body == WithSmall(hb, sep).(children := Children(db.children.right, hb.children.middle, hb.children.left)) &&
    s'[p].body.children == s[p].body.children &&
    s'[d].body == db.(bigSet := false, children := Children(db.children.left, null, db.children.middle)) &&
    forall x :: x in s ==>
      (x !in {p, h, d} ==> s'[x].body == s[x].body) &&
      s'[x].parent ==
        if x == db.children.middle then d
        else if x == db.children.right then h
        else if x == hb.children.left then h else s[x].parent
  }

  lemma TookLastBySmallMoves(s: Store, p: CNode, h: CNode, d: CNode)
    requires p in s && h in s && d in s && p != h && p != d && h != d
    ensures var s' := TookLastBySmall(s, p, h, d);
      LastMoved(s, s', p, h, d, s[p].body.small) && s'[p].body == WithSmall(s[p].body, s[d].body.big)
  {
  }

  lemma TookLastByBigMoves(s: Store, p: CNode, h: CNode, d: CNode)
    requires p in s && h in s && d in s && p != h && p != d && h != d
    ensures var s' := TookLastByBig(s, p, h, d);
      LastMoved(s, s', p, h, d, s[p].body.big) && s'[p].body == WithBig(s[p].body, s[d].body.big)
  {
  }

  // ----- Case 3: through the middle node from the right one; case 8: mirrored -----

  // The first half of case 3: the hole l takes from the middle node m, which
  // is left with one child and the parent's big key.
  function LentFirst(s: Store, p: CNode, l: CNode, m: CNode): Store
    requires p in s && l in s && m in s
  {
    var s1 := PutSmallKey(s, l, s[p].body.small);
    var s2 := PutChild(s1, l, RightChild, s1[m].body.children.left);
    var s3 := PutSmallKey(s2, p, s2[m].body.small);
    var s4 := PutSmallKey(s3, m, s3[p].body.big);
    PutChild(s4, m, LeftChild, s4[m].body.children.right)
  }

  method LendFirst(p: CNode, l: CNode, m: CNode, ghost S: set<CNode>)
    requires p in S && l in S && m in S && p != l && p != m && l != m
    requires IsIn(m.children.left, S) && IsIn(m.children.right, S)
    modifies S
    ensures At(S) == LentFirst(old(At(S)), p, l, m)
  {
    hide PutChild, PutSmallKey, PutBigKey;
    l.SetSmallKey(p.smallKey, S);
    l.SetChild(RightChild, m.children.left, S);
    p.SetSmallKey(m.smallKey, S);
    m.SetSmallKey(p.bigKey, S);
    m.SetChild(LeftChild, m.children.right, S);
  }

  ghost predicate FirstLent(s: Store, s': Store, p: CNode, l: CNode, m: CNode)
    requires p in s && l in s && m in s
  {
    var lb, mb := s[l].body, s[m].body;
    s'.Keys == s.Keys &&
    s'[p].body == WithSmall(s[p].body, mb.small) &&
    s'[l].body == WithSmall(lb, s[p].body.small).(children := lb.children.(right := mb.children.left)) &&
    s'[m].body == WithSmall(mb, s[p].body.big).(children := mb.children.(left := mb.children.right)) &&
    forall x :: x in s ==>
      (x !in {p, l, m} ==> s'[x].body == s[x].body) &&
      s'[x].parent == if x == mb.children.right then m else if x == mb.children.left then l else s[x].parent
  }

  lemma LentFirstMoves(s: Store, p: CNode, l: CNode, m: CNode)
    requires p in s && l in s && m in s && p != l && p != m && l != m
    ensures FirstLent(s, LentFirst(s, p, l, m), p, l, m)
  {
  }

  // The second half of case 3: m takes from r, whose first key moves up.
  function TookFirstUp(s: Store, p: CNode, m: CNode, r: CNode): Store
    requires p in s && m in s && r in s
  {
    var s1 := PutChild(s, m, RightChild, s[r].body.children.left);
    var s2 := PutBigKey(s1, p, s1[r].body.small);
    DroppedFirst(s2, r)
  }

  method TakeFirstUp(p: CNode, m: CNode, r: CNode, ghost S: set<CNode>)
    requires p in S && m in S && r in S && p != m && p != r && m != r
    requires IsIn(r.children.left, S) && IsIn(r.children.middle, S)
    modifies S
    ensures At(S) == TookFirstUp(old(At(S)), p, m, r)
  {
    m.SetChild(RightChild, r.children.left, S);
    p.SetBigKey(r.smallKey, S);
    DropFirst(r, S);
  }

  lemma TookFirstUpMoves(s: Store, p: CNode, m: CNode, r: CNode)
    requires p in s && m in s && r in s && p != m && p != r && m != r && s[m].body.smallSet
    ensures var s' := TookFirstUp(s, p, m, r);
      FirstMoved(s, s', p, m, r, s[m].body.small) && s'[p].body == WithBig(s[p].body, s[r].body.small)
  {
  }

  // The first half of case 8: the hole r takes from the middle node m, which
  // is left with one child; the second half is case 5 between m and l.
  function LentLast(s: Store, p: CNode, r: CNode, m: CNode): Store
    requires p in s && r in s && m in s
  {
    var s1 := PutSmallKey(s, r, s[p].body.big);
    var s2 := PutChild(s1, r, RightChild, s1[r].body.children.left);
    var s3 := PutChild(s2, r, LeftChild, s2[m].body.children.right);
    PutBigKey(s3, p, s3[m].body.small)
  }

  method LendLast(p: CNode, r: CNode, m: CNode, ghost S: set<CNode>)
    requires p in S && r in S && m in S && p != r && p != m && r != m
    requires IsIn(r.children.left, S) && IsIn(m.children.right, S)
    modifies S
    ensures At(S) == LentLast(old(At(S)), p, r, m)
  {
    r.SetSmallKey(p.bigKey, S);
    r.SetChild(RightChild, r.children.left, S);
    r.SetChild(LeftChild, m.children.right, S);
    p.SetBigKey(m.smallKey, S);
  }

  ghost predicate LastLent(s: Store, s': Store, p: CNode, r: CNode, m: CNode)
    requires p in s && r in s && m in s
  {
    var rb, mb := s[r].body, s[m].body;
    s'.Keys == s.Keys &&
    s'[p].body == WithBig(s[p].body, mb.small) &&
    s'[r].body == WithSmall(rb, s[p].body.big).(children := Children(mb.children.right, rb.children.middle, rb.children.left)) &&
    s'[m].body == mb &&
    forall x :: x in s ==>
      (x !in {p, r, m} ==> s'[x].body == s[x].body) &&
      s'[x].parent == if x == mb.children.right then r else if x == rb.children.left then r else s[x].parent
  }

  lemma LentLastMoves(s: Store, p: CNode, r: CNode, m: CNode)
    requires p in s && r in s && m in s && p != r && p != m && r != m
    ensures LastLent(s, LentLast(s, p, r, m), p, r, m)
  {
  }
}
