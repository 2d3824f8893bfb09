// Insertion, search and decrease-key of the binomial heap (BinomialHeap.cpp) on
// linked nodes: every link that is set is accounted for, and the methods are proved
// against the functions of BinomialValues.
module BinomialHeap {
  import opened BinomialShape
  import opened BinomialValues
  import opened BinomialUnion
  import opened BinomialMerge

  // ----- Linking two neighbouring roots -----

  // The root x takes y, its right neighbour, before the list r.
  ghost predicate LinkedFirst(s: Store, s': Store, x: Node, y: Node)
    requires x in s && y in s
  {
    s'.Keys == s.Keys &&
    s'[x] == s[x].(sibling := s[y].sibling, child := y, degree := s[x].degree + 1) &&
    s'[y] == s[y].(parent := x, sibling := s[x].child) &&
    forall n :: n in s && n != x && n != y ==> s'[n] == s[n]
  }

  // The root y takes x, its left neighbour; prev's link leads to y.
  ghost predicate LinkedSecond(s: Store, s': Store, x: Node, y: Node, prev: Node?)
    requires x in s && y in s
  {
    s'.Keys == s.Keys &&
    s'[x] == s[x].(parent := y, sibling := s[y].child) &&
    s'[y] == s[y].(child := x, degree := s[y].degree + 1) &&
    forall n :: n in s && n != x && n != y ==> s'[n] == if n == prev then s[n].(sibling := y) else s[n]
  }

  ghost predicate Exact(f: Forest, S: set<Node>) {
    forall x :: x in S ==> Count(f, x) == 1
  }

  ghost predicate Disjoint(c: Prefix, f: Forest, s: Store)
    requires f.Cons? && f.rest.Cons?
  {
    forall n :: n in s ==>
      CountBefore(c, n) + One(f.p, n) + Count(f.kids, n) + One(f.rest.p, n) + Count(f.rest.kids, n) + Count(f.rest.rest, n) == 1
  }

  // What the methods see from the root of f on, and how its parts are apart.
  lemma RootsAt(c: Prefix, f: Forest, s: Store)
    requires Rep(Plug(c, f), null, s) && Exact(Plug(c, f), s.Keys) && f.Cons? && f.rest.Cons?
    ensures f.p in s && s[f.p] == Cell(f.k, f.d, null, Head(f.kids), f.rest.p) && Rep(f.kids, f.p, s)
    ensures var y := f.rest;
      y.p in s && s[y.p] == Cell(y.k, y.d, null, Head(y.kids), Head(y.rest)) && Rep(y.kids, y.p, s) && Rep(y.rest, null, s)
    ensures Disjoint(c, f, s)
    ensures !c.Start? ==> c.p in s && s[c.p].sibling == f.p
    ensures f.rest.rest.Cons? ==> f.rest.rest.p in s && s[f.rest.rest.p].degree == f.rest.rest.d
  {
    hide Count, Rep;
    PlugRep(c, f, s);
    RepCons(f, null, s);
    RepCons(f.rest, null, s);
    RepCons(f.rest.rest, null, s);
    forall n | n in s
      ensures CountBefore(c, n) + One(f.p, n) + Count(f.kids, n) + One(f.rest.p, n) + Count(f.rest.kids, n) + Count(f.rest.rest, n) == 1
    {
      PlugCount(c, f, n);
      ConsCounts(f, n);
      ConsCounts(f.rest, n);
    }
  }

  // A part without the nodes that changed.
  lemma Untouched(f: Forest, q: Node?, s: Store, s': Store, x: Node, y: Node, prev: Node?)
    requires Rep(f, q, s)
    requires forall n :: n in s && n != x && n != y && n != prev ==> n in s' && s'[n] == s[n]
    requires forall n :: n in s && Count(f, n) > 0 ==> n != x && n != y && n != prev
    ensures Rep(f, q, s')
  {
    Kept(f, q, s, s');
  }

  lemma PartsApart(c: Prefix, f: Forest, s: Store)
    requires f.Cons? && f.rest.Cons? && Disjoint(c, f, s) && f.p in s && f.rest.p in s && (!c.Start? ==> c.p in s)
    ensures f.p != f.rest.p && (!c.Start? ==> c.p != f.p && c.p != f.rest.p)
    ensures forall n :: n in s && Count(f.kids, n) > 0 ==> n != f.p && n != f.rest.p && (!c.Start? ==> n != c.p)
    ensures forall n :: n in s && Count(f.rest.kids, n) > 0 ==> n != f.p && n != f.rest.p && (!c.Start? ==> n != c.p)
    ensures forall n :: n in s && Count(f.rest.rest, n) > 0 ==> n != f.p && n != f.rest.p && (!c.Start? ==> n != c.p)
    ensures forall n :: n in s && CountBefore(c, n) > 0 ==> n != f.p && n != f.rest.p
    ensures forall n :: n in s ==> CountBefore(c, n) <= 1
  {
    hide Count;
    assert !c.Start? ==> CountBefore(c, c.p) > 0;
  }

  function Last(c: Prefix): Node? {
    if c.Start? then null else c.p
  }

  lemma TakesCounts(f: Forest, n: Node)
    requires f.Cons? && f.rest.Cons?
    ensures Count(FirstTakes(f), n) == Count(SecondTakes(f), n) == Count(f, n)
  {
    var y := f.rest;
    ConsCounts(f, n);
    ConsCounts(y, n);
    ConsCounts(FirstTakes(f), n);
    ConsCounts(FirstTakes(f).kids, n);
    ConsCounts(SecondTakes(f), n);
    ConsCounts(SecondTakes(f).kids, n);
  }

  lemma ExactPlug(c: Prefix, f: Forest, f': Forest, S: set<Node>)
    requires Exact(Plug(c, f), S) && forall n :: n in S ==> Count(f', n) == Count(f, n)
    ensures Exact(Plug(c, f'), S)
  {
    forall n | n in S ensures Count(Plug(c, f'), n) == 1 {
      PlugCount(c, f, n);
      PlugCount(c, f', n);
    }
  }

  lemma FirstTakesWhole(c: Prefix, f: Forest, s: Store, s': Store)
    requires Rep(Plug(c, f), null, s) && Exact(Plug(c, f), s.Keys) && f.Cons? && f.rest.Cons?
    requires f.p in s && f.rest.p in s && LinkedFirst(s, s', f.p, f.rest.p)
    ensures var g := Plug(c, FirstTakes(f)); Rep(g, null, s') && Exact(g, s'.Keys) && Head(g) == Head(Plug(c, f))
  {
    hide Count, Rep;
    var y, g := f.rest, FirstTakes(f);
    RootsAt(c, f, s);
    PartsApart(c, f, s);
    Untouched(f.kids, f.p, s, s', f.p, y.p, null);
    Untouched(y.kids, y.p, s, s', f.p, y.p, null);
    Untouched(y.rest, null, s, s', f.p, y.p, null);
    RepMake(g.kids, f.p, s');
    RepMake(g, null, s');
    if !c.Start? { PlugRep(c, f, s); }
    Replug(c, f, s, g, s');
    forall n | n in s ensures Count(g, n) == Count(f, n) { TakesCounts(f, n); }
    ExactPlug(c, f, g, s.Keys);
    PlugHead(c, f, g);
    PlugHead(c, g, f);
  }

  lemma SecondTakesWhole(c: Prefix, f: Forest, s: Store, s': Store)
    requires Rep(Plug(c, f), null, s) && Exact(Plug(c, f), s.Keys) && f.Cons? && f.rest.Cons?
    requires f.p in s && f.rest.p in s && LinkedSecond(s, s', f.p, f.rest.p, Last(c))
    ensures var g := Plug(c, SecondTakes(f));
      Rep(g, null, s') && Exact(g, s'.Keys) && Head(g) == if c.Start? then f.rest.p else Head(Plug(c, f))
  {
    hide Count, Rep;
    var y, g := f.rest, SecondTakes(f);
    RootsAt(c, f, s);
    PartsApart(c, f, s);
    Untouched(f.kids, f.p, s, s', f.p, y.p, Last(c));
    Untouched(y.kids, y.p, s, s', f.p, y.p, Last(c));
    Untouched(y.rest, null, s, s', f.p, y.p, Last(c));
    RepMake(g.kids, y.p, s');
    RepMake(g, null, s');
    Replug(c, f, s, g, s');
    forall n | n in s ensures Count(g, n) == Count(f, n) { TakesCounts(f, n); }
    ExactPlug(c, f, g, s.Keys);
    PlugHead(c, f, g);
    PlugHead(c, g, f);
  }

  // ----- Heap order -----

  // No node has a smaller key than its parent.
  ghost predicate Ordered(s: Store) {
    forall n :: n in s && s[n].parent != null && s[n].parent in s ==> s[s[n].parent].n <= s[n].n
  }

  // Only the root y has got another parent, z, with no larger key.
  lemma LinkedOrdered(s: Store, s': Store, y: Node, z: Node)
    requires Ordered(s) && s'.Keys == s.Keys && y in s && z in s && s[z].n <= s[y].n && s'[y].parent == z
    requires forall n :: n in s ==> s'[n].n == s[n].n && (n != y ==> s'[n].parent == s[n].parent)
    ensures Ordered(s')
  {
  }

  // The three nodes that linking touches are different ones.
  lemma RootsApart(c: Prefix, f: Forest, s: Store)
    requires f.Cons? && f.rest.Cons? && Disjoint(c, f, s) && f.p in s && f.rest.p in s && (!c.Start? ==> c.p in s)
    ensures f.p != f.rest.p && (!c.Start? ==> c.p != f.p && c.p != f.rest.p)
  {
    hide Count, Disjoint;
    PartsApart(c, f, s);
  }

  // ----- Two heaps, and the merged list -----

  lemma RestrictedOrdered(s: Store, s': Store)
    requires Ordered(s) && forall n :: n in s' ==> n in s && s'[n].n == s[n].n && s'[n].parent == s[n].parent
    ensures Ordered(s')
  {
  }

  // Two lists on nodes of their own.
  lemma Beside(f: Forest, s1: Store, g: Forest, s2: Store, s: Store)
    requires Rep(f, null, s1) && Exact(f, s1.Keys) && Ordered(s1) && Rep(g, null, s2) && Exact(g, s2.Keys) && Ordered(s2)
    requires s1.Keys !! s2.Keys && s.Keys == s1.Keys + s2.Keys
    requires (forall n :: n in s1 ==> s[n] == s1[n]) && (forall n :: n in s2 ==> s[n] == s2[n])
    ensures Between(Start, f, g, s) && Ordered(s)
    ensures forall n :: n in s ==> Count(f, n) + Count(g, n) == 1
  {
    hide Rep, Count;
    Kept(f, null, s1, s);
    Kept(g, null, s2, s);
    forall n | n in s ensures Count(f, n) + Count(g, n) == 1 {
      if n in s1 { CountOutside(g, null, s2, n); } else { CountOutside(f, null, s1, n); }
    }
    forall n | n in s && s[n].parent != null && s[n].parent in s ensures s[s[n].parent].n <= s[n].n {
      if n in s1 { ParentsIn(f, null, s1, n); } else { ParentsIn(g, null, s2, n); }
    }
    assert Plug(Start, f) == f;
  }

  // The nodes that the merged list still leads to.
  ghost function KeptNodes(f: Forest, g: Forest, S: set<Node>): (r: set<Node>)
    ensures r <= S
  {
    set n | n in S && Count(Merged(f, g), n) > 0
  }

  // The nodes of S in trees that stay.
  ghost function StayingNodes(f: Forest, g: Forest, S: set<Node>): (r: set<Node>)
    ensures r <= S
  {
    set n | n in S && Count(Staying(f, g), n) > 0
  }

  lemma AllKept(f: Forest, g: Forest, S1: set<Node>, s: Store, S2: set<Node>)
    requires Heap(f, 0) && Heap(g, 0) && Exact(f, S1) && s.Keys == S1 && Rep(f, null, s) && S1 !! S2
    requires Exact(g, S2)
    ensures KeptNodes(f, g, S1 + S2) == S1 + StayingNodes(f, g, S2)
    ensures Meets(Degrees(f), Degrees(g)) ==> KeptNodes(f, g, S1 + S2) == S1 + S2
  {
    hide Count, Merged, Staying, Rep, Meets, Degrees, Heap, MergeKeeps;
    MergeKeepsExactly(f, g);
    forall n | n in S1 + S2 && MergeKeeps(f, g) ensures n in KeptNodes(f, g, S1 + S2) { MergedCounts(f, g, n); }
    forall n | n in S1 + S2 ensures n in KeptNodes(f, g, S1 + S2) <==> n in S1 + StayingNodes(f, g, S2) {
      NodesKept(f, g, n);
      if n in S2 { CountOutside(f, null, s, n); }
    }
  }

  lemma KeptOnly(f: Forest, g: Forest, s: Store, S: set<Node>)
    requires Rep(Merged(f, g), null, At(S)) && Ordered(s) && OnlySiblings(s, At(S))
    requires forall n :: n in s ==> Count(f, n) + Count(g, n) == 1
    ensures var N := KeptNodes(f, g, S);
      Rep(Merged(f, g), null, At(N)) && Exact(Merged(f, g), N) && Ordered(At(N)) && (MergeKeeps(f, g) ==> N == S)
  {
    hide Rep, Count, Merged, MergeKeeps, Ordered;
    var m, N := Merged(f, g), KeptNodes(f, g, S);
    assert s.Keys == At(S).Keys == S && At(N).Keys == N;
    forall n | n in S ensures Count(m, n) <= 1 && (MergeKeeps(f, g) ==> Count(m, n) == 1) { MergedCounts(f, g, n); }
    Kept(m, null, At(S), At(N));
    RestrictedOrdered(s, At(N));
  }

  class BinomialHeap {
    var H: Node?
    ghost var nodes: set<Node>
    ghost var trees: Forest

    ghost predicate Holds()
      reads this, nodes
    {
      H == Head(trees) && Rep(trees, null, At(nodes)) && Exact(trees, nodes)
    }

    ghost predicate Valid()
      reads this, nodes
    {
      Holds() && Heap(trees, 0) && Ordered(At(nodes))
    }

    constructor ()
      ensures Valid() && trees == Nil && nodes == {}
    {
      H, nodes, trees := null, {}, Nil;
    }

    // y goes below z.
    method BinomialLink(y: Node, z: Node)
      requires y != z
      modifies y`parent, y`sibling, z`child, z`degree
      ensures y.parent == z && y.sibling == old(z.child) && z.child == y && z.degree == old(z.degree) + 1
    {
      y.parent := z;
      y.sibling := z.child;
      z.child := y;
      z.degree := z.degree + 1;
    }

    // One round of the loop of Union, at x, that links: x takes its neighbour, or
    // goes below it.
    method TakeNext(x: Node, nextX: Node, ghost c: Prefix, ghost f: Forest)
      requires Holds() && trees == Plug(c, f) && f.Cons? && f.rest.Cons? && f.p == x && f.rest.p == nextX
      requires Ordered(At(nodes)) && f.k <= f.rest.k
      modifies this`trees, nodes
      ensures Holds() && Ordered(At(nodes)) && trees == Plug(c, FirstTakes(f))
    {
      hide Rep, Exact, Plug, Disjoint, Count, CountBefore, FirstTakes, SecondTakes, Ordered;
      ghost var s := At(nodes);
      assert s.Keys == nodes;
      RootsAt(c, f, s);
      RootsApart(c, f, s);
      x.sibling := nextX.sibling;
      BinomialLink(nextX, x);
      FirstTakesWhole(c, f, s, At(nodes));
      LinkedOrdered(s, At(nodes), nextX, x);
      trees := Plug(c, FirstTakes(f));
      assert At(nodes).Keys == nodes;
    }

    method GoBelowNext(prevX: Node?, x: Node, nextX: Node, ghost c: Prefix, ghost f: Forest)
      requires Holds() && trees == Plug(c, f) && f.Cons? && f.rest.Cons? && f.p == x && f.rest.p == nextX && prevX == Last(c)
      requires Ordered(At(nodes)) && f.k > f.rest.k
      modifies this`H, this`trees, nodes
      ensures Holds() && Ordered(At(nodes)) && trees == Plug(c, SecondTakes(f))
    {
      hide Rep, Exact, Plug, Disjoint, Count, CountBefore, FirstTakes, SecondTakes, Ordered;
      ghost var s := At(nodes);
      assert s.Keys == nodes;
      RootsAt(c, f, s);
      RootsApart(c, f, s);
      PlugHead(c, f, f);
      if prevX == null {
        H := nextX;
      } else {
        prevX.sibling := nextX;
      }
      BinomialLink(x, nextX);
      SecondTakesWhole(c, f, s, At(nodes));
      LinkedOrdered(s, At(nodes), x, nextX);
      trees := Plug(c, SecondTakes(f));
      assert At(nodes).Keys == nodes;
    }

    // The links of Merge, in the lists from H1 and H2; a and b are what is left of them.
    method Merge(H1: Node?, H2: Node?, ghost f: Forest, ghost g: Forest, ghost S: set<Node>) returns (h: Node?)
      requires Between(Start, f, g, At(S)) && H1 == Head(f) && H2 == Head(g)
      modifies S
      ensures Rep(Merged(f, g), null, At(S)) && h == Head(Merged(f, g)) && OnlySiblings(old(At(S)), At(S))
    {
      hide Rep, Between, Merging, Merged;
      h := null;
      var y, z := H1, H2;
      RootsSeen(Start, f, g, At(S));
      if y != null {
        if z != null {
          if y.degree <= z.degree {
            h := y;
          } else {
            h := z;
          }
        } else {
          h := y;
        }
      } else {
        h := z;
      }
      ghost var s, c, a, b, first := At(S), Start, f, g, StartsFirst(f, g);
      MergeBegins(f, g, s);
      while y != null && z != null
        invariant y == Head(a) && z == Head(b) && OnlySiblings(s, At(S)) && Merging(c, a, b, first, f, g, h, At(S))
        decreases Length(a) + Length(b)
      {
        ghost var s1 := At(S);
        MergingSeen(c, a, b, first, f, g, h, s1);
        if y.degree < z.degree {
          c := PassSmaller(c, a, b, first, f, g, h, s1);
          y, a := y.sibling, a.rest;
        } else if y.degree == z.degree {
          var next := y.sibling;
          y.SetSibling(z, S);
          c := LinkEqual(c, a, b, first, f, g, h, s1, At(S));
          y, a, first := next, a.rest, false;
        } else {
          var next := z.sibling;
          z.SetSibling(y, S);
          c := LinkSmaller(c, a, b, first, f, g, h, s1, At(S));
          z, b, first := next, b.rest, true;
        }
      }
      MergeEnds(c, a, b, first, f, g, h, At(S));
    }

    // Merge with a heap on other nodes; a node that no link leads to is no more of the heap.
    method MergeWith(H2: Node?, ghost g: Forest, ghost S2: set<Node>)
      requires Valid() && nodes !! S2 && H2 == Head(g) && Rep(g, null, At(S2)) && Exact(g, S2) && Ordered(At(S2))
      modifies this, nodes, S2
      ensures Holds() && Ordered(At(nodes)) && trees == Merged(old(trees), g)
      ensures nodes == KeptNodes(old(trees), g, old(nodes) + S2)
    {
      hide Rep, Exact, Ordered, Heap, Count, Merged, MergeKeeps, Between, KeptNodes, OnlySiblings;
      ghost var f, S := trees, nodes + S2;
      ghost var s := At(S);
      assert At(nodes).Keys == nodes && At(S2).Keys == S2 && s.Keys == S;
      Beside(f, At(nodes), g, At(S2), s);
      H := Merge(H, H2, f, g, S);
      nodes, trees := KeptNodes(f, g, S), Merged(f, g);
      KeptOnly(f, g, s, S);
    }

    // Union with such a heap: what the heap has stays, and of the other one the trees
    // whose degrees stay do; no key is lost exactly if the degrees meet.
    method Union(H2: Node?, ghost g: Forest, ghost S2: set<Node>)
      requires Valid() && nodes !! S2 && H2 == Head(g) && Rep(g, null, At(S2)) && Exact(g, S2) && Heap(g, 0) && Ordered(At(S2))
      modifies this, nodes, S2
      ensures Valid() && trees == United(old(trees), g)
      ensures nodes == old(nodes) + StayingNodes(old(trees), g, S2)
      ensures Keys(trees) == Keys(old(trees)) + Keys(Staying(old(trees), g))
      ensures Meets(Degrees(old(trees)), Degrees(g)) <==> Keys(trees) == Keys(old(trees)) + Keys(g)
      ensures Meets(Degrees(old(trees)), Degrees(g)) ==> nodes == old(nodes) + S2
    {
      hide Rep, Exact, Ordered, Heap, Keys, Degrees, Meets, Merged, Staying, KeptNodes, StayingNodes;
      UnitedExactly(trees, g);
      AllKept(trees, g, nodes, At(nodes), S2);
      MergeWith(H2, g, S2);
      if H != null {
        Consolidate();
      }
    }

    // The loop of Union, over the merged list.
    method Consolidate()
      requires Holds() && H != null && Ordered(At(nodes))
      modifies this`H, this`trees, nodes
      ensures Holds() && Ordered(At(nodes)) && trees == Consolidated(old(trees))
    {
      hide Rep, Exact, Ordered;
      ghost var c, f := Start, trees;
      var prevX: Node?, x, nextX := null, H, H.sibling;
      SeesRoot(c, f, nodes);
      while nextX != null
        invariant Holds() && Ordered(At(nodes)) && trees == Plug(c, f) && f.Cons? && f.p == x && prevX == Last(c)
        invariant x in nodes && x.sibling == nextX && nextX == Head(f.rest)
        invariant Plug(c, Consolidated(f)) == Consolidated(old(trees))
        decreases Length(f)
      {
        assert At(nodes).Keys == nodes;
        RootsAt(c, f, At(nodes));
        if x.degree != nextX.degree || (nextX.sibling != null && nextX.sibling.degree == x.degree) {
          c, f := After(c, f.p, f.k, f.d, f.kids), f.rest;
          prevX := x;
          x := nextX;
        } else {
          if x.n <= nextX.n {
            TakeNext(x, nextX, c, f);
            f := FirstTakes(f);
          } else {
            GoBelowNext(prevX, x, nextX, c, f);
            f := SecondTakes(f);
            x := nextX;
          }
        }
        SeesRoot(c, f, nodes);
        nextX := x.sibling;
      }
    }

    // Insert: the new node becomes a tree of degree 0, and Union does the rest.
    method Insert(x: Node)
      requires Valid() && x !in nodes
      modifies this, x, nodes
      ensures Valid() && nodes == old(nodes) + {x}
      ensures trees == United(old(trees), Cons(x, old(x.n), 0, Nil, Nil))
      ensures Keys(trees) == old(Keys(trees)) + multiset{old(x.n)} && Size(trees) == old(Size(trees)) + 1
      ensures Degrees(trees) == Ones(Size(trees), 0)
    {
      hide Rep, Exact, Ordered, Keys, Size, Degrees, Ones, Heap, United, Meets;
      ghost var f, k := trees, x.n;
      ghost var g := Cons(x, k, 0, Nil, Nil);
      x.parent := null;
      x.child := null;
      x.sibling := null;
      x.degree := 0;
      SingleHeap(g, At({x}));
      InsertedStays(f, g);
      assert StayingNodes(f, g, {x}) == {x} by { ConsCounts(g, x); }
      Union(x, g, {x});
      InsertedIsHeap(f, g);
      DegreesAreOnes(trees);
    }

    // The first node with the key, children before siblings.
    method Search(x: Node, k: int, ghost f: Forest, ghost q: Node?) returns (p: Node?)
      requires Rep(f, q, At(nodes)) && f.Cons? && f.p == x
      ensures p == null <==> k !in Keys(f)
      ensures p != null ==> p in nodes && p.n == k && Count(f, p) > 0
      ensures p == FirstWith(Listed(f), k)
      decreases f
    {
      hide Rep, Keys, Count, FirstWith;
      FirstOfTwo([(f.p, f.k)] + Listed(f.kids), Listed(f.rest), k);
      FirstOfTwo([(f.p, f.k)], Listed(f.kids), k);
      FirstOfOne(f.p, f.k, k);
      KeysCons(f);
      ConsCounts(f, x);
      RepCons(f, q, At(nodes));
      p := null;
      if x.n == k {
        return x;
      }
      if x.child != null && p == null {
        p := Search(x.child, k, f.kids, x);
      } else {
        NoKeys(f.kids);
      }
      if x.sibling != null && p == null {
        p := Search(x.sibling, k, f.rest, q);
      } else {
        NoKeys(f.rest);
      }
      if p != null { ConsCounts(f, p); }
    }

    // Lowers the key of a node with the key i to k, and moves it up as far as needed.
    method DecreaseKey(i: int, k: int) returns (status: Status)
      requires Valid()
      modifies this`trees, nodes
      ensures Valid() && Keyless(trees) == Keyless(old(trees))
      ensures status == if H == null then NullRead else if i !in old(Keys(trees)) then NoSuchKey else if k > i then LargerKey else Reduced
      ensures Keys(trees) == if status == Reduced then old(Keys(trees)) - multiset{i} + multiset{k} else old(Keys(trees))
    {
      hide Rep, Exact, Ordered, Keys, Keyless, Heap;
      if H == null {
        // Search would read the key of no node.
        return NullRead;
      }
      var p := Search(H, i, trees, null);
      if p == null {
        return NoSuchKey;
      }
      if k > p.n {
        return LargerKey;
      }
      ghost var f, s := trees, At(nodes);
      assert s.Keys == nodes;
      Rekeyed(f, p, k, s);
      p.SetKey(k, nodes);
      trees := WithKey(f, p, k);
      Exchanged(Keys(f), Keys(trees), i, k);
      Lowered(s, p, k);
      BubbleUp(p);
      status := Reduced;
    }

    // The loop: only p may have a smaller key than its parent, and p's children
    // have none smaller than p's parent.
    method BubbleUp(p: Node)
      requires Holds() && Heap(trees, 0) && p in nodes && OrderedBut(At(nodes), p)
      modifies this`trees, nodes
      ensures Valid() && Keyless(trees) == Keyless(old(trees)) && Keys(trees) == Keys(old(trees))
    {
      hide Rep, Exact, Ordered, Keys, Keyless, Heap, OrderedBut;
      ghost var f := trees;
      ghost var bound := MaxDegree(f);
      var y: Node := p;
      var z := p.parent;
      assert At(nodes).Keys == nodes;
      ParentSeen(f, y, At(nodes));
      while z != null && y.n < z.n
        invariant Holds() && Heap(trees, 0) && y in nodes && OrderedBut(At(nodes), y)
        invariant Keyless(trees) == Keyless(f) && Keys(trees) == Keys(f) && MaxDegree(trees) == bound
        invariant z == y.parent && y.degree <= bound && (z != null ==> z in nodes && y.degree < z.degree)
        decreases bound - y.degree
      {
        SwapKeys(y, z);
        y := z;
        z := z.parent;
        assert At(nodes).Keys == nodes;
        ParentSeen(trees, y, At(nodes));
      }
      NowOrdered(At(nodes), y);
    }

    // One round: y and its parent z exchange their keys.
    method SwapKeys(y: Node, z: Node)
      requires Holds() && Heap(trees, 0) && y in nodes && OrderedBut(At(nodes), y)
      requires z == y.parent && z in nodes && y.n < z.n
      modifies this`trees, nodes
      ensures Holds() && Heap(trees, 0) && OrderedBut(At(nodes), z)
      ensures Keyless(trees) == Keyless(old(trees)) && Keys(trees) == Keys(old(trees)) && MaxDegree(trees) == MaxDegree(old(trees))
      ensures z.parent == old(z.parent) && z.degree == old(z.degree) && y.degree == old(y.degree)
    {
      hide Rep, Exact, Ordered, Keys, Keyless, Heap, OrderedBut, MaxDegree, WithKey;
      ghost var f, s := trees, At(nodes);
      assert s.Keys == nodes;
      ParentSeen(f, y, s);
      Raised(s, y, z);
      var temp := y.n;
      SwappedWhole(f, y, z, s);
      y.SetKey(z.n, nodes);
      z.SetKey(temp, nodes);
      trees := WithKey(WithKey(f, y, s[z].n), z, temp);
    }
  }

  datatype Status = NullRead | NoSuchKey | LargerKey | Reduced

  // The nodes with their keys, children before siblings.
  function Listed(f: Forest): seq<(Node, int)> {
    if f.Nil? then [] else [(f.p, f.k)] + Listed(f.kids) + Listed(f.rest)
  }

  function FirstWith(list: seq<(Node, int)>, k: int): Node? {
    if list == [] then null else if list[0].1 == k then list[0].0 else FirstWith(list[1..], k)
  }

  lemma FirstOfOne(p: Node, key: int, k: int)
    ensures FirstWith([(p, key)], k) == if key == k then p else null
  {
  }

  lemma {:induction false} FirstOfTwo(a: seq<(Node, int)>, b: seq<(Node, int)>, k: int)
    ensures FirstWith(a + b, k) == if FirstWith(a, k) != null then FirstWith(a, k) else FirstWith(b, k)
  {
    if a == [] {
      assert a + b == b;
    } else {
      FirstOfTwo(a[1..], b, k);
      assert (a + b)[1..] == a[1..] + b;
    }
  }

  lemma NoKeys(f: Forest)
    ensures f.Nil? ==> Keys(f) == multiset{} && Listed(f) == [] && forall k :: FirstWith(Listed(f), k) == null
  {
  }

  lemma {:induction false} FirstIsThere(f: Forest, k: int)
    ensures k in Keys(f) ==> FirstWith(Listed(f), k) != null && Count(f, FirstWith(Listed(f), k)) > 0
    ensures k !in Keys(f) ==> FirstWith(Listed(f), k) == null
  {
    if f.Cons? {
      FirstIsThere(f.kids, k);
      FirstIsThere(f.rest, k);
      FirstOfTwo([(f.p, f.k)] + Listed(f.kids), Listed(f.rest), k);
      FirstOfTwo([(f.p, f.k)], Listed(f.kids), k);
      FirstOfOne(f.p, f.k, k);
      KeysCons(f);
    }
  }

  // Of several nodes with the key the search finds a root before what is below it, and
  // that before the next root.
  lemma FoundInOrder(f: Forest, k: int)
    requires f.Cons?
    ensures f.k == k ==> FirstWith(Listed(f), k) == f.p
    ensures f.k != k && k in Keys(f.kids) ==>
      FirstWith(Listed(f), k) == FirstWith(Listed(f.kids), k) != null && Count(f.kids, FirstWith(Listed(f), k)) > 0
    ensures f.k != k && k !in Keys(f.kids) ==> FirstWith(Listed(f), k) == FirstWith(Listed(f.rest), k)
  {
    FirstIsThere(f.kids, k);
    FirstOfTwo([(f.p, f.k)] + Listed(f.kids), Listed(f.rest), k);
    FirstOfTwo([(f.p, f.k)], Listed(f.kids), k);
    FirstOfOne(f.p, f.k, k);
  }

  // ----- Changing one key -----

  function WithKey(f: Forest, x: Node, k: int): Forest {
    if f.Nil? then f else Cons(f.p, if f.p == x then k else f.k, f.d, WithKey(f.kids, x, k), WithKey(f.rest, x, k))
  }

  // The list without its keys.
  function Keyless(f: Forest): Forest {
    if f.Nil? then f else Cons(f.p, 0, f.d, Keyless(f.kids), Keyless(f.rest))
  }

  function MaxDegree(f: Forest): int {
    if f.Nil? then 0
    else
      var m := if MaxDegree(f.kids) > MaxDegree(f.rest) then MaxDegree(f.kids) else MaxDegree(f.rest);
      if f.d > m then f.d else m
  }

  lemma {:induction false} WithKeyRep(f: Forest, q: Node?, x: Node, k: int, s: Store)
    requires Rep(f, q, s) && x in s
    ensures Rep(WithKey(f, x, k), q, s[x := s[x].(n := k)])
    ensures Keyless(WithKey(f, x, k)) == Keyless(f) && MaxDegree(WithKey(f, x, k)) == MaxDegree(f)
    ensures forall n :: Count(WithKey(f, x, k), n) == Count(f, n)
  {
    if f.Cons? {
      WithKeyRep(f.kids, f.p, x, k, s);
      WithKeyRep(f.rest, q, x, k, s);
    }
  }

  lemma {:induction false} WithKeyKeys(f: Forest, q: Node?, x: Node, k: int, s: Store)
    requires Rep(f, q, s) && x in s && Count(f, x) <= 1
    ensures Count(f, x) == 0 ==> Keys(WithKey(f, x, k)) == Keys(f)
    ensures Count(f, x) == 1 ==> Keys(WithKey(f, x, k)) + multiset{s[x].n} == Keys(f) + multiset{k}
  {
    if f.Cons? {
      WithKeyKeys(f.kids, f.p, x, k, s);
      WithKeyKeys(f.rest, q, x, k, s);
      var g := WithKey(f, x, k);
      KeysCons(f);
      KeysCons(g);
      if Count(f, x) == 1 {
        OneChanged(multiset{f.k}, Keys(f.kids), Keys(f.rest), multiset{g.k}, Keys(g.kids), Keys(g.rest), multiset{s[x].n}, multiset{k});
      }
    }
  }

  lemma OneChanged(a: multiset<int>, b: multiset<int>, c: multiset<int>, a': multiset<int>, b': multiset<int>, c': multiset<int>,
                   x: multiset<int>, y: multiset<int>)
    requires (a == x && a' == y && b' == b && c' == c) || (a' == a && b' + x == b + y && c' == c) || (a' == a && b' == b && c' + x == c + y)
    ensures (a' + b' + c') + x == (a + b + c) + y
  {
    assert (a' + b' + c') + x == a' + (b' + x) + c' == a' + b' + (c' + x);
    assert (a + b + c) + y == a + (b + y) + c == a + b + (c + y);
  }

  lemma {:induction false} WithKeyHeap(f: Forest, x: Node, k: int, d: int)
    ensures Heap(f, d) ==> Heap(WithKey(f, x, k), d)
    ensures Kids(f, d) ==> Kids(WithKey(f, x, k), d)
    decreases f
  {
    if f.Cons? {
      WithKeyHeap(f.kids, x, k, f.d);
      WithKeyHeap(f.rest, x, k, f.d + 1);
      WithKeyHeap(f.kids, x, k, d - 1);
      WithKeyHeap(f.rest, x, k, d - 1);
    }
  }

  lemma Rekeyed(f: Forest, x: Node, k: int, s: Store)
    requires Rep(f, null, s) && Exact(f, s.Keys) && x in s
    ensures var g, s' := WithKey(f, x, k), s[x := s[x].(n := k)];
      Rep(g, null, s') && Exact(g, s.Keys) && Head(g) == Head(f) && (Heap(f, 0) ==> Heap(g, 0)) &&
      Keyless(g) == Keyless(f) && MaxDegree(g) == MaxDegree(f) && Keys(g) + multiset{s[x].n} == Keys(f) + multiset{k}
  {
    WithKeyRep(f, null, x, k, s);
    WithKeyKeys(f, null, x, k, s);
    WithKeyHeap(f, x, k, 0);
  }

  lemma SwappedWhole(f: Forest, y: Node, z: Node, s: Store)
    requires Rep(f, null, s) && Exact(f, s.Keys) && y in s && z in s && y != z
    ensures var g := WithKey(WithKey(f, y, s[z].n), z, s[y].n);
      var s1 := s[y := s[y].(n := s[z].n)];
      var s2 := s1[z := s1[z].(n := s[y].n)];
      Rep(g, null, s2) && Exact(g, s.Keys) && Head(g) == Head(f) && (Heap(f, 0) ==> Heap(g, 0)) &&
      Keyless(g) == Keyless(f) && MaxDegree(g) == MaxDegree(f) && Keys(g) == Keys(f)
  {
    hide Rep, Exact, Heap, Keyless, MaxDegree, WithKey, Keys;
    var s1 := s[y := s[y].(n := s[z].n)];
    assert s1.Keys == s.Keys;
    Rekeyed(f, y, s[z].n, s);
    Rekeyed(WithKey(f, y, s[z].n), z, s[y].n, s1);
    Cancel(Keys(f), Keys(WithKey(f, y, s[z].n)), Keys(WithKey(WithKey(f, y, s[z].n), z, s[y].n)), s[y].n, s[z].n);
  }

  lemma Cancel(a: multiset<int>, b: multiset<int>, c: multiset<int>, x: int, y: int)
    requires b + multiset{x} == a + multiset{y} && c + multiset{y} == b + multiset{x}
    ensures c == a
  {
    forall v ensures c[v] == a[v] {
      assert (b + multiset{x})[v] == (a + multiset{y})[v] && (c + multiset{y})[v] == (b + multiset{x})[v];
    }
  }

  lemma Exchanged(a: multiset<int>, b: multiset<int>, x: int, y: int)
    requires b + multiset{x} == a + multiset{y} && x in a
    ensures b == a - multiset{x} + multiset{y}
  {
    forall v ensures b[v] == (a - multiset{x} + multiset{y})[v] {
      assert (b + multiset{x})[v] == (a + multiset{y})[v];
    }
  }

  // A node has a smaller degree than its parent.
  ghost predicate BelowParent(s: Store, n: Node) {
    n in s && (s[n].parent == null || (s[n].parent in s && s[n].degree < s[s[n].parent].degree))
  }

  lemma {:induction false} KidsDegrees(f: Forest, q: Node, d: int, s: Store, n: Node)
    requires Kids(f, d) && Rep(f, q, s) && q in s && s[q].degree >= d && Count(f, n) > 0
    ensures BelowParent(s, n) && s[n].degree <= MaxDegree(f)
  {
    if n != f.p {
      if Count(f.kids, n) > 0 { KidsDegrees(f.kids, f.p, f.d, s, n); } else { KidsDegrees(f.rest, q, d - 1, s, n); }
    }
  }

  lemma {:induction false} HeapDegrees(f: Forest, d: int, s: Store, n: Node)
    requires Heap(f, d) && Rep(f, null, s) && Count(f, n) > 0
    ensures BelowParent(s, n) && s[n].degree <= MaxDegree(f)
  {
    if n != f.p {
      if Count(f.kids, n) > 0 { KidsDegrees(f.kids, f.p, f.d, s, n); } else { HeapDegrees(f.rest, f.d + 1, s, n); }
    }
  }

  lemma ParentSeen(f: Forest, y: Node, s: Store)
    requires Heap(f, 0) && Rep(f, null, s) && Exact(f, s.Keys) && y in s
    ensures s[y].degree <= MaxDegree(f) && forall n :: n in s ==> BelowParent(s, n)
  {
    forall n | n in s ensures BelowParent(s, n) && s[n].degree <= MaxDegree(f) { HeapDegrees(f, 0, s, n); }
  }

  // ----- Heap order but for one node -----

  ghost predicate OrderedBut(s: Store, y: Node) {
    forall n :: n in s && s[n].parent != null && s[n].parent in s ==>
      var z: Node := s[n].parent;
      (n != y ==> s[z].n <= s[n].n) &&
      (z == y && s[y].parent != null && s[y].parent in s ==> s[s[y].parent].n <= s[n].n)
  }

  lemma Lowered(s: Store, y: Node, k: int)
    requires Ordered(s) && y in s && k <= s[y].n
    ensures OrderedBut(s[y := s[y].(n := k)], y)
  {
  }

  // y and its parent z have exchanged their keys.
  lemma Raised(s: Store, y: Node, z: Node)
    requires OrderedBut(s, y) && y in s && z in s && s[y].parent == z && s[y].n < s[z].n && s[z].degree > s[y].degree
    requires forall n :: n in s ==> BelowParent(s, n)
    ensures var s1 := s[y := s[y].(n := s[z].n)]; OrderedBut(s1[z := s1[z].(n := s[y].n)], z)
  {
  }

  lemma NowOrdered(s: Store, y: Node)
    requires OrderedBut(s, y) && y in s && (s[y].parent != null && s[y].parent in s ==> s[s[y].parent].n <= s[y].n)
    ensures Ordered(s)
  {
  }

  lemma SeesRoot(c: Prefix, f: Forest, S: set<Node>)
    requires Rep(Plug(c, f), null, At(S)) && f.Cons?
    ensures f.p in S && f.p.sibling == Head(f.rest) && (f.rest.Cons? ==> f.rest.p in S)
  {
    PlugRep(c, f, At(S));
    RepCons(f, null, At(S));
  }

  // The parent links stay among the nodes.
  lemma {:induction false} ParentsIn(f: Forest, q: Node?, s: Store, n: Node)
    requires Rep(f, q, s) && (q != null ==> q in s) && n in s
    ensures Count(f, n) > 0 ==> s[n].parent == null || s[n].parent in s
  {
    if f.Cons? {
      ParentsIn(f.kids, f.p, s, n);
      ParentsIn(f.rest, q, s, n);
    }
  }

  lemma SingleHeap(g: Forest, s: Store)
    requires g.Cons? && g.kids.Nil? && g.rest.Nil? && g.d == 0 && s.Keys == {g.p} && s[g.p] == Cell(g.k, 0, null, null, null)
    ensures Rep(g, null, s) && Exact(g, s.Keys) && Heap(g, 0) && Ordered(s) && Keys(g) == multiset{g.k}
  {
  }
}
