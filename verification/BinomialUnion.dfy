// What Union of two binomial heaps (BinomialHeap.cpp) keeps, on lists of trees.
module BinomialUnion {
  import opened BinomialShape
  import opened BinomialValues

  function United(f: Forest, g: Forest): Forest {
    Consolidated(Merged(f, g))
  }

  // ----- What Merge keeps, along its loop -----

  predicate FirstKeeps(f: Forest, g: Forest)
    decreases Length(f) + Length(g)
  {
    if f.Nil? || g.Nil? then g.Nil?
    else if f.d < g.d then FirstKeeps(f.rest, g)
    else f.d == g.d && SecondKeeps(f.rest, g)
  }

  predicate SecondKeeps(f: Forest, g: Forest)
    decreases Length(f) + Length(g)
  {
    if f.Nil? || g.Nil? then f.Nil? else f.d > g.d && FirstKeeps(f, g.rest)
  }

  predicate MergeKeeps(f: Forest, g: Forest) {
    if g.Nil? || (f.Cons? && f.d <= g.d) then FirstKeeps(f, g) else SecondKeeps(f, g)
  }

  // r is made of the trees of f and g, of all of them if all is true.
  ghost predicate MadeOf(r: Forest, f: Forest, g: Forest, all: bool) {
    Keys(r) <= Keys(f) + Keys(g) && Size(r) <= Size(f) + Size(g) &&
    (all ==> Keys(r) == Keys(f) + Keys(g)) && (all <==> Size(r) == Size(f) + Size(g))
  }

  lemma PassedMade(x: Forest, r: Forest, g: Forest, all: bool)
    requires x.Cons? && MadeOf(r, x.rest, g, all)
    ensures MadeOf(x.(rest := r), x, g, all)
  {
    hide Keys, Size;
    KeysCons(x);
    KeysCons(x.(rest := r));
    SizeCons(x);
    SizeCons(x.(rest := r));
    var a, b, c := multiset{x.k} + Keys(x.kids), Keys(x.rest), Keys(g);
    assert a + (b + c) == (a + b) + c;
  }

  lemma OtherMade(r: Forest, f: Forest, g: Forest, all: bool)
    requires MadeOf(r, f, g, all)
    ensures MadeOf(r, g, f, all)
  {
  }

  lemma LostMade(r: Forest, f: Forest, g: Forest, all: bool)
    requires g.Cons? && MadeOf(r, f, g.rest, all)
    ensures MadeOf(r, f, g, false)
  {
    hide Keys, Size;
    KeysCons(g);
    SizeCons(g);
  }

  lemma {:induction false} FirstMade(f: Forest, g: Forest)
    ensures MadeOf(FromFirst(f, g), f, g, FirstKeeps(f, g))
    decreases Length(f) + Length(g)
  {
    hide MadeOf;
    if f.Nil? || g.Nil? {
      NoneLeft(f, g);
    } else if f.d < g.d {
      FirstMade(f.rest, g);
      PassedMade(f, FromFirst(f.rest, g), g, FirstKeeps(f.rest, g));
    } else if f.d == g.d {
      SecondMade(f.rest, g);
      PassedMade(f, FromSecond(f.rest, g), g, SecondKeeps(f.rest, g));
    } else {
      FirstMade(f, g.rest);
      LostMade(FromFirst(f, g.rest), f, g, FirstKeeps(f, g.rest));
    }
  }

  lemma {:induction false} SecondMade(f: Forest, g: Forest)
    ensures MadeOf(FromSecond(f, g), f, g, SecondKeeps(f, g))
    decreases Length(f) + Length(g)
  {
    hide MadeOf;
    if f.Nil? || g.Nil? {
      NoneLeft(g, f);
      OtherMade(g, g, f, f.Nil?);
    } else if f.d > g.d {
      var r := FromFirst(f, g.rest);
      FirstMade(f, g.rest);
      OtherMade(r, f, g.rest, FirstKeeps(f, g.rest));
      PassedMade(g, r, f, FirstKeeps(f, g.rest));
      OtherMade(g.(rest := r), g, f, FirstKeeps(f, g.rest));
    } else {
      var r := FromSecond(f.rest, g);
      SecondMade(f.rest, g);
      OtherMade(r, f.rest, g, SecondKeeps(f.rest, g));
      LostMade(r, g, f, SecondKeeps(f.rest, g));
      OtherMade(r, g, f, false);
    }
  }

  lemma NoneLeft(f: Forest, g: Forest)
    requires f.Nil? || g.Nil?
    ensures MadeOf(f, f, g, g.Nil?)
  {
    if g.Cons? { SizeCons(g); }
  }

  lemma MergedMade(f: Forest, g: Forest)
    ensures MadeOf(Merged(f, g), f, g, MergeKeeps(f, g))
  {
    hide MadeOf;
    FirstMade(f, g);
    SecondMade(f, g);
  }

  // ----- The same, read off the degrees before the call -----

  // Every later degree that is not beyond the end of a is one of a, and if some are
  // beyond it, the last of a is one of them too.
  predicate Fits(a: seq<int>, b: seq<int>) {
    a != [] && b != [] && (forall z :: z in b && z <= a[|a| - 1] ==> z in a) &&
    (b[|b| - 1] > a[|a| - 1] ==> a[|a| - 1] in b)
  }

  // A first degree of b below all of a does no harm.
  predicate Meets(a: seq<int>, b: seq<int>) {
    a == [] || b == [] || var c := if a[0] > b[0] then b[1..] else b; c == [] || Fits(a, c)
  }

  lemma {:induction false} DegreesFrom(f: Forest, d: int)
    requires Heap(f, d)
    ensures forall z :: z in Degrees(f) ==> z >= d
  {
    if f.Cons? { DegreesFrom(f.rest, f.d + 1); }
  }

  lemma FitsTail(a: seq<int>, b: seq<int>)
    requires |a| > 1 && b != [] && forall z :: z in b ==> z > a[0]
    ensures Fits(a, b) <==> Fits(a[1..], b)
  {
    assert forall z :: z in a <==> z == a[0] || z in a[1..];
  }

  lemma FitsBoth(a: seq<int>, b: seq<int>)
    requires |a| > 1 && |b| > 1 && a[0] == b[0] && (forall z :: z in a[1..] ==> z > a[0]) && (forall z :: z in b[1..] ==> z > a[0])
    ensures Fits(a, b) <==> Fits(a[1..], b[1..])
  {
    assert forall z :: z in a <==> z == a[0] || z in a[1..];
    assert forall z :: z in b <==> z == a[0] || z in b[1..];
    assert a[|a| - 1] == a[1..][|a| - 2] && b[|b| - 1] == b[1..][|b| - 2];
    assert a[1..][|a| - 2] in a[1..];
  }

  lemma OneLeft(f: Forest, g: Forest)
    requires f.Cons? && g.Cons? && f.d == g.d && Heap(f, f.d) && Heap(g, g.d) && (f.rest.Nil? || g.rest.Nil?)
    ensures FirstKeeps(f, g) && Fits(Degrees(f), Degrees(g))
  {
    var a, b := Degrees(f), Degrees(g);
    assert Degrees(Nil) == [];
    DegreesFrom(f, f.d);
    DegreesFrom(g, g.d);
    assert a[0] == b[0] == f.d && a[|a| - 1] in a && f.d in b;
    if f.rest.Nil? {
      assert a == [f.d];
    } else {
      assert b == [f.d] && FirstKeeps(f.rest, Nil);
    }
  }

  lemma {:induction false} FirstKeepsExactly(f: Forest, g: Forest, d: int)
    requires Heap(f, d) && Heap(g, d) && g.Cons?
    ensures FirstKeeps(f, g) <==> Fits(Degrees(f), Degrees(g))
    decreases Length(f) + Length(g)
  {
    if f.Cons? {
      var a, b := Degrees(f), Degrees(g);
      DegreesFrom(f, d);
      DegreesFrom(f.rest, f.d + 1);
      DegreesFrom(g.rest, g.d + 1);
      assert a[1..] == Degrees(f.rest) && b[1..] == Degrees(g.rest);
      if f.d < g.d {
        HeapFrom(g, g.d, f.d + 1);
        DegreesFrom(g, f.d + 1);
        assert b[|b| - 1] in b;
        FirstKeepsExactly(f.rest, g, f.d + 1);
        if f.rest.Cons? { FitsTail(a, b); }
      } else if f.d > g.d {
        DegreesFrom(f, f.d);
        assert b[0] == g.d && b[0] in b && a[|a| - 1] in a;
      } else if f.rest.Cons? && g.rest.Cons? {
        FirstKeepsExactly(f.rest, g.rest, f.d + 1);
        FitsBoth(a, b);
      } else {
        OneLeft(f, g);
      }
    }
  }

  lemma MergeKeepsExactly(f: Forest, g: Forest)
    requires Heap(f, 0) && Heap(g, 0)
    ensures MergeKeeps(f, g) <==> Meets(Degrees(f), Degrees(g))
  {
    if f.Cons? && g.Cons? {
      assert Degrees(g)[1..] == Degrees(g.rest);
      if f.d <= g.d {
        FirstKeepsExactly(f, g, 0);
      } else if g.rest.Cons? {
        HeapFrom(g.rest, g.d + 1, 0);
        FirstKeepsExactly(f, g.rest, 0);
      }
    }
  }

  // ----- Which trees of the second list stay -----

  // The degree is one of a, or is beyond its end and the last of a is one of b.
  predicate Met(a: seq<int>, b: seq<int>, z: int) {
    a != [] && (z in a || (z > a[|a| - 1] && a[|a| - 1] in b))
  }

  // Or it is the first of b, below all of a, or there is nothing to meet.
  predicate Stays(a: seq<int>, b: seq<int>, z: int) {
    a == [] || Met(a, b, z) || (b != [] && z == b[0] && z < a[0])
  }

  // The trees whose degrees are kept.
  function Filtered(g: Forest, keep: int -> bool): Forest {
    if g.Nil? then g else if keep(g.d) then g.(rest := Filtered(g.rest, keep)) else Filtered(g.rest, keep)
  }

  function Staying(f: Forest, g: Forest): Forest {
    Filtered(g, z => Stays(Degrees(f), Degrees(g), z))
  }

  // The trees of a list, one by one.
  function Trees(f: Forest): multiset<Forest> {
    if f.Nil? then multiset{} else multiset{f.(rest := Nil)} + Trees(f.rest)
  }

  function Nodes(f: Forest): multiset<Node> {
    if f.Nil? then multiset{} else multiset{f.p} + Nodes(f.kids) + Nodes(f.rest)
  }

  lemma {:induction false} NodesAreCounts(f: Forest, n: Node)
    ensures Nodes(f)[n] == Count(f, n)
  {
    if f.Cons? {
      NodesAreCounts(f.kids, n);
      NodesAreCounts(f.rest, n);
    }
  }

  // r has just the trees of f and of g.
  ghost predicate Together(r: Forest, f: Forest, g: Forest) {
    Trees(r) == Trees(f) + Trees(g) && Keys(r) == Keys(f) + Keys(g) && Nodes(r) == Nodes(f) + Nodes(g)
  }

  lemma TotalsCons(f: Forest)
    requires f.Cons?
    ensures Trees(f) == multiset{f.(rest := Nil)} + Trees(f.rest)
    ensures Keys(f) == multiset{f.k} + Keys(f.kids) + Keys(f.rest)
    ensures Nodes(f) == multiset{f.p} + Nodes(f.kids) + Nodes(f.rest)
  {
  }

  lemma FirstTogether(x: Forest, r: Forest, g: Forest)
    requires x.Cons? && Together(r, x.rest, g)
    ensures Together(x.(rest := r), x, g)
  {
    hide Trees, Keys, Nodes;
    var y := x.(rest := r);
    assert y.(rest := Nil) == x.(rest := Nil);
    TotalsCons(x);
    TotalsCons(y);
    Ahead(multiset{x.(rest := Nil)}, Trees(x.rest), Trees(g));
    Ahead(multiset{x.k} + Keys(x.kids), Keys(x.rest), Keys(g));
    Ahead(multiset{x.p} + Nodes(x.kids), Nodes(x.rest), Nodes(g));
  }

  lemma Ahead<T>(a: multiset<T>, b: multiset<T>, c: multiset<T>)
    ensures a + (b + c) == (a + b) + c
  {
  }

  lemma SecondTogether(f: Forest, r: Forest, x: Forest)
    requires x.Cons? && Together(r, f, x.rest)
    ensures Together(x.(rest := r), f, x)
  {
    hide Trees, Keys, Nodes;
    Swapped(r, f, x.rest);
    FirstTogether(x, r, f);
    Swapped(x.(rest := r), x, f);
  }

  lemma Swapped(r: Forest, f: Forest, g: Forest)
    requires Together(r, f, g)
    ensures Together(r, g, f)
  {
  }

  lemma NothingMore(f: Forest)
    ensures Together(f, f, Nil) && Together(f, Nil, f)
  {
  }

  lemma {:induction false} FilteredSame(g: Forest, p: int -> bool, q: int -> bool)
    requires forall z :: z in Degrees(g) ==> p(z) == q(z)
    ensures Filtered(g, p) == Filtered(g, q)
  {
    if g.Cons? {
      assert g.d in Degrees(g);
      FilteredSame(g.rest, p, q);
    }
  }

  lemma {:induction false} AllOrNone(g: Forest, p: int -> bool)
    ensures (forall z :: z in Degrees(g) ==> p(z)) ==> Filtered(g, p) == g
    ensures (forall z :: z in Degrees(g) ==> !p(z)) ==> Filtered(g, p) == Nil
  {
    if g.Cons? {
      assert g.d in Degrees(g) && forall z :: z in Degrees(g.rest) ==> z in Degrees(g);
      AllOrNone(g.rest, p);
    }
  }

  // Beginning with a root of f.
  lemma {:induction false} FirstStays(f: Forest, g: Forest, d: int)
    requires Heap(f, d) && Heap(g, d) && f.Cons?
    ensures Together(FromFirst(f, g), f, Filtered(g, z => Met(Degrees(f), Degrees(g), z)))
    decreases Length(f) + Length(g)
  {
    hide Together, Met;
    var a, b := Degrees(f), Degrees(g);
    var keep := z => Met(a, b, z);
    if g.Nil? {
      NothingMore(f);
    } else if f.d < g.d {
      HeapFrom(g, g.d, f.d + 1);
      if f.rest.Nil? {
        NothingMore(f);
        LastBelow(f, g);
        AllOrNone(g, keep);
      } else {
        FirstStays(f.rest, g, f.d + 1);
        MetBehind(f, g);
        FilteredSame(g, keep, z => Met(a[1..], b, z));
        FirstTogether(f, FromFirst(f.rest, g), Filtered(g, keep));
      }
    } else if f.d == g.d {
      EqualStays(f, g);
    } else {
      HeapFrom(g.rest, g.d + 1, d);
      FirstStays(f, g.rest, d);
      MetAfterLost(f, g);
      FilteredSame(g.rest, keep, z => Met(a, b[1..], z));
    }
  }

  lemma LastBelow(f: Forest, g: Forest)
    requires f.Cons? && f.rest.Nil? && g.Cons? && f.d < g.d && Heap(g, g.d)
    ensures forall z :: z in Degrees(g) ==> !Met(Degrees(f), Degrees(g), z)
  {
    assert Degrees(Nil) == [];
    assert Degrees(f) == [f.d];
    DegreesFrom(g, g.d);
  }

  lemma MetBehind(f: Forest, g: Forest)
    requires f.Cons? && f.rest.Cons? && g.Cons? && f.d < g.d && Heap(f, f.d) && Heap(g, g.d)
    ensures Degrees(f)[1..] == Degrees(f.rest)
    ensures forall z :: z in Degrees(g) ==> (Met(Degrees(f), Degrees(g), z) <==> Met(Degrees(f)[1..], Degrees(g), z))
  {
    var a := Degrees(f);
    DegreesFrom(g, g.d);
    assert a[1..] == Degrees(f.rest) && a[|a| - 1] == a[1..][|a| - 2];
    assert forall z :: z in a <==> z == f.d || z in a[1..];
  }

  lemma MetAfterLost(f: Forest, g: Forest)
    requires f.Cons? && g.Cons? && f.d > g.d && Heap(f, f.d) && Heap(g, g.d)
    ensures Degrees(g)[1..] == Degrees(g.rest) && !Met(Degrees(f), Degrees(g), g.d)
    ensures forall z :: Met(Degrees(f), Degrees(g), z) <==> Met(Degrees(f), Degrees(g)[1..], z)
  {
    var a, b := Degrees(f), Degrees(g);
    DegreesFrom(f, f.d);
    assert a[|a| - 1] in a;
    assert b[1..] == Degrees(g.rest) && forall z :: z in b <==> z == g.d || z in b[1..];
  }

  // Two roots of one degree: both stay, and after them the loop is at roots of f again,
  // or g goes on alone.
  lemma {:induction false} EqualStays(f: Forest, g: Forest)
    requires f.Cons? && g.Cons? && f.d == g.d && Heap(f, f.d) && Heap(g, g.d)
    ensures Together(FromFirst(f, g), f, Filtered(g, z => Met(Degrees(f), Degrees(g), z)))
    decreases Length(f) + Length(g), 0
  {
    hide Together, Met;
    var a, b := Degrees(f), Degrees(g);
    var keep := z => Met(a, b, z);
    if f.rest.Nil? {
      LastMet(f, g);
      AllOrNone(g, keep);
      NothingMore(g);
      FirstTogether(f, g, g);
    } else {
      FirstStays(f.rest, g.rest, f.d + 1);
      MetBoth(f, g);
      FilteredSame(g.rest, keep, z => Met(a[1..], b[1..], z));
      SecondTogether(f.rest, FromFirst(f.rest, g.rest), g.(rest := Filtered(g.rest, keep)));
      FirstTogether(f, g.(rest := FromFirst(f.rest, g.rest)), Filtered(g, keep));
    }
  }

  lemma LastMet(f: Forest, g: Forest)
    requires f.Cons? && f.rest.Nil? && g.Cons? && f.d == g.d && Heap(g, g.d)
    ensures forall z :: z in Degrees(g) ==> Met(Degrees(f), Degrees(g), z)
  {
    assert Degrees(Nil) == [];
    assert Degrees(f) == [f.d];
    assert Degrees(g)[0] == f.d;
    DegreesFrom(g, g.d);
  }

  lemma MetBoth(f: Forest, g: Forest)
    requires f.Cons? && f.rest.Cons? && g.Cons? && f.d == g.d && Heap(f, f.d) && Heap(g, g.d)
    ensures Degrees(f)[1..] == Degrees(f.rest) && Degrees(g)[1..] == Degrees(g.rest) && Met(Degrees(f), Degrees(g), g.d)
    ensures forall z :: z in Degrees(g.rest) ==> (Met(Degrees(f), Degrees(g), z) <==> Met(Degrees(f)[1..], Degrees(g)[1..], z))
  {
    var a, b := Degrees(f), Degrees(g);
    DegreesFrom(f.rest, f.d + 1);
    DegreesFrom(g.rest, g.d + 1);
    assert a[1..] == Degrees(f.rest) && b[1..] == Degrees(g.rest) && a[|a| - 1] == a[1..][|a| - 2];
    assert a[1..][|a| - 2] in a[1..] && a[0] == f.d && a[0] in a;
    assert forall z :: z in a <==> z == f.d || z in a[1..];
    assert forall z :: z in b <==> z == f.d || z in b[1..];
  }

  lemma StaysWithFirst(f: Forest, g: Forest)
    requires f.Cons? && g.Cons? && f.d <= g.d && Heap(g, g.d)
    ensures forall z :: z in Degrees(g) ==> (Stays(Degrees(f), Degrees(g), z) <==> Met(Degrees(f), Degrees(g), z))
  {
    hide Met;
    DegreesFrom(g, g.d);
  }

  lemma StaysWithSecond(f: Forest, g: Forest)
    requires f.Cons? && g.Cons? && f.d > g.d && Heap(f, f.d) && Heap(g, g.d)
    ensures Stays(Degrees(f), Degrees(g), g.d)
    ensures forall z :: z in Degrees(g.rest) ==> (Stays(Degrees(f), Degrees(g), z) <==> Met(Degrees(f), Degrees(g.rest), z))
  {
    DegreesFrom(g.rest, g.d + 1);
    MetAfterLost(f, g);
  }

  // Of two heaps, Merge keeps all trees of the first, and those of the second whose
  // degrees stay; it adds none.
  lemma MergedTrees(f: Forest, g: Forest)
    requires Heap(f, 0) && Heap(g, 0)
    ensures Together(Merged(f, g), f, Staying(f, g))
  {
    hide Together, Met, Stays, Filtered, FromFirst;
    if f.Nil? {
      assert Degrees(f) == [];
      AllStay(f, g);
      NothingMore(g);
    } else if g.Nil? {
      AllOrNone(g, z => Stays(Degrees(f), Degrees(g), z));
      NothingMore(f);
      FirstAlone(f);
    } else if f.d <= g.d {
      FirstStays(f, g, 0);
      StaysWithFirst(f, g);
      FilteredSame(g, z => Stays(Degrees(f), Degrees(g), z), z => Met(Degrees(f), Degrees(g), z));
    } else {
      SecondStays(f, g);
    }
  }

  lemma AllStay(f: Forest, g: Forest)
    requires f.Nil?
    ensures Staying(f, g) == g && Merged(f, g) == g
  {
    AllOrNone(g, z => Stays(Degrees(f), Degrees(g), z));
  }

  lemma FirstAlone(f: Forest)
    ensures Merged(f, Nil) == f
  {
  }

  lemma SecondStays(f: Forest, g: Forest)
    requires f.Cons? && g.Cons? && f.d > g.d && Heap(f, f.d) && Heap(g, g.d)
    ensures Together(Merged(f, g), f, Staying(f, g))
  {
    hide Together, Met, Stays;
    var keep := z => Stays(Degrees(f), Degrees(g), z);
    HeapFrom(f, f.d, g.d + 1);
    FirstStays(f, g.rest, g.d + 1);
    StaysWithSecond(f, g);
    FilteredSame(g.rest, keep, z => Met(Degrees(f), Degrees(g.rest), z));
    var rest := Filtered(g.rest, keep);
    assert Filtered(g, keep) == g.(rest := rest);
    SecondTogether(f, FromFirst(f, g.rest), g.(rest := rest));
    assert FromSecond(f, g) == g.(rest := FromFirst(f, g.rest));
  }

  lemma {:induction false} KeysSize(f: Forest)
    ensures |Keys(f)| == Size(f)
  {
    if f.Cons? {
      KeysSize(f.kids);
      KeysSize(f.rest);
    }
  }

  // ----- What Union does for any two heaps -----

  // Always a heap again, of the trees of f and those of g whose degrees stay; no key is
  // lost exactly if the degrees meet.
  lemma UnitedExactly(f: Forest, g: Forest)
    requires Heap(f, 0) && Heap(g, 0)
    ensures var r := United(f, g);
      Heap(r, 0) && Keys(r) <= Keys(f) + Keys(g) && Size(r) <= Size(f) + Size(g) &&
      (Meets(Degrees(f), Degrees(g)) <==> Keys(r) == Keys(f) + Keys(g)) &&
      (Meets(Degrees(f), Degrees(g)) <==> Size(r) == Size(f) + Size(g)) && Keys(r) == Keys(f) + Keys(Staying(f, g))
  {
    hide Keys, Size, Merged, MergeKeeps, Meets, Trees, Nodes, Staying, Consolidated, Heap;
    var m := Merged(f, g);
    MergedTrees(f, g);
    MergedMade(f, g);
    MergedPairs(f, g);
    MergeKeepsExactly(f, g);
    AllConsolidated(m);
    KeysSize(f);
    KeysSize(g);
    KeysSize(m);
  }

  lemma AllConsolidated(m: Forest)
    requires Pairs(m, 0)
    ensures var r := Consolidated(m); Heap(r, 0) && Keys(r) == Keys(m) && Size(r) == Size(m)
  {
    if m.Cons? { ConsolidatedIsHeap(m, 0); }
  }

  // The nodes that are still in the heap.
  lemma NodesKept(f: Forest, g: Forest, n: Node)
    requires Heap(f, 0) && Heap(g, 0)
    ensures Count(Merged(f, g), n) == Count(f, n) + Count(Staying(f, g), n)
  {
    hide Nodes, Count, Trees, Keys, Staying, Merged;
    MergedTrees(f, g);
    NodesAreCounts(f, n);
    NodesAreCounts(Staying(f, g), n);
    NodesAreCounts(Merged(f, g), n);
  }

  lemma InsertedIsHeap(f: Forest, x: Forest)
    requires Heap(f, 0) && x.Cons? && x.d == 0 && x.kids.Nil? && x.rest.Nil?
    ensures var r := United(f, x); Heap(r, 0) && Size(r) == Size(f) + 1 && Keys(r) == Keys(f) + multiset{x.k}
  {
    hide United, Keys, Size, Staying;
    UnitedExactly(f, x);
    SingleMeets(f, x);
  }

  lemma SingleMeets(f: Forest, x: Forest)
    requires Heap(f, 0) && x.Cons? && x.d == 0 && x.kids.Nil? && x.rest.Nil?
    ensures Meets(Degrees(f), Degrees(x)) && Keys(x) == multiset{x.k} && Size(x) == 1
  {
    DegreesFrom(f, 0);
    assert Degrees(Nil) == [];
    assert Degrees(x) == [0];
    if f.Cons? { assert Degrees(f)[|Degrees(f)| - 1] in Degrees(f); }
  }

  lemma InsertedStays(f: Forest, x: Forest)
    requires Heap(f, 0) && x.Cons? && x.d == 0 && x.kids.Nil? && x.rest.Nil?
    ensures Staying(f, x) == x
  {
    DegreesFrom(f, 0);
    assert Degrees(Nil) == [];
    assert Degrees(x) == [0];
    if f.Cons? { assert Degrees(f)[0] in Degrees(f); }
    AllOrNone(x, z => Stays(Degrees(f), Degrees(x), z));
  }

  // A tree of two nodes is lost behind one of a single node.
  lemma LostExample(p: Node, q: Node, r: Node)
    ensures var f, g := Cons(p, 1, 0, Nil, Nil), Cons(q, 2, 1, Cons(r, 3, 0, Nil, Nil), Nil);
      Heap(f, 0) && Heap(g, 0) && United(f, g) == f && !Meets(Degrees(f), Degrees(g))
  {
    var f, g := Cons(p, 1, 0, Nil, Nil), Cons(q, 2, 1, Cons(r, 3, 0, Nil, Nil), Nil);
    assert Kids(g.kids, 1);
    assert Degrees(f) == [0] && Degrees(g) == [1];
    assert FromFirst(f, g) == f;
  }
}
