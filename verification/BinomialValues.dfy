// Merging and linking in the binomial heap (BinomialHeap.cpp) on lists of trees: what the
// loops of Merge and Union leave, that linking restores growing degrees, and that the
// degrees of the roots are the binary digits of the number of nodes.
module BinomialValues {
  import opened PowersOfTwo
  import opened BinomialShape

  function Length(f: Forest): nat {
    if f.Nil? then 0 else 1 + Length(f.rest)
  }

  // The loop of Merge at the roots of f and g: the list it leaves from the first
  // root of f on. A root of g with a smaller degree is passed, but nothing leads to it.
  function FromFirst(f: Forest, g: Forest): Forest
    decreases Length(f) + Length(g)
  {
    if f.Nil? || g.Nil? then f
    else if f.d < g.d then f.(rest := FromFirst(f.rest, g))
    else if f.d == g.d then f.(rest := FromSecond(f.rest, g))
    else FromFirst(f, g.rest)
  }

  // The same from the first root of g on.
  function FromSecond(f: Forest, g: Forest): Forest
    decreases Length(f) + Length(g)
  {
    if f.Nil? || g.Nil? then g
    else if f.d > g.d then g.(rest := FromFirst(f, g.rest))
    else FromSecond(f.rest, g)
  }

  function Merged(f: Forest, g: Forest): Forest {
    if g.Nil? || (f.Cons? && f.d <= g.d) then FromFirst(f, g) else FromSecond(f, g)
  }

  // BinomialLink: the first tree takes the second, or the other way round.
  function FirstTakes(f: Forest): (r: Forest)
    requires f.Cons? && f.rest.Cons?
    ensures r.Cons? && Length(r) < Length(f)
  {
    var y := f.rest;
    Cons(f.p, f.k, f.d + 1, Cons(y.p, y.k, y.d, y.kids, f.kids), y.rest)
  }

  function SecondTakes(f: Forest): (r: Forest)
    requires f.Cons? && f.rest.Cons?
    ensures r.Cons? && Length(r) < Length(f)
  {
    var y := f.rest;
    Cons(y.p, y.k, y.d + 1, Cons(f.p, f.k, f.d, f.kids, y.kids), y.rest)
  }

  predicate Passes(f: Forest)
    requires f.Cons? && f.rest.Cons?
  {
    f.d != f.rest.d || (f.rest.rest.Cons? && f.rest.rest.d == f.d)
  }

  // The loop of Union, from a root on.
  function Consolidated(f: Forest): Forest
    decreases Length(f)
  {
    if f.Nil? || f.rest.Nil? then f
    else if Passes(f) then f.(rest := Consolidated(f.rest))
    else if f.k <= f.rest.k then Consolidated(FirstTakes(f))
    else Consolidated(SecondTakes(f))
  }

  // ----- Binomial trees -----

  // The children of a tree of degree d: one of each degree below d, from the top.
  ghost predicate Kids(f: Forest, d: int) {
    if d <= 0 then d == 0 && f.Nil?
    else f.Cons? && f.d == d - 1 && Kids(f.kids, d - 1) && Kids(f.rest, d - 1)
  }

  // The trees are binomial, of degrees that grow along the list from at least d on.
  ghost predicate Heap(f: Forest, d: int) {
    f.Cons? ==> f.d >= d && f.d >= 0 && Kids(f.kids, f.d) && Heap(f.rest, f.d + 1)
  }

  // The same, but any two neighbours may be of one degree.
  ghost predicate Pairs(f: Forest, d: int) {
    f.Cons? ==>
      f.d >= d && f.d >= 0 && Kids(f.kids, f.d) && Pairs(f.rest, f.d) &&
      !(f.rest.Cons? && f.rest.d == f.d && f.rest.rest.Cons? && f.rest.rest.d == f.d)
  }

  // What the loop of Union sees: behind the first tree two may be of its degree.
  ghost predicate Linking(f: Forest, d: int) {
    f.Cons? && f.d >= d && f.d >= 0 && Kids(f.kids, f.d) && Pairs(f.rest, f.d)
  }

  function Size(f: Forest): nat {
    if f.Nil? then 0 else 1 + Size(f.kids) + Size(f.rest)
  }

  // A tree of degree d has 2^d nodes.
  lemma {:induction false} KidsSize(f: Forest, d: nat)
    requires Kids(f, d)
    ensures 1 + Size(f) == Pow2(d)
  {
    if d > 0 {
      KidsSize(f.kids, d - 1);
      KidsSize(f.rest, d - 1);
    }
  }

  lemma {:induction false} HeapFrom(f: Forest, d: int, e: int)
    requires Heap(f, d) && e <= d
    ensures Heap(f, e)
  {
  }

  lemma {:induction false} PairsFrom(f: Forest, d: int, e: int)
    requires Pairs(f, d) && (f.Cons? ==> e <= f.d)
    ensures Pairs(f, e)
  {
  }

  lemma {:induction false} HeapIsPairs(f: Forest, d: int)
    requires Heap(f, d)
    ensures Pairs(f, d)
  {
    if f.Cons? {
      HeapIsPairs(f.rest, f.d + 1);
      PairsFrom(f.rest, f.d + 1, f.d);
    }
  }

  // Merge leaves degrees in order, none more than twice, whatever it loses.
  lemma {:induction false} FromFirstPairs(f: Forest, g: Forest, d: int)
    requires Heap(f, d) && Heap(g, d)
    ensures Pairs(FromFirst(f, g), d)
    decreases Length(f) + Length(g)
  {
    if f.Nil? || g.Nil? {
      HeapIsPairs(f, d);
    } else if f.d < g.d {
      HeapFrom(g, g.d, f.d + 1);
      FromFirstPairs(f.rest, g, f.d + 1);
      PairsFrom(FromFirst(f.rest, g), f.d + 1, f.d);
    } else if f.d == g.d {
      SecondPairs(f.rest, g, f.d);
    } else {
      HeapFrom(g.rest, g.d + 1, d);
      FromFirstPairs(f, g.rest, d);
    }
  }

  lemma {:induction false} SecondPairs(f: Forest, g: Forest, d: int)
    requires Heap(f, d + 1) && Heap(g, d) && g.Cons? && g.d == d
    ensures var r := FromSecond(f, g); Pairs(r, d) && r.Cons? && r.d == d && (r.rest.Cons? ==> r.rest.d > d)
    decreases Length(f) + Length(g)
  {
    if f.Nil? {
      HeapIsPairs(g, d);
    } else {
      FromFirstPairs(f, g.rest, d + 1);
      PairsFrom(FromFirst(f, g.rest), d + 1, d);
    }
  }

  lemma {:induction false} FromSecondPairs(f: Forest, g: Forest, d: int)
    requires Heap(f, d) && Heap(g, d) && (f.Cons? && g.Cons? ==> f.d > g.d)
    ensures Pairs(FromSecond(f, g), d)
  {
    if f.Nil? || g.Nil? {
      HeapIsPairs(g, d);
    } else {
      HeapFrom(f, f.d, g.d + 1);
      SecondPairs(f, g, g.d);
    }
  }

  lemma MergedPairs(f: Forest, g: Forest)
    requires Heap(f, 0) && Heap(g, 0)
    ensures Pairs(Merged(f, g), 0)
  {
    if g.Nil? || (f.Cons? && f.d <= g.d) { FromFirstPairs(f, g, 0); } else { FromSecondPairs(f, g, 0); }
  }

  // Linking makes binomial trees of binomial trees.
  lemma TakesIsLinking(f: Forest, d: int)
    requires Linking(f, d) && f.rest.Cons? && !Passes(f)
    ensures Linking(FirstTakes(f), d + 1) && Linking(SecondTakes(f), d + 1)
    ensures Size(FirstTakes(f)) == Size(SecondTakes(f)) == Size(f)
    ensures Keys(FirstTakes(f)) == Keys(f) && Keys(SecondTakes(f)) == Keys(f)
  {
    TakesKeys(f);
    TakesSize(f);
    PairsFrom(f.rest.rest, f.rest.d, f.d + 1);
  }

  lemma TakesSize(f: Forest)
    requires f.Cons? && f.rest.Cons?
    ensures Size(FirstTakes(f)) == Size(SecondTakes(f)) == Size(f)
  {
    var y := f.rest;
    assert Size(f) == 1 + Size(f.kids) + (1 + Size(y.kids) + Size(y.rest));
    assert Size(FirstTakes(f)) == 1 + (1 + Size(y.kids) + Size(f.kids)) + Size(y.rest);
    assert Size(SecondTakes(f)) == 1 + (1 + Size(f.kids) + Size(y.kids)) + Size(y.rest);
  }

  lemma TakesKeys(f: Forest)
    requires f.Cons? && f.rest.Cons?
    ensures Keys(FirstTakes(f)) == Keys(f) && Keys(SecondTakes(f)) == Keys(f)
  {
    hide Keys;
    var y := f.rest;
    var a, b, c := Keys(f.kids), Keys(y.kids), Keys(y.rest);
    KeysCons(f);
    KeysCons(y);
    KeysCons(FirstTakes(f));
    KeysCons(FirstTakes(f).kids);
    KeysCons(SecondTakes(f));
    KeysCons(SecondTakes(f).kids);
    var x, z := multiset{f.k}, multiset{y.k};
    assert x + a + (z + b + c) == x + (z + b + a) + c;
    assert x + a + (z + b + c) == z + (x + a + b) + c;
  }

  lemma KeysCons(f: Forest)
    requires f.Cons?
    ensures Keys(f) == multiset{f.k} + Keys(f.kids) + Keys(f.rest)
  {
  }

  // The loop of Union restores the heap, whatever linking it takes.
  lemma {:induction false} ConsolidatedIsHeap(f: Forest, d: int)
    requires Linking(f, d)
    ensures Heap(Consolidated(f), d) && Size(Consolidated(f)) == Size(f) && Keys(Consolidated(f)) == Keys(f)
    decreases Length(f)
  {
    hide Keys, Size;
    if f.rest.Cons? {
      if Passes(f) {
        PassedIsHeap(f);
        KeysCons(f);
        KeysCons(Consolidated(f));
        SizeCons(f);
        SizeCons(Consolidated(f));
      } else {
        LinkedIsHeap(f, d);
      }
    }
  }

  // Two trees of one degree: the tree they make has a larger one.
  lemma {:induction false} LinkedIsHeap(f: Forest, d: int)
    requires Linking(f, d) && f.rest.Cons? && !Passes(f)
    ensures Heap(Consolidated(f), d + 1) && Heap(Consolidated(f), d)
    ensures Size(Consolidated(f)) == Size(f) && Keys(Consolidated(f)) == Keys(f)
    decreases Length(f), 0
  {
    hide Keys, Size;
    TakesIsLinking(f, d);
    if f.k <= f.rest.k { ConsolidatedIsHeap(FirstTakes(f), d + 1); } else { ConsolidatedIsHeap(SecondTakes(f), d + 1); }
    HeapFrom(Consolidated(f), d + 1, d);
  }

  // A tree that is passed has a smaller degree than those behind it will have.
  lemma {:induction false} PassedIsHeap(f: Forest)
    requires f.Cons? && Pairs(f.rest, f.d) && f.rest.Cons? && Passes(f)
    ensures var r := Consolidated(f.rest); Heap(r, f.d + 1) && Size(r) == Size(f.rest) && Keys(r) == Keys(f.rest)
    decreases Length(f), 0
  {
    hide Keys, Size;
    if f.d == f.rest.d {
      PairsFrom(f.rest.rest, f.rest.d, f.d);
      assert !Passes(f.rest);
      LinkedIsHeap(f.rest, f.d);
    } else {
      ConsolidatedIsHeap(f.rest, f.d + 1);
    }
  }

  lemma SizeCons(f: Forest)
    requires f.Cons?
    ensures Size(f) == 1 + Size(f.kids) + Size(f.rest)
  {
  }

  // ----- Degrees and binary digits -----

  function Degrees(f: Forest): seq<int> {
    if f.Nil? then [] else [f.d] + Degrees(f.rest)
  }

  // The positions of the ones in n, counted from lo on.
  function Ones(n: nat, lo: int): seq<int> {
    if n == 0 then [] else if n % 2 == 1 then [lo] + Ones(n / 2, lo + 1) else Ones(n / 2, lo + 1)
  }

  // The nodes of a list of degrees from d on, in units of 2^d.
  function Units(f: Forest, d: nat): nat
    requires Heap(f, d)
    decreases f
  {
    if f.Nil? then 0 else Pow2(f.d - d) + Units(f.rest, f.d + 1) * Pow2(f.d + 1 - d)
  }

  lemma {:induction false} UnitsAreSize(f: Forest, d: nat)
    requires Heap(f, d)
    ensures Size(f) == Units(f, d) * Pow2(d)
  {
    if f.Cons? {
      KidsSize(f.kids, f.d);
      UnitsAreSize(f.rest, f.d + 1);
      Pow2Sum(f.d - d, d);
      Pow2Sum(f.d + 1 - d, d);
      var u, x, y, z := Units(f.rest, f.d + 1), Pow2(f.d - d), Pow2(f.d + 1 - d), Pow2(d);
      assert (x + u * y) * z == x * z + u * (y * z) by { Distribute(x, u, y, z); }
    }
  }

  lemma Distribute(x: int, u: int, y: int, z: int)
    ensures (x + u * y) * z == x * z + u * (y * z)
  {
    assert (u * y) * z == u * (y * z);
  }

  lemma {:induction false} Shifted(n: nat, lo: int, k: nat)
    ensures Ones(n * Pow2(k), lo) == Ones(n, lo + k)
    decreases k
  {
    if k > 0 {
      Shifted(n, lo + 1, k - 1);
      var m := n * Pow2(k - 1);
      assert n * Pow2(k) == 2 * m;
      assert n == 0 ==> m == 0;
      if m == 0 { assert n == 0 || Pow2(k - 1) == 0; Pow2Positive(k - 1); }
    }
  }

  lemma ShiftedOdd(u: nat, d: int, k: nat)
    ensures Ones((1 + 2 * u) * Pow2(k), d) == [d + k] + Ones(u, d + k + 1)
  {
    Shifted(1 + 2 * u, d, k);
    assert (1 + 2 * u) % 2 == 1 && (1 + 2 * u) / 2 == u;
  }

  lemma UnitsOdd(u: int, p: int)
    ensures p + u * (2 * p) == (1 + 2 * u) * p
  {
  }

  lemma {:induction false} UnitsDigits(f: Forest, d: nat)
    requires Heap(f, d)
    ensures Ones(Units(f, d), d) == Degrees(f)
  {
    if f.Cons? {
      UnitsDigits(f.rest, f.d + 1);
      var u, k := Units(f.rest, f.d + 1), f.d - d;
      assert Units(f, d) == Pow2(k) + u * Pow2(k + 1);
      UnitsOdd(u, Pow2(k));
      ShiftedOdd(u, d, k);
    }
  }

  // The degrees of the roots are the ones in the number of nodes.
  lemma DegreesAreOnes(f: Forest)
    requires Heap(f, 0)
    ensures Degrees(f) == Ones(Size(f), 0)
  {
    UnitsAreSize(f, 0);
    UnitsDigits(f, 0);
  }
}
