// The links that Merge of the binomial heap (BinomialHeap.cpp) sets, one root at a
// time: the list that leads to one of the two lists still to merge, and the other
// one beside it. A root of the other list that is passed is led to by nothing.
module BinomialMerge {
  import opened BinomialShape
  import opened BinomialValues
  import opened BinomialUnion

  // The roots of c lead to the list x; the list y is apart.
  ghost predicate Between(c: Prefix, x: Forest, y: Forest, s: Store) {
    Rep(Plug(c, x), null, s) && Rep(y, null, s) &&
    forall n :: n in s ==> CountBefore(c, n) + Count(x, n) + Count(y, n) <= 1
  }

  function Behind(c: Prefix, x: Forest): Prefix
    requires x.Cons?
  {
    After(c, x.p, x.k, x.d, x.kids)
  }

  lemma Passed(c: Prefix, x: Forest, y: Forest, s: Store)
    requires Between(c, x, y, s) && x.Cons?
    ensures Between(Behind(c, x), x.rest, y, s)
  {
    hide Rep, Count;
    assert Cons(x.p, x.k, x.d, x.kids, x.rest) == x;
    forall n | n in s ensures CountBefore(Behind(c, x), n) + Count(x.rest, n) + Count(y, n) <= 1 { ConsCounts(x, n); }
  }

  // The root of x is linked to the other list.
  lemma Linked(c: Prefix, x: Forest, y: Forest, s: Store, s': Store)
    requires Between(c, x, y, s) && x.Cons? && y.Cons? && x.p in s && s' == s[x.p := s[x.p].(sibling := y.p)]
    ensures Between(Behind(c, x), y, x.rest, s')
  {
    hide Rep, Count, Plug;
    var x' := x.(rest := y);
    PlugRep(c, x, s);
    RepCons(x, null, s);
    forall n | n in s
      ensures CountBefore(c, n) + (One(x.p, n) + Count(x.kids, n) + Count(x.rest, n)) + Count(y, n) <= 1
    {
      ConsCounts(x, n);
    }
    Kept(x.kids, x.p, s, s');
    Kept(x.rest, null, s, s');
    Kept(y, null, s, s');
    RepMake(x', null, s');
    Replug(c, x, s, x', s');
    assert Plug(Behind(c, x), y) == Plug(c, x') by { PlugBehind(c, x, y); }
  }

  lemma PlugBehind(c: Prefix, x: Forest, t: Forest)
    requires x.Cons?
    ensures Plug(Behind(c, x), t) == Plug(c, x.(rest := t))
  {
  }

  // The root of the other list is passed, with or without a link of its own.
  lemma Lost(c: Prefix, x: Forest, y: Forest, s: Store, s': Store)
    requires Between(c, x, y, s) && y.Cons? && y.p in s && s'.Keys == s.Keys
    requires forall n :: n in s && n != y.p ==> s'[n] == s[n]
    ensures Between(c, x, y.rest, s')
  {
    hide Rep, Count, Plug;
    RepCons(y, null, s);
    forall n | n in s
      ensures CountBefore(c, n) + Count(x, n) + (One(y.p, n) + Count(y.kids, n) + Count(y.rest, n)) <= 1
      ensures Count(Plug(c, x), n) == CountBefore(c, n) + Count(x, n)
    {
      ConsCounts(y, n);
      PlugCount(c, x, n);
    }
    Kept(Plug(c, x), null, s, s');
    Kept(y.rest, null, s, s');
  }

  lemma HeadBehind(c: Prefix, x: Forest, t: Forest, t': Forest)
    requires x.Cons?
    ensures Head(Plug(Behind(c, x), t)) == if c.Start? then x.p else Head(Plug(c, t'))
  {
    PlugBehind(c, x, t);
    PlugHead(c, x.(rest := t), t');
  }

  ghost predicate OnlySiblings(s: Store, s': Store) {
    s'.Keys == s.Keys && forall n :: n in s ==> s'[n] == s[n].(sibling := s'[n].sibling)
  }

  lemma {:induction false} FirstCounts(f: Forest, g: Forest, n: Node)
    ensures Count(FromFirst(f, g), n) <= Count(f, n) + Count(g, n)
    ensures FirstKeeps(f, g) ==> Count(FromFirst(f, g), n) == Count(f, n) + Count(g, n)
    decreases Length(f) + Length(g)
  {
    if f.Cons? && g.Cons? {
      if f.d < g.d { FirstCounts(f.rest, g, n); }
      else if f.d == g.d { SecondCounts(f.rest, g, n); }
      else { FirstCounts(f, g.rest, n); }
    }
  }

  lemma {:induction false} SecondCounts(f: Forest, g: Forest, n: Node)
    ensures Count(FromSecond(f, g), n) <= Count(f, n) + Count(g, n)
    ensures SecondKeeps(f, g) ==> Count(FromSecond(f, g), n) == Count(f, n) + Count(g, n)
    decreases Length(f) + Length(g)
  {
    if f.Cons? && g.Cons? {
      if f.d > g.d { FirstCounts(f, g.rest, n); } else { SecondCounts(f.rest, g, n); }
    }
  }

  lemma MergedCounts(f: Forest, g: Forest, n: Node)
    ensures Count(Merged(f, g), n) <= Count(f, n) + Count(g, n)
    ensures MergeKeeps(f, g) ==> Count(Merged(f, g), n) == Count(f, n) + Count(g, n)
  {
    FirstCounts(f, g, n);
    SecondCounts(f, g, n);
  }

  // ----- The loop of Merge -----

  predicate StartsFirst(f: Forest, g: Forest) {
    g.Nil? || (f.Cons? && f.d <= g.d)
  }

  // What is left of f and g is a and b; h leads to a if first is true, else to b.
  ghost predicate Merging(c: Prefix, a: Forest, b: Forest, first: bool, f: Forest, g: Forest, h: Node?, s: Store) {
    (if first then Between(c, a, b, s) else Between(c, b, a, s)) &&
    Plug(c, if first then FromFirst(a, b) else FromSecond(a, b)) == Merged(f, g) &&
    h == if c.Start? then Head(if first then a else b) else Head(Plug(c, Nil))
  }

  lemma RootsSeen(c: Prefix, x: Forest, y: Forest, s: Store)
    requires Between(c, x, y, s)
    ensures x.Cons? ==> x.p in s && s[x.p].degree == x.d && s[x.p].sibling == Head(x.rest)
    ensures y.Cons? ==> y.p in s && s[y.p].degree == y.d && s[y.p].sibling == Head(y.rest)
  {
    PlugRep(c, x, s);
    RepCons(x, null, s);
    RepCons(y, null, s);
  }

  lemma MergingSeen(c: Prefix, a: Forest, b: Forest, first: bool, f: Forest, g: Forest, h: Node?, s: Store)
    requires Merging(c, a, b, first, f, g, h, s)
    ensures a.Cons? ==> a.p in s && s[a.p].degree == a.d && s[a.p].sibling == Head(a.rest)
    ensures b.Cons? ==> b.p in s && s[b.p].degree == b.d && s[b.p].sibling == Head(b.rest)
  {
    if first { RootsSeen(c, a, b, s); } else { RootsSeen(c, b, a, s); }
  }

  lemma MergeBegins(f: Forest, g: Forest, s: Store)
    requires Between(Start, f, g, s)
    ensures Merging(Start, f, g, StartsFirst(f, g), f, g, Head(if StartsFirst(f, g) then f else g), s)
  {
  }

  lemma PassedPlug(c: Prefix, x: Forest, t: Forest)
    requires x.Cons?
    ensures Plug(Behind(c, x), t) == Plug(c, x.(rest := t))
    ensures Head(Plug(Behind(c, x), Nil)) == if c.Start? then x.p else Head(Plug(c, Nil))
  {
    PlugBehind(c, x, t);
    HeadBehind(c, x, Nil, Nil);
  }

  lemma PassSmaller(c: Prefix, a: Forest, b: Forest, first: bool, f: Forest, g: Forest, h: Node?, s: Store) returns (c': Prefix)
    requires Merging(c, a, b, first, f, g, h, s) && a.Cons? && b.Cons? && a.d < b.d
    ensures Merging(c', a.rest, b, first, f, g, h, s)
  {
    hide Rep, Between, Plug, Count;
    MergingSeen(c, a, b, first, f, g, h, s);
    if first {
      c' := Behind(c, a);
      Passed(c, a, b, s);
      PassedPlug(c, a, FromFirst(a.rest, b));
    } else {
      c' := c;
      Lost(c, b, a, s, s);
    }
  }

  lemma LinkEqual(c: Prefix, a: Forest, b: Forest, first: bool, f: Forest, g: Forest, h: Node?, s: Store, s': Store)
    returns (c': Prefix)
    requires Merging(c, a, b, first, f, g, h, s) && a.Cons? && b.Cons? && a.d == b.d
    requires a.p in s && s' == s[a.p := s[a.p].(sibling := b.p)]
    ensures Merging(c', a.rest, b, false, f, g, h, s')
  {
    hide Rep, Between, Plug, Count;
    if first {
      c' := Behind(c, a);
      Linked(c, a, b, s, s');
      PassedPlug(c, a, FromSecond(a.rest, b));
    } else {
      c' := c;
      Lost(c, b, a, s, s');
    }
  }

  lemma LinkSmaller(c: Prefix, a: Forest, b: Forest, first: bool, f: Forest, g: Forest, h: Node?, s: Store, s': Store)
    returns (c': Prefix)
    requires Merging(c, a, b, first, f, g, h, s) && a.Cons? && b.Cons? && a.d > b.d
    requires b.p in s && s' == s[b.p := s[b.p].(sibling := a.p)]
    ensures Merging(c', a, b.rest, true, f, g, h, s')
  {
    hide Rep, Between, Plug, Count;
    if first {
      c' := c;
      Lost(c, a, b, s, s');
    } else {
      c' := Behind(c, b);
      Linked(c, b, a, s, s');
      PassedPlug(c, b, FromFirst(a, b.rest));
    }
  }

  lemma MergeEnds(c: Prefix, a: Forest, b: Forest, first: bool, f: Forest, g: Forest, h: Node?, s: Store)
    requires Merging(c, a, b, first, f, g, h, s) && (a.Nil? || b.Nil?)
    ensures Rep(Merged(f, g), null, s) && h == Head(Merged(f, g))
  {
    PlugHead(c, if first then a else b, Nil);
  }
}
