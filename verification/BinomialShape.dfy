// The nodes of the binomial heap (BinomialHeap.cpp), the lists of trees they carry
// as values that name their nodes, what it means that a store holds such a list, and
// positions among its roots.
module BinomialShape {
  class Node {
    var n: int
    var degree: int
    var parent: Node?
    var child: Node?
    var sibling: Node?

    // Create_node sets the key; Insert sets the rest.
    constructor (k: int)
      ensures n == k
    {
      n := k;
    }

    ghost function AsCell(): Cell
      reads this
    {
      Cell(n, degree, parent, child, sibling)
    }

    method SetSibling(x: Node?, ghost S: set<Node>)
      requires this in S
      modifies this`sibling
      ensures At(S) == old(At(S))[this := old(AsCell()).(sibling := x)]
    {
      sibling := x;
      assert At(S) == old(At(S))[this := AsCell()];
    }

    method SetKey(k: int, ghost S: set<Node>)
      requires this in S
      modifies this`n
      ensures At(S) == old(At(S))[this := old(AsCell()).(n := k)]
    {
      n := k;
      assert At(S) == old(At(S))[this := AsCell()];
    }
  }

  datatype Cell = Cell(n: int, degree: int, parent: Node?, child: Node?, sibling: Node?)

  type Store = map<Node, Cell>

  ghost function At(S: set<Node>): Store
    reads S
  {
    map p | p in S :: p.AsCell()
  }

  // A list of trees: the first one's node, key, degree and children, and the others.
  datatype Forest = Nil | Cons(p: Node, k: int, d: int, kids: Forest, rest: Forest)

  function Head(f: Forest): Node? {
    if f.Nil? then null else f.p
  }

  function One(p: Node, x: Node): nat {
    if p == x then 1 else 0
  }

  function Count(f: Forest, x: Node): nat {
    if f.Nil? then 0 else One(f.p, x) + Count(f.kids, x) + Count(f.rest, x)
  }

  lemma ConsCounts(f: Forest, x: Node)
    ensures f.Cons? ==> Count(f, x) == One(f.p, x) + Count(f.kids, x) + Count(f.rest, x)
    ensures Count(Nil, x) == 0
  {
  }

  function Keys(f: Forest): multiset<int> {
    if f.Nil? then multiset{} else multiset{f.k} + Keys(f.kids) + Keys(f.rest)
  }

  // The store holds the list below q.
  ghost predicate Rep(f: Forest, q: Node?, s: Store) {
    f.Cons? ==> f.p in s && s[f.p] == Cell(f.k, f.d, q, Head(f.kids), Head(f.rest)) && Rep(f.kids, f.p, s) && Rep(f.rest, q, s)
  }

  lemma RepCons(f: Forest, q: Node?, s: Store)
    requires Rep(f, q, s)
    ensures f.Cons? ==>
      f.p in s && s[f.p] == Cell(f.k, f.d, q, Head(f.kids), Head(f.rest)) && Rep(f.kids, f.p, s) && Rep(f.rest, q, s)
    ensures f.Cons? && f.rest.Cons? ==> f.rest.p in s
    ensures f.Cons? && f.kids.Cons? ==> f.kids.p in s
  {
  }

  lemma RepMake(f: Forest, q: Node?, s: Store)
    requires f.Cons? ==>
      f.p in s && s[f.p] == Cell(f.k, f.d, q, Head(f.kids), Head(f.rest)) && Rep(f.kids, f.p, s) && Rep(f.rest, q, s)
    ensures Rep(f, q, s)
  {
  }

  lemma {:induction false} Kept(f: Forest, q: Node?, s: Store, s': Store)
    requires Rep(f, q, s)
    requires forall p :: p in s && Count(f, p) > 0 ==> p in s' && s'[p] == s[p]
    ensures Rep(f, q, s')
  {
    if f.Cons? {
      assert Count(f, f.p) > 0;
      Kept(f.kids, f.p, s, s');
      Kept(f.rest, q, s, s');
    }
  }

  lemma {:induction false} CountOutside(f: Forest, q: Node?, s: Store, x: Node)
    requires Rep(f, q, s) && x !in s
    ensures Count(f, x) == 0
  {
    if f.Cons? {
      CountOutside(f.kids, f.p, s, x);
      CountOutside(f.rest, q, s, x);
    }
  }

  // ----- Positions among the roots -----

  datatype Prefix = Start | After(up: Prefix, p: Node, k: int, d: int, kids: Forest)

  function Plug(c: Prefix, f: Forest): Forest {
    if c.Start? then f else Plug(c.up, Cons(c.p, c.k, c.d, c.kids, f))
  }

  function CountBefore(c: Prefix, x: Node): nat {
    if c.Start? then 0 else One(c.p, x) + Count(c.kids, x) + CountBefore(c.up, x)
  }

  lemma {:induction false} PlugCount(c: Prefix, f: Forest, x: Node)
    ensures Count(Plug(c, f), x) == CountBefore(c, x) + Count(f, x)
    decreases c
  {
    if !c.Start? { PlugCount(c.up, Cons(c.p, c.k, c.d, c.kids, f), x); }
  }

  lemma {:induction false} PlugRep(c: Prefix, f: Forest, s: Store)
    requires Rep(Plug(c, f), null, s)
    ensures Rep(f, null, s)
    ensures !c.Start? ==> c.p in s && Rep(c.kids, c.p, s) && s[c.p] == Cell(c.k, c.d, null, Head(c.kids), Head(f))
    decreases c
  {
    if !c.Start? { PlugRep(c.up, Cons(c.p, c.k, c.d, c.kids, f), s); }
  }

  // Before the cut nothing has changed but the link to the list that follows.
  ghost predicate Relinked(c: Prefix, s: Store, r: Node?, s': Store) {
    forall x :: x in s && CountBefore(c, x) > 0 ==>
      x in s' && s'[x] == if !c.Start? && x == c.p then s[x].(sibling := r) else s[x]
  }

  lemma {:induction false} Replug(c: Prefix, f: Forest, s: Store, f': Forest, s': Store)
    requires Rep(Plug(c, f), null, s) && Rep(f', null, s') && Relinked(c, s, Head(f'), s')
    requires forall x :: x in s ==> CountBefore(c, x) <= 1
    ensures Rep(Plug(c, f'), null, s')
    decreases c
  {
    if !c.Start? {
      PlugRep(c, f, s);
      Kept(c.kids, c.p, s, s');
      RepMake(Cons(c.p, c.k, c.d, c.kids, f'), null, s');
      assert forall x :: x in s && CountBefore(c.up, x) > 0 ==> CountBefore(c, x) > 0 && x != c.p;
      if !c.up.Start? { PlugRep(c.up, Cons(c.p, c.k, c.d, c.kids, f), s); }
      Replug(c.up, Cons(c.p, c.k, c.d, c.kids, f), s, Cons(c.p, c.k, c.d, c.kids, f'), s');
    }
  }

  lemma {:induction false} PlugHead(c: Prefix, f: Forest, f': Forest)
    ensures c.Start? ==> Head(Plug(c, f)) == Head(f)
    ensures !c.Start? ==> Head(Plug(c, f)) == Head(Plug(c, f')) && Plug(c, f).Cons?
    decreases c
  {
    if !c.Start? { PlugHead(c.up, Cons(c.p, c.k, c.d, c.kids, f), Cons(c.p, c.k, c.d, c.kids, f')); }
  }
}
