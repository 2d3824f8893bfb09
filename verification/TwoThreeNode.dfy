// The node of the 2-3 tree (CNode.h): two keys with set flags, three children
// and a parent link, all updated in place. A node set's contents are also
// available as a value, a Store, and every setter says which store it leaves.
module TwoThreeNode {

  // eTraverseDirection
  datatype Direction = LeftChild | MiddleChild | RightChild

  // eNodeSize
  datatype NodeSize = EmptyNode | TwoNode | ThreeNode

  // A key, or the null pointer.
  datatype Option<T> = None | Some(value: T)

  // m_pChildren[MAX_CHILDREN]
  datatype Children = Children(left: CNode?, middle: CNode?, right: CNode?) {
    function Get(d: Direction): CNode? {
      match d
      case LeftChild => left
      case MiddleChild => middle
      case RightChild => right
    }

    function Put(d: Direction, c: CNode?): Children {
      match d
      case LeftChild => this.(left := c)
      case MiddleChild => this.(middle := c)
      case RightChild => this.(right := c)
    }
  }

  // A node's keys and children, as a value.
  datatype Body = Body(small: int, smallSet: bool, big: int, bigSet: bool, children: Children)

  datatype Cell = Cell(body: Body, parent: CNode?)

  type Store = map<CNode, Cell>

  class CNode {
    var smallKey: int
    var bigKey: int
    var parent: CNode?
    var bigKeyIsSet: bool
    var smallKeyIsSet: bool
    var children: Children

    ghost function AsCell(): Cell
      reads this
    {
      Cell(Body(smallKey, smallKeyIsSet, bigKey, bigKeyIsSet, children), parent)
    }

    // CNode(void)
    constructor Empty(ghost S: set<CNode>)
      ensures smallKeyIsSet == bigKeyIsSet == false && children == Children(null, null, null) && parent == null
      ensures this !in S
    {
      smallKeyIsSet, bigKeyIsSet := false, false;
      children, parent := Children(null, null, null), null;
    }

    // CNode(pLeftChild, pRightChild, pSmallKey); without a key the small key is left
    // as it is.
    constructor (l: CNode?, r: CNode?, k: Option<int>, ghost S: set<CNode>)
      requires IsIn(l, S) && IsIn(r, S)
      modifies if l == null then {} else {l}`parent
      modifies if r == null then {} else {r}`parent
      ensures this !in S
      ensures k.Some? ==> smallKey == k.value
      ensures AsCell() == Cell(Body(smallKey, k.Some?, bigKey, false, Children(l, null, r)), null)
      ensures At(S) == Adopted(Adopted(old(At(S)), l, this), r, this)
    {
      children, bigKeyIsSet, parent := Children(l, null, r), false, null;
      smallKeyIsSet := k.Some?;
      if k.Some? {
        smallKey := k.value;
      }
      new;
      ghost var s := At(S);
      if l != null {
        l.parent := this;
        assert At(S) == s[l := l.AsCell()];
      }
      s := At(S);
      if r != null {
        r.parent := this;
        assert At(S) == s[r := r.AsCell()];
      }
    }

    method SetParent(p: CNode?, ghost S: set<CNode>)
      requires this in S
      modifies this`parent
      ensures At(S) == PutParent(old(At(S)), this, p)
    {
      parent := p;
      assert At(S) == old(At(S))[this := AsCell()];
    }

    method SetChild(d: Direction, c: CNode?, ghost S: set<CNode>)
      requires this in S && IsIn(c, S)
      modifies this`children
      modifies if c == null then {} else {c}`parent
      ensures At(S) == PutChild(old(At(S)), this, d, c)
    {
      children := children.Put(d, c);
      assert At(S) == old(At(S))[this := AsCell()];
      ghost var s := At(S);
      if c != null {
        c.parent := this;
        assert At(S) == s[c := c.AsCell()];
      }
    }

    method SetSmallKey(k: int, ghost S: set<CNode>)
      requires this in S
      modifies this`smallKey, this`smallKeyIsSet
      ensures At(S) == PutSmallKey(old(At(S)), this, k)
    {
      smallKey, smallKeyIsSet := k, true;
      assert At(S) == old(At(S))[this := AsCell()];
    }

    // setSmallKey(0)
    method UnsetSmallKey(ghost S: set<CNode>)
      requires this in S
      modifies this`smallKeyIsSet
      ensures At(S) == DropSmallKey(old(At(S)), this)
    {
      smallKeyIsSet := false;
      assert At(S) == old(At(S))[this := AsCell()];
    }

    method SetBigKey(k: int, ghost S: set<CNode>)
      requires this in S
      modifies this`bigKey, this`bigKeyIsSet
      ensures At(S) == PutBigKey(old(At(S)), this, k)
    {
      bigKey, bigKeyIsSet := k, true;
      assert At(S) == old(At(S))[this := AsCell()];
    }

    // setBigKey(0)
    method UnsetBigKey(ghost S: set<CNode>)
      requires this in S
      modifies this`bigKeyIsSet
      ensures At(S) == DropBigKey(old(At(S)), this)
    {
      bigKeyIsSet := false;
      assert At(S) == old(At(S))[this := AsCell()];
    }

    // getChild and getParent of a node of S, that is, of one that has not been deleted.
    method GetChild(d: Direction, ghost S: set<CNode>) returns (c: CNode?)
      requires this in S
      ensures c == children.Get(d)
    {
      c := children.Get(d);
    }

    method GetParent(ghost S: set<CNode>) returns (p: CNode?)
      requires this in S
      ensures p == parent
    {
      p := parent;
    }

    function GetSize(): NodeSize
      reads this`smallKeyIsSet, this`bigKeyIsSet
    {
      if bigKeyIsSet && smallKeyIsSet then ThreeNode
      else if smallKeyIsSet then TwoNode
      else EmptyNode
    }

    // The source tests the middle child twice and the right child not at all.
    predicate IsLeaf()
      reads this`children
    {
      children.left == null && children.middle == null && children.middle == null
    }
  }

  predicate IsIn(c: CNode?, S: set<CNode>) {
    c == null || c in S
  }

  // The contents of the nodes of S.
  ghost function At(S: set<CNode>): Store
    reads S
  {
    map n | n in S :: n.AsCell()
  }

  // ----- What the setters do to a store -----

  function PutBody(s: Store, n: CNode, b: Body): (r: Store)
    requires n in s
    ensures r.Keys == s.Keys
    ensures forall x :: x in s ==> r[x] == if x == n then Cell(b, s[x].parent) else s[x]
  {
    s[n := s[n].(body := b)]
  }

  function PutParent(s: Store, n: CNode, p: CNode?): (r: Store)
    requires n in s
    ensures r.Keys == s.Keys
    ensures forall x :: x in s ==> r[x].body == s[x].body && r[x].parent == if x == n then p else s[x].parent
  {
    s[n := s[n].(parent := p)]
  }

  // c's parent link is set if there is a node c at all.
  function Adopted(s: Store, c: CNode?, p: CNode): (r: Store)
    ensures r.Keys == s.Keys
    ensures forall x :: x in s ==> r[x].body == s[x].body && r[x].parent == if x == c then p else s[x].parent
  {
    if c == null || c !in s then s else PutParent(s, c, p)
  }

  function PutChild(s: Store, n: CNode, d: Direction, c: CNode?): Store
    requires n in s
  {
    Adopted(PutBody(s, n, s[n].body.(children := s[n].body.children.Put(d, c))), c, n)
  }

  function PutSmallKey(s: Store, n: CNode, k: int): Store
    requires n in s
  {
    PutBody(s, n, s[n].body.(small := k, smallSet := true))
  }

  function PutBigKey(s: Store, n: CNode, k: int): Store
    requires n in s
  {
    PutBody(s, n, s[n].body.(big := k, bigSet := true))
  }

  function DropSmallKey(s: Store, n: CNode): Store
    requires n in s
  {
    PutBody(s, n, s[n].body.(smallSet := false))
  }

  function DropBigKey(s: Store, n: CNode): Store
    requires n in s
  {
    PutBody(s, n, s[n].body.(bigSet := false))
  }
}
