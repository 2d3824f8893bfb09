// The subtree test by traversal strings (BinarySubTree.cpp).
module SubtreeTest {
  datatype Tree = Missing | Node(key: char, left: Tree, right: Tree)

  const MAX := 100
  const NUL: char := '\0'

  // What storeInorder and storePreOrder append.
  function InString(t: Tree): string {
    match t
    case Missing => ['$']
    case Node(key, l, r) => InString(l) + [key] + InString(r)
  }

  function PreString(t: Tree): string {
    match t
    case Missing => ['$']
    case Node(key, l, r) => [key] + PreString(l) + PreString(r)
  }

  // The keys are none of the characters the strings and strstr use themselves.
  predicate Proper(t: Tree) {
    t.Node? ==> t.key != '$' && t.key != NUL && Proper(t.left) && Proper(t.right)
  }

  lemma {:induction false} StringsHaveNoNul(t: Tree)
    requires Proper(t)
    ensures NUL !in InString(t) && NUL !in PreString(t) && |InString(t)| == |PreString(t)| > 0
  {
    if t.Node? {
      StringsHaveNoNul(t.left);
      StringsHaveNoNul(t.right);
    }
  }

  // ----- The traversals on buffers -----

  method StoreInorder(root: Tree, arr: array<char>, i: nat) returns (i': nat)
    requires i + |InString(root)| <= arr.Length
    modifies arr
    ensures i' == i + |InString(root)| && arr[..i'] == old(arr[..i]) + InString(root)
    decreases root
  {
    match root
    case Missing =>
      arr[i] := '$';
      i' := i + 1;
    case Node(key, left, right) =>
      i' := StoreInorder(left, arr, i);
      arr[i'] := key;
      assert arr[..i' + 1] == old(arr[..i]) + InString(left) + [key];
      i' := StoreInorder(right, arr, i' + 1);
      assert old(arr[..i]) + InString(left) + [key] + InString(right) == old(arr[..i]) + (InString(left) + [key] + InString(right));
  }

  method StorePreOrder(root: Tree, arr: array<char>, i: nat) returns (i': nat)
    requires i + |PreString(root)| <= arr.Length
    modifies arr
    ensures i' == i + |PreString(root)| && arr[..i'] == old(arr[..i]) + PreString(root)
    decreases root
  {
    match root
    case Missing =>
      arr[i] := '$';
      i' := i + 1;
    case Node(key, left, right) =>
      arr[i] := key;
      assert arr[..i + 1] == old(arr[..i]) + [key];
      i' := StorePreOrder(left, arr, i + 1);
      i' := StorePreOrder(right, arr, i');
      assert old(arr[..i]) + [key] + PreString(left) + PreString(right) == old(arr[..i]) + ([key] + PreString(left) + PreString(right));
  }

  // The string in a buffer: what comes before its first NUL.
  function CString(buffer: string): string {
    if buffer == [] || buffer[0] == NUL then [] else [buffer[0]] + CString(buffer[1..])
  }

  lemma {:induction false} CStringIs(s: string, rest: string)
    requires NUL !in s
    ensures CString(s + [NUL] + rest) == s
  {
    var b := s + [NUL] + rest;
    if s != [] {
      assert b[1..] == s[1..] + [NUL] + rest && b[0] == s[0];
      CStringIs(s[1..], rest);
    }
  }

  predicate At(hay: string, needle: string, k: int) {
    0 <= k && k + |needle| <= |hay| && hay[k..k + |needle|] == needle
  }

  // strstr(hay, needle) != NULL
  predicate Occurs(hay: string, needle: string) {
    exists k :: 0 <= k <= |hay| && At(hay, needle, k)
  }

  method IsSubtree(T: Tree, S: Tree) returns (answer: bool)
    requires T.Node? && S.Node? ==> Proper(T) && Proper(S) && |PreString(T)| < MAX && |PreString(S)| < MAX
    ensures answer <==> S.Missing? || Within(S, T)
  {
    hide CString, InString, PreString, Occurs, Proper;
    if S.Missing? {
      return true;
    }
    if T.Missing? {
      return false;
    }
    StringsHaveNoNul(T);
    StringsHaveNoNul(S);
    var inT, inS := new char[MAX], new char[MAX];
    var m := StoreInorder(T, inT, 0);
    var n := StoreInorder(S, inS, 0);
    inT[m], inS[n] := NUL, NUL;
    Terminated(inT[..], InString(T));
    Terminated(inS[..], InString(S));
    if !Occurs(CString(inT[..]), CString(inS[..])) {
      if Within(S, T) { WithinOccurs(S, T); }
      return false;
    }
    var preT, preS := new char[MAX], new char[MAX];
    m := StorePreOrder(T, preT, 0);
    n := StorePreOrder(S, preS, 0);
    preT[m], preS[n] := NUL, NUL;
    Terminated(preT[..], PreString(T));
    Terminated(preS[..], PreString(S));
    answer := Occurs(CString(preT[..]), CString(preS[..]));
    OccursExactly(S, T);
  }

  lemma Terminated(buffer: string, s: string)
    requires NUL !in s && |s| < |buffer| && buffer[..|s|] == s && buffer[|s|] == NUL
    ensures CString(buffer) == s
  {
    assert buffer == s + [NUL] + buffer[|s| + 1..];
    CStringIs(s, buffer[|s| + 1..]);
  }

  // ----- What the strings say about the trees -----

  // s is t or below it.
  predicate Within(s: Tree, t: Tree) {
    s == t || (t.Node? && (Within(s, t.left) || Within(s, t.right)))
  }

  // No traversal string begins another one.
  lemma {:induction false} PrefixFree(a: Tree, b: Tree, x: string, y: string)
    requires Proper(a) && Proper(b) && PreString(a) + x == PreString(b) + y
    ensures a == b && x == y
  {
    var s := PreString(a) + x;
    assert s[0] == PreString(a)[0] == PreString(b)[0];
    if a.Node? {
      var xa, xb := PreString(a.right) + x, PreString(b.right) + y;
      assert s[1..] == PreString(a.left) + xa && s[1..] == PreString(b.left) + xb;
      PrefixFree(a.left, b.left, xa, xb);
      PrefixFree(a.right, b.right, x, y);
    } else {
      assert s[1..] == x && s[1..] == y;
    }
  }

  // At every place of the string of t, the string of some subtree begins.
  lemma {:induction false} SubtreeAt(t: Tree, k: nat) returns (u: Tree, y: string)
    requires k < |PreString(t)| && Proper(t)
    ensures Within(u, t) && Proper(u) && PreString(t)[k..] == PreString(u) + y
  {
    if k == 0 {
      u, y := t, [];
    } else {
      var l, r := PreString(t.left), PreString(t.right);
      if k - 1 < |l| {
        u, y := SubtreeAt(t.left, k - 1);
        assert PreString(t)[k..] == l[k - 1..] + r;
        y := y + r;
      } else {
        u, y := SubtreeAt(t.right, k - 1 - |l|);
        assert PreString(t)[k..] == r[k - 1 - |l|..];
      }
    }
  }

  lemma OccursTrans(x: string, s: string, y: string, needle: string)
    requires Occurs(s, needle)
    ensures Occurs(x + s + y, needle)
  {
    var k :| 0 <= k <= |s| && At(s, needle, k);
    assert (x + s + y)[|x| + k..|x| + k + |needle|] == s[k..k + |needle|];
    assert At(x + s + y, needle, |x| + k);
  }

  lemma {:induction false} WithinOccurs(s: Tree, t: Tree)
    requires Within(s, t)
    ensures Occurs(InString(t), InString(s)) && Occurs(PreString(t), PreString(s))
  {
    if s == t {
      assert At(InString(t), InString(s), 0) && At(PreString(t), PreString(s), 0);
    } else if Within(s, t.left) {
      WithinOccurs(s, t.left);
      OccursTrans([], InString(t.left), [t.key] + InString(t.right), InString(s));
      OccursTrans([t.key], PreString(t.left), PreString(t.right), PreString(s));
      assert [] + InString(t.left) + ([t.key] + InString(t.right)) == InString(t);
    } else {
      WithinOccurs(s, t.right);
      OccursTrans(InString(t.left) + [t.key], InString(t.right), [], InString(s));
      OccursTrans([t.key] + PreString(t.left), PreString(t.right), [], PreString(s));
      assert InString(t.left) + [t.key] + InString(t.right) + [] == InString(t);
      assert [t.key] + PreString(t.left) + PreString(t.right) + [] == PreString(t);
    }
  }

  // The preorder string alone decides; the inorder string never says otherwise.
  lemma OccursExactly(s: Tree, t: Tree)
    requires Proper(s) && Proper(t) && s.Node?
    ensures Occurs(PreString(t), PreString(s)) <==> Within(s, t)
    ensures Occurs(PreString(t), PreString(s)) ==> Occurs(InString(t), InString(s))
  {
    hide InString, PreString, Proper, Within;
    if Within(s, t) { WithinOccurs(s, t); }
    if Occurs(PreString(t), PreString(s)) {
      var k :| 0 <= k <= |PreString(t)| && At(PreString(t), PreString(s), k);
      StringsHaveNoNul(s);
      var u, y := SubtreeAt(t, k);
      assert PreString(t)[k..] == PreString(s) + PreString(t)[k + |PreString(s)|..];
      PrefixFree(u, s, y, PreString(t)[k + |PreString(s)|..]);
      WithinOccurs(s, t);
    }
  }
}
