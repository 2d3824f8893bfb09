// Edit distance (EditDistance.cpp): the recursion gives the length of a shortest
// edit script, and is a metric.
module EditDistance {

  function Min(x: int, y: int, z: int): (r: int)
    ensures r <= x && r <= y && r <= z
    ensures r == x || r == y || r == z
  {
    var m := if y < x then y else x;
    if z < m then z else m
  }

  // The recursion of the source: the distance between the first m characters
  // of s and the first n characters of t.
  function EditDist(s: string, t: string, m: nat, n: nat): nat
    requires m <= |s| && n <= |t|
  {
    if m == 0 then n
    else if n == 0 then m
    else if s[m - 1] == t[n - 1] then EditDist(s, t, m - 1, n - 1)
    else 1 + Min(EditDist(s, t, m, n - 1), EditDist(s, t, m - 1, n), EditDist(s, t, m - 1, n - 1))
  }

  function Dist(s: string, t: string): nat {
    EditDist(s, t, |s|, |t|)
  }

  // ----- The reference: single-character edits and scripts of them -----

  datatype Edit = Insert(pos: nat, c: char) | Remove(pos: nat) | Replace(pos: nat, c: char)

  predicate Applicable(e: Edit, s: string) {
    match e
    case Insert(pos, _) => pos <= |s|
    case Remove(pos) => pos < |s|
    case Replace(pos, _) => pos < |s|
  }

  function Apply(e: Edit, s: string): string
    requires Applicable(e, s)
  {
    match e
    case Insert(pos, c) => s[..pos] + [c] + s[pos..]
    case Remove(pos) => s[..pos] + s[pos + 1..]
    case Replace(pos, c) => s[..pos] + [c] + s[pos + 1..]
  }

  // Performing the edits of the script one after the other turns s into t.
  predicate Turns(script: seq<Edit>, s: string, t: string) {
    if script == [] then s == t
    else Applicable(script[0], s) && Turns(script[1..], Apply(script[0], s), t)
  }

  // ----- Upper bound: a script of length Dist exists -----

  // The script the recursion finds; it works on the strings from their ends.
  ghost function Script(s: string, t: string, m: nat, n: nat): (r: seq<Edit>)
    requires m <= |s| && n <= |t|
    ensures |r| == EditDist(s, t, m, n)
  {
    if m == 0 && n == 0 then []
    else if m == 0 then
      [Insert(0, t[n - 1])] + Script(s, t, 0, n - 1)
    else if n == 0 then
      [Remove(m - 1)] + Script(s, t, m - 1, 0)
    else if s[m - 1] == t[n - 1] then
      Script(s, t, m - 1, n - 1)
    else
      var best := EditDist(s, t, m, n) - 1;
      if best == EditDist(s, t, m, n - 1) then [Insert(m, t[n - 1])] + Script(s, t, m, n - 1)
      else if best == EditDist(s, t, m - 1, n) then [Remove(m - 1)] + Script(s, t, m - 1, n)
      else [Replace(m - 1, t[n - 1])] + Script(s, t, m - 1, n - 1)
  }

  lemma {:induction false} TurnsCons(e: Edit, rest: seq<Edit>, s: string, t: string)
    requires Applicable(e, s) && Turns(rest, Apply(e, s), t)
    ensures Turns([e] + rest, s, t)
  {
    assert ([e] + rest)[1..] == rest;
  }

  // What one edit of the script does to a prefix with text w behind it.
  lemma EditsAtTheEnd(s: string, m: nat, c: char, w: string)
    requires m <= |s|
    ensures Applicable(Insert(m, c), s[..m] + w)
    ensures Apply(Insert(m, c), s[..m] + w) == s[..m] + ([c] + w)
    ensures m > 0 ==> Applicable(Remove(m - 1), s[..m] + w) && Apply(Remove(m - 1), s[..m] + w) == s[..m - 1] + w
    ensures m > 0 ==> Applicable(Replace(m - 1, c), s[..m] + w)
    ensures m > 0 ==> Apply(Replace(m - 1, c), s[..m] + w) == s[..m - 1] + ([c] + w)
    ensures m > 0 && s[m - 1] == c ==> s[..m] + w == s[..m - 1] + ([c] + w)
  {
  }

  // The script rewrites the prefix and leaves any text w behind it alone.
  lemma {:induction false} ScriptTurns(s: string, t: string, m: nat, n: nat, w: string)
    requires m <= |s| && n <= |t|
    ensures Turns(Script(s, t, m, n), s[..m] + w, t[..n] + w)
    decreases m + n
  {
    hide EditDist;
    if m == 0 && n == 0 {
      assert s[..0] + w == t[..0] + w;
    } else if m > 0 && n > 0 && s[m - 1] == t[n - 1] {
      EditsAtTheEnd(s, m, t[n - 1], w);
      EditsAtTheEnd(t, n, t[n - 1], w);
      ScriptTurns(s, t, m - 1, n - 1, [t[n - 1]] + w);
    } else {
      ScriptTurnsEdit(s, t, m, n, w);
    }
  }

  lemma ScriptShape(s: string, t: string, m: nat, n: nat)
    requires m <= |s| && n <= |t| && m + n > 0
    requires m > 0 && n > 0 ==> s[m - 1] != t[n - 1]
    ensures
      || (n > 0 && Script(s, t, m, n) == [Insert(m, t[n - 1])] + Script(s, t, m, n - 1))
      || (m > 0 && Script(s, t, m, n) == [Remove(m - 1)] + Script(s, t, m - 1, n))
      || (m > 0 && n > 0 && Script(s, t, m, n) == [Replace(m - 1, t[n - 1])] + Script(s, t, m - 1, n - 1))
  {
    hide Min;
    var d := EditDist(s, t, m, n);
  }

  lemma {:induction false} ScriptTurnsEdit(s: string, t: string, m: nat, n: nat, w: string)
    requires m <= |s| && n <= |t| && m + n > 0
    requires m > 0 && n > 0 ==> s[m - 1] != t[n - 1]
    ensures Turns(Script(s, t, m, n), s[..m] + w, t[..n] + w)
    decreases m + n, 0
  {
    hide *;
    ScriptShape(s, t, m, n);
    var here, there := s[..m] + w, t[..n] + w;
    EditsAtTheEnd(s, m, if n > 0 then t[n - 1] else ' ', w);
    if n > 0 { EditsAtTheEnd(t, n, t[n - 1], w); }
    if n > 0 && Script(s, t, m, n) == [Insert(m, t[n - 1])] + Script(s, t, m, n - 1) {
      ScriptTurns(s, t, m, n - 1, [t[n - 1]] + w);
      TurnsCons(Insert(m, t[n - 1]), Script(s, t, m, n - 1), here, there);
    } else if m > 0 && Script(s, t, m, n) == [Remove(m - 1)] + Script(s, t, m - 1, n) {
      ScriptTurns(s, t, m - 1, n, w);
      TurnsCons(Remove(m - 1), Script(s, t, m - 1, n), here, there);
    } else {
      ScriptTurns(s, t, m - 1, n - 1, [t[n - 1]] + w);
      TurnsCons(Replace(m - 1, t[n - 1]), Script(s, t, m - 1, n - 1), here, there);
    }
  }

  // ----- Lower bound: no script is shorter -----

  // Dropping a last character moves the distance by at most one.
  lemma {:induction false} Neighbours(s: string, t: string, m: nat, n: nat)
    requires m <= |s| && n <= |t|
    ensures m > 0 ==> EditDist(s, t, m, n) <= EditDist(s, t, m - 1, n) + 1
    ensures m > 0 ==> EditDist(s, t, m - 1, n) <= EditDist(s, t, m, n) + 1
    ensures n > 0 ==> EditDist(s, t, m, n) <= EditDist(s, t, m, n - 1) + 1
    ensures n > 0 ==> EditDist(s, t, m, n - 1) <= EditDist(s, t, m, n) + 1
    ensures m > 0 && n > 0 ==> EditDist(s, t, m, n) <= EditDist(s, t, m - 1, n - 1) + 1
    decreases m + n
  {
    if m > 0 && n > 0 {
      Neighbours(s, t, m - 1, n - 1);
      Neighbours(s, t, m - 1, n);
      Neighbours(s, t, m, n - 1);
    }
  }

  lemma {:induction false} LengthBounds(s: string, t: string, m: nat, n: nat)
    requires m <= |s| && n <= |t|
    ensures m <= n + EditDist(s, t, m, n) && n <= m + EditDist(s, t, m, n)
    ensures EditDist(s, t, m, n) <= m + n
    decreases m + n
  {
    if m > 0 && n > 0 {
      LengthBounds(s, t, m - 1, n - 1);
      LengthBounds(s, t, m - 1, n);
      LengthBounds(s, t, m, n - 1);
    }
  }

  // One step of the recursion away from the left edges: how the last column of
  // an optimal alignment may look.
  predicate EndsWithMatch(s: string, t: string, m: nat, n: nat)
    requires m <= |s| && n <= |t|
  {
    m > 0 && n > 0 &&
    EditDist(s, t, m, n) == EditDist(s, t, m - 1, n - 1) + (if s[m - 1] == t[n - 1] then 0 else 1)
  }

  predicate EndsWithInsert(s: string, t: string, m: nat, n: nat)
    requires m <= |s| && n <= |t|
  {
    n > 0 && EditDist(s, t, m, n) == EditDist(s, t, m, n - 1) + 1
  }

  predicate EndsWithRemove(s: string, t: string, m: nat, n: nat)
    requires m <= |s| && n <= |t|
  {
    m > 0 && EditDist(s, t, m, n) == EditDist(s, t, m - 1, n) + 1
  }

  lemma LastStep(s: string, t: string, m: nat, n: nat)
    requires 0 < m <= |s| && 0 < n <= |t|
    ensures EndsWithMatch(s, t, m, n) || EndsWithInsert(s, t, m, n) || EndsWithRemove(s, t, m, n)
  {
  }

  lemma LastCost(s: string, t: string, m: nat, n: nat)
    requires 0 < m <= |s| && 0 < n <= |t|
    ensures EditDist(s, t, m, n) <= EditDist(s, t, m - 1, n - 1) + (if s[m - 1] == t[n - 1] then 0 else 1)
  {
    Neighbours(s, t, m, n);
  }

  // The triangle inequality on prefixes, by cases on the last step of each leg.
  lemma {:induction false} TrianglePrefix(s: string, t: string, u: string, i: nat, j: nat, k: nat)
    requires i <= |s| && j <= |t| && k <= |u|
    ensures EditDist(s, u, i, k) <= EditDist(s, t, i, j) + EditDist(t, u, j, k)
    decreases i + j + k
  {
    if i == 0 || j == 0 || k == 0 {
      LengthBounds(s, t, i, j);
      LengthBounds(t, u, j, k);
      LengthBounds(s, u, i, k);
    } else {
      LastStep(s, t, i, j);
      LastStep(t, u, j, k);
      TriangleStep(s, t, u, i, j, k);
    }
  }

  lemma {:induction false} TriangleStep(s: string, t: string, u: string, i: nat, j: nat, k: nat)
    requires 0 < i <= |s| && 0 < j <= |t| && 0 < k <= |u|
    requires EndsWithMatch(s, t, i, j) || EndsWithInsert(s, t, i, j) || EndsWithRemove(s, t, i, j)
    requires EndsWithMatch(t, u, j, k) || EndsWithInsert(t, u, j, k) || EndsWithRemove(t, u, j, k)
    ensures EditDist(s, u, i, k) <= EditDist(s, t, i, j) + EditDist(t, u, j, k)
    decreases i + j + k, 0
  {
    hide EditDist;
    Neighbours(s, u, i, k);
    LastCost(s, u, i, k);
    if EndsWithRemove(s, t, i, j) {
      TrianglePrefix(s, t, u, i - 1, j, k);
    } else if EndsWithInsert(t, u, j, k) {
      TrianglePrefix(s, t, u, i, j, k - 1);
    } else if EndsWithInsert(s, t, i, j) && EndsWithRemove(t, u, j, k) {
      TrianglePrefix(s, t, u, i, j - 1, k);
    } else if EndsWithInsert(s, t, i, j) {
      TrianglePrefix(s, t, u, i, j - 1, k - 1);
    } else if EndsWithRemove(t, u, j, k) {
      TrianglePrefix(s, t, u, i - 1, j - 1, k);
    } else {
      TrianglePrefix(s, t, u, i - 1, j - 1, k - 1);
    }
  }

  lemma {:induction false} EqualPrefixes(s: string, t: string, m: nat)
    requires m <= |s| && m <= |t| && s[..m] == t[..m]
    ensures EditDist(s, t, m, m) == 0
  {
    if m > 0 {
      assert s[m - 1] == s[..m][m - 1] == t[m - 1];
      assert s[..m - 1] == s[..m][..m - 1] == t[..m - 1];
      EqualPrefixes(s, t, m - 1);
    }
  }

  lemma {:induction false} CommonSuffix(s: string, t: string, m: nat, n: nat, d: nat)
    requires m + d <= |s| && n + d <= |t|
    requires s[m..m + d] == t[n..n + d]
    ensures EditDist(s, t, m + d, n + d) == EditDist(s, t, m, n)
  {
    if d > 0 {
      assert s[m + d - 1] == s[m..m + d][d - 1] == t[n + d - 1];
      assert s[m..m + d - 1] == s[m..m + d][..d - 1] == t[n..n + d - 1];
      CommonSuffix(s, t, m, n, d - 1);
    }
  }

  // Strings that agree up to p, and from a and b on, are as far apart as their
  // middles.
  lemma {:induction false} SameAround(s: string, t: string, p: nat, a: nat, b: nat)
    requires p <= a <= |s| && p <= b <= |t|
    requires s[..p] == t[..p] && s[a..] == t[b..]
    ensures Dist(s, t) == EditDist(s, t, a, b) && EditDist(s, t, p, p) == 0
  {
    EqualPrefixes(s, t, p);
    assert s[a..] == s[a..a + (|s| - a)] && t[b..] == t[b..b + (|t| - b)];
    CommonSuffix(s, t, a, b, |s| - a);
  }

  lemma {:induction false} OneEdit(e: Edit, s: string)
    requires Applicable(e, s)
    ensures Dist(s, Apply(e, s)) <= 1
  {
    var t := Apply(e, s);
    var p := e.pos;
    assert s[..p] == t[..p];
    match e {
      case Insert(_, _) =>
        assert s[p..] == t[p + 1..];
        SameAround(s, t, p, p, p + 1);
        Neighbours(s, t, p, p + 1);
      case Remove(_) =>
        assert s[p + 1..] == t[p..];
        SameAround(s, t, p, p + 1, p);
        Neighbours(s, t, p + 1, p);
      case Replace(_, _) =>
        assert s[p + 1..] == t[p + 1..];
        SameAround(s, t, p, p + 1, p + 1);
        Neighbours(s, t, p + 1, p + 1);
    }
  }

  lemma {:induction false} NoShorterScript(script: seq<Edit>, s: string, t: string)
    requires Turns(script, s, t)
    ensures Dist(s, t) <= |script|
    decreases |script|
  {
    if script == [] {
      EqualPrefixes(s, t, |s|);
    } else {
      var s' := Apply(script[0], s);
      OneEdit(script[0], s);
      NoShorterScript(script[1..], s', t);
      TrianglePrefix(s, s', t, |s|, |s'|, |t|);
    }
  }

  // ----- Main results -----

  // The recursion computes the length of a shortest edit script.
  lemma {:induction false} DistIsShortestScript(s: string, t: string)
    ensures exists script: seq<Edit> :: Turns(script, s, t) && |script| == Dist(s, t)
    ensures forall script: seq<Edit> :: Turns(script, s, t) ==> Dist(s, t) <= |script|
  {
    ScriptTurns(s, t, |s|, |t|, []);
    assert s[..|s|] + [] == s && t[..|t|] + [] == t;
    forall script: seq<Edit> | Turns(script, s, t)
      ensures Dist(s, t) <= |script|
    {
      NoShorterScript(script, s, t);
    }
  }

  lemma {:induction false} SymmetricPrefix(s: string, t: string, m: nat, n: nat)
    requires m <= |s| && n <= |t|
    ensures EditDist(s, t, m, n) == EditDist(t, s, n, m)
    decreases m + n
  {
    if m > 0 && n > 0 {
      SymmetricPrefix(s, t, m - 1, n - 1);
      SymmetricPrefix(s, t, m - 1, n);
      SymmetricPrefix(s, t, m, n - 1);
    }
  }

  // Edit distance is a metric on strings.
  lemma {:induction false} DistIsMetric(s: string, t: string, u: string)
    ensures Dist(s, t) == 0 <==> s == t
    ensures Dist(s, t) == Dist(t, s)
    ensures Dist(s, u) <= Dist(s, t) + Dist(t, u)
  {
    SymmetricPrefix(s, t, |s|, |t|);
    TrianglePrefix(s, t, u, |s|, |t|, |u|);
    DistIsShortestScript(s, t);
    if s == t {
      EqualPrefixes(s, t, |s|);
    }
  }
}
