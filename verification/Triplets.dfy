// Counting triplets by sorting and two moving ends (Triplets.cpp).
module Triplets {

  // ----- Choices of indices, and how many of them sum to less than a bound -----

  // Ascending choices of k indices of s, from index lo on.
  function Choices(s: seq<int>, k: nat, lo: nat): set<seq<nat>>
    requires lo <= |s|
    decreases |s| - lo
  {
    if k == 0 then {[]}
    else if lo == |s| then {}
    else (set c | c in Choices(s, k - 1, lo + 1) :: [lo] + c) + Choices(s, k, lo + 1)
  }

  predicate IsChoice(s: seq<int>, k: nat, lo: nat, c: seq<nat>) {
    |c| == k && (forall i :: 0 <= i < k ==> lo <= c[i] < |s|) && forall i, j :: 0 <= i < j < k ==> c[i] < c[j]
  }

  // The first index is lo, or all are beyond it.
  lemma ChoiceSplits(s: seq<int>, k: nat, lo: nat, c: seq<nat>)
    requires k > 0 && lo < |s|
    ensures IsChoice(s, k, lo, c) <==>
      IsChoice(s, k, lo + 1, c) || (c != [] && c[0] == lo && IsChoice(s, k - 1, lo + 1, c[1..]))
  {
    if c != [] {
      var rest := c[1..];
      assert forall i :: 0 <= i < |rest| ==> rest[i] == c[i + 1];
      if IsChoice(s, k, lo, c) {
        forall i, j | 0 <= i < j < k - 1 ensures rest[i] < rest[j] { assert c[i + 1] < c[j + 1]; }
        forall i | 0 <= i < k - 1 ensures c[0] < rest[i] { assert c[0] < c[i + 1]; }
      }
      if c[0] == lo && IsChoice(s, k - 1, lo + 1, rest) {
        forall i, j | 0 <= i < j < k ensures c[i] < c[j] {
          assert c[j] == rest[j - 1] && (i > 0 ==> c[i] == rest[i - 1]);
        }
      }
    }
  }

  lemma {:induction false} ChoicesAre(s: seq<int>, k: nat, lo: nat, c: seq<nat>)
    requires lo <= |s|
    ensures c in Choices(s, k, lo) <==> IsChoice(s, k, lo, c)
    decreases |s| - lo
  {
    if k > 0 {
      if lo == |s| {
        assert |c| == k ==> !(lo <= c[0] < |s|);
      } else {
        ChoiceSplits(s, k, lo, c);
        ChoicesAre(s, k, lo + 1, c);
        if c != [] {
          ChoicesAre(s, k - 1, lo + 1, c[1..]);
          assert c == [c[0]] + c[1..];
        }
        forall d | d in Choices(s, k - 1, lo + 1) && c == [lo] + d ensures d == c[1..] {}
      }
    }
  }

  function Total(s: seq<int>, c: seq<nat>): int
    requires forall i :: 0 <= i < |c| ==> c[i] < |s|
  {
    if c == [] then 0 else s[c[0]] + Total(s, c[1..])
  }

  predicate Below(s: seq<int>, c: seq<nat>, bound: int) {
    (forall i :: 0 <= i < |c| ==> c[i] < |s|) && Total(s, c) < bound
  }

  function Under(s: seq<int>, k: nat, lo: nat, bound: int): set<seq<nat>>
    requires lo <= |s|
  {
    set c | c in Choices(s, k, lo) && Below(s, c, bound)
  }

  // Three indices i < j < k with values that sum to less than the bound, and no others.
  lemma TripletsAre(s: seq<int>, bound: int, i: nat, j: nat, k: nat)
    ensures [i, j, k] in Under(s, 3, 0, bound) <==> i < j < k < |s| && s[i] + s[j] + s[k] < bound
  {
    var c := [i, j, k];
    ChoicesAre(s, 3, 0, c);
    assert c[0] == i && c[1] == j && c[2] == k && c[1..] == [j, k] && [j, k][1..] == [k] && [k][1..] == [];
    if i < j < k < |s| {
      assert IsChoice(s, 3, 0, c);
      assert Total(s, [k]) == s[k] && Total(s, [j, k]) == s[j] + s[k];
    }
  }

  // The same number, counted along the sequence.
  function Count(s: seq<int>, k: nat, bound: int): nat {
    if k == 0 then if 0 < bound then 1 else 0
    else if s == [] then 0
    else Count(s[1..], k - 1, bound - s[0]) + Count(s[1..], k, bound)
  }

  function Prefixed(lo: nat, cs: set<seq<nat>>): set<seq<nat>> {
    set c | c in cs :: [lo] + c
  }

  lemma {:induction false} PrefixedSize(lo: nat, cs: set<seq<nat>>)
    ensures |Prefixed(lo, cs)| == |cs|
  {
    if cs != {} {
      var c :| c in cs;
      PrefixedSize(lo, cs - {c});
      forall d | d in cs - {c} ensures [lo] + d != [lo] + c {
        assert ([lo] + d)[1..] == d && ([lo] + c)[1..] == c;
      }
      assert Prefixed(lo, cs) == Prefixed(lo, cs - {c}) + {[lo] + c};
    }
  }

  lemma {:induction false} CountIsSize(s: seq<int>, k: nat, lo: nat, bound: int)
    requires lo <= |s|
    ensures Count(s[lo..], k, bound) == |Under(s, k, lo, bound)|
    decreases |s| - lo
  {
    if k == 0 {
      assert Under(s, 0, lo, bound) == if 0 < bound then {[]} else {};
    } else if lo == |s| {
      assert Under(s, k, lo, bound) == {};
    } else {
      CountIsSize(s, k - 1, lo + 1, bound - s[lo]);
      CountIsSize(s, k, lo + 1, bound);
      assert s[lo..][1..] == s[lo + 1..];
      var with, without := Prefixed(lo, Under(s, k - 1, lo + 1, bound - s[lo])), Under(s, k, lo + 1, bound);
      PrefixedSize(lo, Under(s, k - 1, lo + 1, bound - s[lo]));
      UnderSplits(s, k, lo, bound);
      forall c | c in without ensures c !in with {
        ChoicesAre(s, k, lo + 1, c);
      }
      assert |with + without| == |with| + |without|;
    }
  }

  lemma UnderSplits(s: seq<int>, k: nat, lo: nat, bound: int)
    requires lo < |s| && k > 0
    ensures Under(s, k, lo, bound) == Prefixed(lo, Under(s, k - 1, lo + 1, bound - s[lo])) + Under(s, k, lo + 1, bound)
  {
    forall c ensures c in Under(s, k, lo, bound) <==> c in Prefixed(lo, Under(s, k - 1, lo + 1, bound - s[lo])) || c in Under(s, k, lo + 1, bound) {
      if d :| d in Choices(s, k - 1, lo + 1) && c == [lo] + d {
        ChoicesAre(s, k - 1, lo + 1, d);
        assert c[1..] == d;
        assert Below(s, c, bound) <==> Below(s, d, bound - s[lo]) by {
          assert forall i :: 0 < i < |c| ==> c[i] == d[i - 1];
          assert forall i :: 0 <= i < |d| ==> d[i] == c[i + 1];
        }
      }
    }
  }

  // ----- The order does not matter -----

  function Without(s: seq<int>, i: nat): seq<int>
    requires i < |s|
  {
    s[..i] + s[i + 1..]
  }

  lemma {:induction false} CountTakesOut(s: seq<int>, i: nat, k: nat, bound: int)
    requires i < |s| && k > 0
    ensures Count(s, k, bound) == Count(Without(s, i), k - 1, bound - s[i]) + Count(Without(s, i), k, bound)
    decreases |s|
  {
    if i == 0 {
      assert Without(s, 0) == s[1..];
    } else {
      var t := s[1..];
      assert Without(s, i) == [s[0]] + Without(t, i - 1) && Without(s, i)[1..] == Without(t, i - 1);
      if k > 1 { CountTakesOut(t, i - 1, k - 1, bound - s[0]); }
      CountTakesOut(t, i - 1, k, bound);
    }
  }

  lemma MultisetWithout(s: seq<int>, i: nat)
    requires i < |s|
    ensures multiset(Without(s, i)) == multiset(s) - multiset{s[i]}
  {
    assert s == s[..i] + [s[i]] + s[i + 1..];
  }

  lemma CountStart(s: seq<int>, t: seq<int>, k: nat, bound: int)
    requires k == 0 || s == t == []
    ensures Count(s, k, bound) == Count(t, k, bound)
  {
  }

  lemma {:induction false} CountOfPermutation(s: seq<int>, t: seq<int>, k: nat, bound: int)
    requires multiset(s) == multiset(t)
    ensures Count(s, k, bound) == Count(t, k, bound)
    decreases |s|
  {
    hide Count;
    if k == 0 || s == [] {
      assert |multiset(s)| == |multiset(t)|;
      CountStart(s, t, k, bound);
    } else {
      assert s[0] in multiset(t);
      var i :| 0 <= i < |t| && t[i] == s[0];
      MultisetWithout(t, i);
      MultisetWithout(s, 0);
      assert Without(s, 0) == s[1..];
      CountTakesOut(s, 0, k, bound);
      CountTakesOut(t, i, k, bound);
      CountOfPermutation(s[1..], Without(t, i), k - 1, bound - s[0]);
      CountOfPermutation(s[1..], Without(t, i), k, bound);
    }
  }

  // ----- What the two ends skip -----

  predicate Ascending(s: seq<int>) {
    forall i, j :: 0 <= i <= j < |s| ==> s[i] <= s[j]
  }

  // No element is small enough, or all are.
  lemma {:induction false} CountOne(s: seq<int>, bound: int)
    ensures (forall i :: 0 <= i < |s| ==> s[i] >= bound) ==> Count(s, 1, bound) == 0
    ensures (forall i :: 0 <= i < |s| ==> s[i] < bound) ==> Count(s, 1, bound) == |s|
  {
    if s != [] {
      CountOne(s[1..], bound);
      assert forall i :: 0 <= i < |s| - 1 ==> s[1..][i] == s[i + 1];
      assert Count(s[1..], 0, bound - s[0]) == if 0 < bound - s[0] then 1 else 0;
    }
  }

  lemma {:induction false} CountShort(s: seq<int>, k: nat, bound: int)
    requires |s| < k
    ensures Count(s, k, bound) == 0
    decreases |s|
  {
    if s != [] {
      CountShort(s[1..], k - 1, bound - s[0]);
      CountShort(s[1..], k, bound);
    }
  }

  // The first and the last together are too large: the last is in no pair.
  lemma LastTooLarge(s: seq<int>, bound: int)
    requires Ascending(s) && |s| >= 2 && s[0] + s[|s| - 1] >= bound
    ensures Count(s, 2, bound) == Count(s[..|s| - 1], 2, bound)
  {
    var last := |s| - 1;
    assert Without(s, last) == s[..last];
    CountTakesOut(s, last, 2, bound);
    CountOne(s[..last], bound - s[last]);
  }

  // They are small enough: the first goes with every other.
  lemma FirstFitsAll(s: seq<int>, bound: int)
    requires Ascending(s) && |s| >= 2 && s[0] + s[|s| - 1] < bound
    ensures Count(s, 2, bound) == |s| - 1 + Count(s[1..], 2, bound)
  {
    CountOne(s[1..], bound - s[0]);
  }

  // ----- The program -----

  function InsertedInto(s: seq<int>, x: int): seq<int> {
    if s == [] || x <= s[0] then [x] + s else [s[0]] + InsertedInto(s[1..], x)
  }

  function SortedOf(s: seq<int>): seq<int> {
    if s == [] then [] else InsertedInto(SortedOf(s[1..]), s[0])
  }

  lemma {:induction false} InsertedIntoItems(s: seq<int>, x: int)
    ensures multiset(InsertedInto(s, x)) == multiset(s) + multiset{x}
    ensures forall y :: y in InsertedInto(s, x) <==> y in s || y == x
  {
    if s != [] {
      assert s == [s[0]] + s[1..];
      if x > s[0] { InsertedIntoItems(s[1..], x); }
    }
  }

  lemma AscendingFrom(first: int, rest: seq<int>)
    requires Ascending(rest) && forall y :: y in rest ==> first <= y
    ensures Ascending([first] + rest)
  {
    var s := [first] + rest;
    forall i, j | 0 <= i <= j < |s| ensures s[i] <= s[j] {
      if i > 0 { assert rest[i - 1] <= rest[j - 1]; } else if j > 0 { assert rest[j - 1] in rest; }
    }
  }

  lemma {:induction false} InsertedIntoAscends(s: seq<int>, x: int)
    requires Ascending(s)
    ensures Ascending(InsertedInto(s, x))
  {
    if s == [] || x <= s[0] {
      AscendingFrom(x, s);
    } else {
      InsertedIntoAscends(s[1..], x);
      InsertedIntoItems(s[1..], x);
      AscendingFrom(s[0], InsertedInto(s[1..], x));
    }
  }

  lemma {:induction false} SortedOfSorts(s: seq<int>)
    ensures Ascending(SortedOf(s)) && multiset(SortedOf(s)) == multiset(s)
  {
    if s != [] {
      SortedOfSorts(s[1..]);
      InsertedIntoAscends(SortedOf(s[1..]), s[0]);
      InsertedIntoItems(SortedOf(s[1..]), s[0]);
      assert s == [s[0]] + s[1..];
    }
  }

  // std::sort: the only thing that matters is that it sorts.
  method Sort(arr: array<int>)
    modifies arr
    ensures Ascending(arr[..]) && multiset(arr[..]) == multiset(old(arr[..]))
  {
    hide SortedOf, Ascending;
    var s := SortedOf(arr[..]);
    SortedOfSorts(arr[..]);
    assert |s| == |multiset(s)| == |multiset(arr[..])| == arr.Length;
    for i := 0 to arr.Length
      invariant arr[..i] == s[..i]
    {
      arr[i] := s[i];
    }
    assert arr[..] == s;
  }

  // The choices with the first element, and those without.
  lemma CountFrom(s: seq<int>, i: nat, k: nat, bound: int)
    requires i < |s| && k > 0
    ensures Count(s[i..], k, bound) == Count(s[i + 1..], k - 1, bound - s[i]) + Count(s[i + 1..], k, bound)
  {
    assert s[i..][1..] == s[i + 1..];
  }

  lemma AscendingPart(s: seq<int>, lo: nat, hi: nat)
    requires Ascending(s) && lo <= hi <= |s|
    ensures Ascending(s[lo..hi])
  {
  }

  // How many choices of three indices of the array, as it was given, sum to less than sum.
  method CountTriplets(arr: array<int>, sum: int) returns (ans: int)
    modifies arr
    ensures ans == |Under(old(arr[..]), 3, 0, sum)|
    ensures Ascending(arr[..]) && multiset(arr[..]) == multiset(old(arr[..]))
  {
    hide Count, Ascending;
    ghost var given := arr[..];
    Sort(arr);
    ghost var s := arr[..];
    var n := arr.Length;
    ans := 0;
    var i := 0;
    while i < n - 2
      invariant 0 <= i <= n && arr[..] == s
      invariant ans + Count(s[i..], 3, sum) == Count(s, 3, sum)
    {
      var j, k := i + 1, n - 1;
      ghost var before, bound := ans, sum - s[i];
      CountFrom(s, i, 3, sum);
      assert s[i + 1..] == s[j..k + 1];
      while j < k
        invariant i < j <= k + 1 <= n && arr[..] == s
        invariant ans + Count(s[j..k + 1], 2, bound) == before + Count(s[i + 1..], 2, bound)
      {
        ghost var part := s[j..k + 1];
        AscendingPart(s, j, k + 1);
        if arr[i] + arr[j] + arr[k] >= sum {
          LastTooLarge(part, bound);
          assert part[..|part| - 1] == s[j..k];
          k := k - 1;
        } else {
          FirstFitsAll(part, bound);
          assert part[1..] == s[j + 1..k + 1];
          ans := ans + (k - j);
          j := j + 1;
        }
      }
      CountShort(s[j..k + 1], 2, bound);
      i := i + 1;
    }
    CountShort(s[i..], 3, sum);
    CountOfPermutation(given, s, 3, sum);
    CountIsSize(given, 3, 0, sum);
    assert given[0..] == given;
  }
}
