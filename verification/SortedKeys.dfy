// Keys in ascending order, as search trees have them: what the parts on both sides of
// a key have to do with it and with each other, and how such parts are joined again
// around a key.
module SortedKeys {
  predicate Sorted(s: seq<int>) {
    forall i, j :: 0 <= i < j < |s| ==> s[i] < s[j]
  }

  ghost predicate Below(s: seq<int>, key: int) {
    forall k :: k in s ==> k < key
  }

  ghost predicate Above(s: seq<int>, key: int) {
    forall k :: k in s ==> key < k
  }

  lemma SortedParts(a: seq<int>, k: int, b: seq<int>)
    requires Sorted(a + [k] + b)
    ensures Below(a, k) && Above(b, k) && Sorted(a) && Sorted(b)
  {
    var s := a + [k] + b;
    forall x | x in a ensures x < k {
      var i :| 0 <= i < |a| && a[i] == x;
      assert s[i] == x && s[|a|] == k;
    }
    forall x | x in b ensures k < x {
      var i :| 0 <= i < |b| && b[i] == x;
      assert s[|a| + 1 + i] == x && s[|a|] == k;
    }
    forall i, j | 0 <= i < j < |a| ensures a[i] < a[j] {
      assert s[i] == a[i] && s[j] == a[j];
    }
    forall i, j | 0 <= i < j < |b| ensures b[i] < b[j] {
      assert s[|a| + 1 + i] == b[i] && s[|a| + 1 + j] == b[j];
    }
  }

  lemma SortedJoin(a: seq<int>, k: int, b: seq<int>)
    requires Sorted(a) && Sorted(b) && Below(a, k) && Above(b, k)
    ensures Sorted(a + [k] + b)
  {
    var s := a + [k] + b;
    assert forall i :: 0 <= i < |a| ==> a[i] in a;
    assert forall i :: 0 <= i < |b| ==> b[i] in b;
    forall i, j | 0 <= i < j < |s| ensures s[i] < s[j] {
      assert i < |a| ==> s[i] in a;
      assert j > |a| ==> s[j] == b[j - |a| - 1] && s[j] in b;
      assert i > |a| ==> s[i] == b[i - |a| - 1];
    }
  }

  lemma BoundsOfParts(a: seq<int>, k: int, b: seq<int>, key: int)
    ensures Below(a + [k] + b, key) <==> Below(a, key) && k < key && Below(b, key)
    ensures Above(a + [k] + b, key) <==> Above(a, key) && key < k && Above(b, key)
  {
    var s := a + [k] + b;
    assert s[|a|] == k && k in s;
    assert forall x :: x in s <==> x in a || x == k || x in b;
  }

  lemma Members(a: seq<int>, k: int, b: seq<int>, x: int)
    ensures x in a + [k] + b <==> x in a || x == k || x in b
  {
    assert (a + [k] + b)[|a|] == k;
  }
}
