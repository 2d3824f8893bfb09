// When displacing keys in the cuckoo tables (Cucoo.cpp) never ends.
module CuckooCycle {
  import opened CuckooHash

  // Without a limit on the calls, place would not return.
  ghost predicate NeverEnds(t: Table, key: int, first: nat) {
    forall n: nat :: CanDisplace(t, key, first, n)
  }

  // The key comes out again with the tables, and the turn, as they were.
  ghost predicate ComesBack(t: Table, key: int, first: nat) {
    exists ts, ks ::
      DisplacesFrom(t, key, first, ts, ks) && |ks| > 1 && |ks| % 2 == 1 && ts[|ks| - 1] == t && ks[|ks| - 1] == key
  }

  // ----- What follows on a return -----

  lemma Turn(first: nat, m: nat, k: nat)
    requires m % 2 == 0
    ensures (first + m + k) % VER == (first + k) % VER
  {
  }

  // One chain after another, from where the first one ends.
  lemma Joined(t: Table, key: int, first: nat, ts: seq<Table>, ks: seq<int>, us: seq<Table>, ls: seq<int>)
    requires DisplacesFrom(t, key, first, ts, ks) && |ks| % 2 == 1 && ts[|ks| - 1] == t && ks[|ks| - 1] == key
    requires DisplacesFrom(t, key, first, us, ls)
    ensures DisplacesFrom(t, key, first, ts[..|ks| - 1] + us, ks[..|ks| - 1] + ls)
  {
    hide InBounds, Stored, Displaced;
    var m := |ks| - 1;
    var vs, js := ts[..m] + us, ks[..m] + ls;
    assert forall a :: 0 <= a < m ==> vs[a] == ts[a] && js[a] == ks[a];
    assert forall a :: m <= a < |js| ==> vs[a] == us[a - m] && js[a] == ls[a - m];
    assert vs[m] == ts[m] && js[m] == ks[m];
    forall a | 0 <= a < |js| ensures InPlace(vs[a]) && InBounds(js[a]) && !Stored(vs[a], js[a]) {
      if a < m { assert InPlace(ts[a]); } else { assert InPlace(us[a - m]); }
    }
    forall a | 0 <= a < |js| - 1 ensures Displaced(vs[a], js[a], (first + a) % VER, vs[a + 1], js[a + 1]) {
      if a < m {
        assert Displaced(ts[a], ks[a], (first + a) % VER, ts[a + 1], ks[a + 1]);
      } else {
        assert Displaced(us[a - m], ls[a - m], (first + (a - m)) % VER, us[a - m + 1], ls[a - m + 1]);
        Turn(first, m, a - m);
      }
    }
  }

  lemma Shorter(t: Table, key: int, first: nat, ts: seq<Table>, ks: seq<int>, n: nat)
    requires DisplacesFrom(t, key, first, ts, ks) && n < |ks|
    ensures DisplacesFrom(t, key, first, ts[..n + 1], ks[..n + 1]) && CanDisplace(t, key, first, n)
  {
    hide InBounds, Stored, Displaced;
    assert DisplacesFrom(t, key, first, ts[..n + 1], ks[..n + 1]);
  }

  lemma {:induction false} AgainAndAgain(t: Table, key: int, first: nat, ts: seq<Table>, ks: seq<int>, n: nat)
    requires DisplacesFrom(t, key, first, ts, ks) && |ks| > 1 && |ks| % 2 == 1 && ts[|ks| - 1] == t && ks[|ks| - 1] == key
    ensures CanDisplace(t, key, first, n)
  {
    if n < |ks| {
      Shorter(t, key, first, ts, ks, n);
    } else {
      var m := |ks| - 1;
      AgainAndAgain(t, key, first, ts, ks, n - m);
      var us, ls :| DisplacesFrom(t, key, first, us, ls) && |ls| == n - m + 1;
      Joined(t, key, first, ts, ks, us, ls);
      assert |ks[..m] + ls| == n + 1;
    }
  }

  // ----- There are only so many tables -----

  // Rows of n entries from A.
  function Rows(A: set<int>, n: nat): set<seq<int>> {
    if n == 0 then {[]} else set r, x | r in Rows(A, n - 1) && x in A :: r + [x]
  }

  lemma RowsMore(A: set<int>, r: seq<int>, x: int)
    requires r in Rows(A, |r|) && x in A
    ensures r + [x] in Rows(A, |r| + 1)
  {
    assert Rows(A, |r| + 1) == set q, y | q in Rows(A, |r|) && y in A :: q + [y];
  }

  lemma {:induction false} RowsHave(A: set<int>, r: seq<int>)
    requires forall x :: x in r ==> x in A
    ensures r in Rows(A, |r|)
  {
    if r != [] {
      var n := |r| - 1;
      RowsHave(A, r[..n]);
      assert r[n] in r && r == r[..n] + [r[n]];
      RowsMore(A, r[..n], r[n]);
    }
  }

  // The tables, the key in hand and the turn.
  type Moment = (seq<int>, seq<int>, int, bool)

  function Moments(A: set<int>): set<Moment> {
    set r, s, k, b | r in Rows(A, MAXN) && s in Rows(A, MAXN) && k in A && b in {true, false} :: (r, s, k, b)
  }

  function MomentOf(t: Table, k: int, m: nat): Moment
    requires Shaped(t)
  {
    (t[0], t[1], k, m % 2 == 0)
  }

  // What the tables and the key are made of.
  function Material(t: Table, key: int): set<int>
    requires Shaped(t)
  {
    (set x | x in t[0]) + (set x | x in t[1]) + {key}
  }

  lemma {:induction false} MadeOfThese(t: Table, key: int, first: nat, ts: seq<Table>, ks: seq<int>, m: nat)
    requires DisplacesFrom(t, key, first, ts, ks) && m < |ks|
    ensures MomentOf(ts[m], ks[m], m) in Moments(Material(t, key))
  {
    var A := Material(t, key);
    OnlyThese(t, key, first, ts, ks, m);
    RowsHave(A, ts[m][0]);
    RowsHave(A, ts[m][1]);
  }

  lemma {:induction false} OnlyThese(t: Table, key: int, first: nat, ts: seq<Table>, ks: seq<int>, m: nat)
    requires DisplacesFrom(t, key, first, ts, ks) && m < |ks|
    ensures var A := Material(t, key); ks[m] in A && (forall x :: x in ts[m][0] ==> x in A) && (forall x :: x in ts[m][1] ==> x in A)
  {
    if m > 0 {
      OnlyThese(t, key, first, ts, ks, m - 1);
      assert Displaced(ts[m - 1], ks[m - 1], (first + (m - 1)) % VER, ts[m - 1 + 1], ks[m - 1 + 1]);
    }
  }

  lemma {:induction false} TwoAlike<T>(s: seq<T>, S: set<T>) returns (i: nat, j: nat)
    requires |s| > |S| && forall k :: 0 <= k < |s| ==> s[k] in S
    ensures i < j < |s| && s[i] == s[j]
  {
    var last := |s| - 1;
    if k :| 0 <= k < last && s[k] == s[last] {
      i, j := k, last;
    } else {
      i, j := TwoAlike(s[..last], S - {s[last]});
    }
  }

  // ----- The displacing can be followed backwards -----

  lemma BackOne(s: Table, k: int, t: Table, l: int, side: nat, u: Table, x: int)
    requires InPlace(s) && InBounds(k) && InPlace(t) && InBounds(l) && side < VER
    requires Displaced(s, k, side, u, x) && Displaced(t, l, side, u, x)
    ensures s == t && k == l
  {
    var j := Hash(side + 1, x);
    assert s[side][Hash(side + 1, k)] == x && t[side][Hash(side + 1, l)] == x;
    assert Hash(side + 1, k) == j == Hash(side + 1, l);
    assert u[side][j] == k == l;
    Undone(s, side, j, k);
    Undone(t, side, j, l);
  }

  lemma Undone(t: Table, side: nat, j: nat, k: int)
    requires Shaped(t) && side < VER && j < MAXN
    ensures Written(Written(t, side, j, k), side, j, t[side][j]) == t
  {
    assert t[side][j := k][j := t[side][j]] == t[side];
    assert t[side := t[side][j := k]][side := t[side]] == t;
  }

  // So a moment that comes twice was there at the beginning.
  lemma {:induction false} BackToBegin(t: Table, key: int, first: nat, ts: seq<Table>, ks: seq<int>, i: nat, j: nat)
    requires DisplacesFrom(t, key, first, ts, ks) && i < j < |ks| && (j - i) % 2 == 0 && ts[i] == ts[j] && ks[i] == ks[j]
    ensures ts[j - i] == t && ks[j - i] == key
  {
    if i > 0 {
      assert Displaced(ts[i - 1], ks[i - 1], (first + (i - 1)) % VER, ts[i - 1 + 1], ks[i - 1 + 1]);
      assert Displaced(ts[j - 1], ks[j - 1], (first + (j - 1)) % VER, ts[j - 1 + 1], ks[j - 1 + 1]);
      Turn(first, j - i, i - 1);
      BackOne(ts[i - 1], ks[i - 1], ts[j - 1], ks[j - 1], (first + (i - 1)) % VER, ts[i], ks[i]);
      BackToBegin(t, key, first, ts, ks, i - 1, j - 1);
    }
  }

  lemma MomentTwice(t: Table, key: int, first: nat, ts: seq<Table>, ks: seq<int>) returns (i: nat, j: nat)
    requires DisplacesFrom(t, key, first, ts, ks) && |ks| > |Moments(Material(t, key))|
    ensures i < j < |ks| && (j - i) % 2 == 0 && ts[i] == ts[j] && ks[i] == ks[j]
  {
    hide Moments, Material, Displaced, Stored;
    var moments := seq(|ks|, m requires 0 <= m < |ks| && Shaped(ts[m]) => MomentOf(ts[m], ks[m], m));
    forall m | 0 <= m < |ks| ensures moments[m] in Moments(Material(t, key)) { MadeOfThese(t, key, first, ts, ks, m); }
    i, j := TwoAlike(moments, Moments(Material(t, key)));
    assert ts[i] == [ts[i][0], ts[i][1]] && ts[j] == [ts[j][0], ts[j][1]];
  }

  lemma LongComesBack(t: Table, key: int, first: nat, ts: seq<Table>, ks: seq<int>)
    requires DisplacesFrom(t, key, first, ts, ks) && |ks| > |Moments(Material(t, key))|
    ensures ComesBack(t, key, first)
  {
    hide Moments, Material, Displaced, Stored, InPlace;
    var i, j := MomentTwice(t, key, first, ts, ks);
    BackToBegin(t, key, first, ts, ks, i, j);
    Shorter(t, key, first, ts, ks, j - i);
    Returned(t, key, first, ts[..j - i + 1], ks[..j - i + 1]);
  }

  lemma Returned(t: Table, key: int, first: nat, ts: seq<Table>, ks: seq<int>)
    requires DisplacesFrom(t, key, first, ts, ks) && |ks| > 1 && |ks| % 2 == 1 && ts[|ks| - 1] == t && ks[|ks| - 1] == key
    ensures ComesBack(t, key, first)
  {
  }

  // ----- Cycles, and what is reported as one -----

  // Displacing never ends exactly if it comes back to where it began.
  lemma NeverEndsExactly(t: Table, key: int, first: nat)
    requires InPlace(t)
    ensures NeverEnds(t, key, first) <==> ComesBack(t, key, first)
  {
    if ComesBack(t, key, first) {
      var ts, ks :|
        DisplacesFrom(t, key, first, ts, ks) && |ks| > 1 && |ks| % 2 == 1 && ts[|ks| - 1] == t && ks[|ks| - 1] == key;
      forall n: nat ensures CanDisplace(t, key, first, n) { AgainAndAgain(t, key, first, ts, ks, n); }
    }
    if NeverEnds(t, key, first) {
      var n := |Moments(Material(t, key))|;
      assert CanDisplace(t, key, first, n);
      var ts, ks :| DisplacesFrom(t, key, first, ts, ks) && |ks| == n + 1;
      LongComesBack(t, key, first, ts, ks);
    }
  }

  // A cycle is always reported; what is reported is one if enough calls were allowed.
  lemma CycleReported(t: Table, key: int, first: nat, n: nat, t': Table, report: Report)
    requires InPlace(t) && n > 0 && !Stored(t, key) && Placed(t, key, first, n, t', report)
    ensures ComesBack(t, key, first) ==> report.Unpositioned?
    ensures n >= |Moments(Material(t, key))| && report.Unpositioned? ==> ComesBack(t, key, first)
  {
    hide Moments, Material;
    ReportedExactly(t, key, first, n, t', report);
    NeverEndsExactly(t, key, first);
    if n >= |Moments(Material(t, key))| && report.Unpositioned? {
      var ts, ks :| DisplacesFrom(t, key, first, ts, ks) && |ks| == n + 1;
      LongComesBack(t, key, first, ts, ks);
    }
  }
}
