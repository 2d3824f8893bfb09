// Cuckoo hashing with two tables (Cucoo.cpp).
module CuckooHash {
  const MAXN := 11
  const VER := 2
  // INT_MIN marks a free position.
  const FREE: int := -2147483648

  // Division and remainder as C has them, towards zero.
  function Quotient(a: int, n: nat): int
    requires n > 0
  {
    if a >= 0 then a / n else -(-a / n)
  }

  function Remainder(a: int, n: nat): (r: int)
    requires n > 0
    ensures r == a - n * Quotient(a, n) && 0 - n < r < n && (a >= 0 ==> r >= 0) && (a <= 0 ==> r <= 0)
  {
    if a >= 0 then a % n else -(-a % n)
  }

  function Hash(which: nat, key: int): (r: int)
    requires which == 1 || which == 2
    ensures r < MAXN && (key >= 0 ==> r >= 0)
  {
    if which == 1 then Remainder(key, MAXN) else Remainder(Quotient(key, MAXN), MAXN)
  }

  // Both positions are in the tables. They are for all keys that are not negative,
  // and for few others.
  predicate InBounds(key: int) {
    Hash(1, key) >= 0 && Hash(2, key) >= 0
  }

  lemma BoundsExactly(key: int)
    ensures InBounds(key) <==> key >= 0 || (Remainder(key, MAXN) == 0 && Remainder(Quotient(key, MAXN), MAXN) == 0)
    ensures !InBounds(FREE)
  {
  }

  // The two positions are the last two digits of the key, in base 11.
  lemma HashDigits(key: int)
    requires key >= 0
    ensures 0 <= Hash(1, key) < MAXN && 0 <= Hash(2, key) < MAXN && key % (MAXN * MAXN) == Hash(1, key) + MAXN * Hash(2, key)
  {
    var q := key / MAXN;
    assert key == MAXN * q + Hash(1, key) && q == MAXN * (q / MAXN) + Hash(2, key);
    assert key == MAXN * MAXN * (q / MAXN) + (Hash(1, key) + MAXN * Hash(2, key));
  }

  // The tables, row by row.
  type Table = seq<seq<int>>

  predicate Shaped(t: Table) {
    |t| == VER && |t[0]| == |t[1]| == MAXN
  }

  predicate Stored(t: Table, key: int)
    requires Shaped(t)
  {
    key != FREE && (key in t[0] || key in t[1])
  }

  // Every key is at its own position, and only in one table.
  predicate InPlace(t: Table) {
    Shaped(t) &&
    (forall i, j :: 0 <= i < VER && 0 <= j < MAXN && t[i][j] != FREE ==> InBounds(t[i][j]) && Hash(i + 1, t[i][j]) == j) &&
    forall j, j' :: 0 <= j < MAXN && 0 <= j' < MAXN && t[0][j] != FREE ==> t[0][j] != t[1][j']
  }

  // So a key is found by looking at its two positions.
  lemma FoundByHash(t: Table, key: int)
    requires InPlace(t) && InBounds(key)
    ensures Stored(t, key) <==> t[0][Hash(1, key)] == key || t[1][Hash(2, key)] == key
    ensures !(t[0][Hash(1, key)] == key && t[1][Hash(2, key)] == key)
  {
    if key in t[0] {
      var j :| 0 <= j < MAXN && t[0][j] == key;
      assert Hash(0 + 1, t[0][j]) == j;
    }
    if key in t[1] {
      var j :| 0 <= j < MAXN && t[1][j] == key;
      assert Hash(1 + 1, t[1][j]) == j;
    }
  }

  lemma StoredInBounds(t: Table)
    requires InPlace(t)
    ensures forall x :: Stored(t, x) ==> InBounds(x)
  {
  }

  function Written(t: Table, i: nat, j: nat, key: int): Table
    requires Shaped(t) && i < VER && j < MAXN
  {
    t[i := t[i][j := key]]
  }

  // A key that is not stored takes the place of another, or a free one.
  lemma WrittenInPlace(t: Table, i: nat, key: int)
    requires InPlace(t) && i < VER && InBounds(key) && !Stored(t, key)
    ensures var j := Hash(i + 1, key); InPlace(Written(t, i, j, key))
    ensures var j := Hash(i + 1, key);
      forall x :: Stored(Written(t, i, j, key), x) <==> x == key || (Stored(t, x) && x != t[i][j])
  {
    var j := Hash(i + 1, key);
    var t' := Written(t, i, j, key);
    assert t'[i][j] == key;
    forall x ensures Stored(t', x) <==> x == key || (Stored(t, x) && x != t[i][j]) {
      if InBounds(x) {
        FoundByHash(t, x);
        FoundByHash(t', x);
      }
    }
  }

  // OutOfBounds: the source goes on to read before the start of a table.
  datatype Report = Positioned | Unpositioned(key: int) | OutOfBounds

  // ----- Displacing keys -----

  // Key k, put at its own position of the table side, displaces k'.
  predicate Displaced(t: Table, k: int, side: nat, t': Table, k': int)
    requires Shaped(t) && side < VER && InBounds(k)
  {
    var j := Hash(side + 1, k);
    t[side][j] == k' && k' != FREE && t' == Written(t, side, j, k)
  }

  // Of the keys ks, each one, absent from its tables in ts, displaces the next, in the
  // one table and in the other by turns, the first one in the table first.
  ghost predicate Displaces(first: nat, ts: seq<Table>, ks: seq<int>) {
    |ts| == |ks| > 0 && (forall m :: 0 <= m < |ks| ==> InPlace(ts[m]) && InBounds(ks[m]) && !Stored(ts[m], ks[m])) &&
    forall m :: 0 <= m < |ks| - 1 ==> Displaced(ts[m], ks[m], (first + m) % VER, ts[m + 1], ks[m + 1])
  }

  ghost predicate DisplacesFrom(t: Table, key: int, first: nat, ts: seq<Table>, ks: seq<int>) {
    Displaces(first, ts, ks) && ts[0] == t && ks[0] == key
  }

  // After n displacements there is still a key without a position.
  ghost predicate CanDisplace(t: Table, key: int, first: nat, n: nat) {
    exists ts, ks :: DisplacesFrom(t, key, first, ts, ks) && |ks| == n + 1
  }

  // The displacing ends after n of them, or before, at a free position.
  ghost predicate Ended(first: nat, ts: seq<Table>, ks: seq<int>, n: nat, t': Table, report: Report)
    requires Displaces(first, ts, ks)
  {
    var m := |ks| - 1;
    var side := (first + m) % VER;
    var j := Hash(side + 1, ks[m]);
    m <= n &&
    if m == n then t' == ts[m] && report == Unpositioned(ks[m])
    else ts[m][side][j] == FREE && t' == Written(ts[m], side, j, ks[m]) && report == Positioned
  }

  // What place does, with n calls left: nothing for a key that is there.
  ghost predicate Placed(t: Table, key: int, first: nat, n: nat, t': Table, report: Report)
    requires Shaped(t)
  {
    if n == 0 then t' == t && report == Unpositioned(key)
    else if Stored(t, key) then t' == t && report == Positioned
    else exists ts, ks :: DisplacesFrom(t, key, first, ts, ks) && Ended(first, ts, ks, n, t', report)
  }

  lemma DisplacesOne(t: Table, key: int, first: nat)
    requires InPlace(t) && InBounds(key) && !Stored(t, key)
    ensures DisplacesFrom(t, key, first, [t], [key])
  {
  }

  // One more, before the others.
  lemma DisplacesMore(t: Table, key: int, first: nat, ts: seq<Table>, ks: seq<int>)
    requires InPlace(t) && InBounds(key) && !Stored(t, key) && first < VER
    requires Displaces((first + 1) % VER, ts, ks) && Displaced(t, key, first, ts[0], ks[0])
    ensures DisplacesFrom(t, key, first, [t] + ts, [key] + ks)
  {
    var us, ls := [t] + ts, [key] + ks;
    forall m | 0 <= m < |ls| - 1 ensures Displaced(us[m], ls[m], (first + m) % VER, us[m + 1], ls[m + 1]) {
      if m > 0 {
        assert Displaced(ts[m - 1], ks[m - 1], ((first + 1) % VER + (m - 1)) % VER, ts[m], ks[m]);
        Turns(first, m);
      }
    }
  }

  lemma Turns(first: nat, m: nat)
    requires m > 0
    ensures ((first + 1) % VER + (m - 1)) % VER == (first + m) % VER
  {
  }

  lemma FreeNow(t: Table, key: int, first: nat, n: nat)
    requires InPlace(t) && InBounds(key) && !Stored(t, key) && first < VER && n > 0 && t[first][Hash(first + 1, key)] == FREE
    ensures Placed(t, key, first, n, Written(t, first, Hash(first + 1, key), key), Positioned)
  {
    DisplacesOne(t, key, first);
    assert Ended(first, [t], [key], n, Written(t, first, Hash(first + 1, key), key), Positioned);
  }

  lemma DisplacedNow(t: Table, key: int, first: nat, n: nat, t1: Table, key1: int, t': Table, report: Report)
    requires InPlace(t) && InBounds(key) && !Stored(t, key) && first < VER && n > 0
    requires Displaced(t, key, first, t1, key1) && InPlace(t1) && InBounds(key1) && !Stored(t1, key1)
    requires Placed(t1, key1, (first + 1) % VER, n - 1, t', report)
    ensures Placed(t, key, first, n, t', report)
  {
    hide Ended, Displaced, InPlace, Stored, InBounds, Written;
    var next := (first + 1) % VER;
    if n == 1 {
      DisplacesOne(t1, key1, next);
      EndedNow(next, t1, key1);
    }
    var ts: seq<Table>, ks: seq<int> :| DisplacesFrom(t1, key1, next, ts, ks) && Ended(next, ts, ks, n - 1, t', report);
    EndedLater(t, key, first, n, ts, ks, t1, key1, t', report);
  }

  lemma EndedNow(first: nat, t: Table, key: int)
    requires Displaces(first, [t], [key])
    ensures Ended(first, [t], [key], 0, t, Unpositioned(key))
  {
  }

  lemma EndedLater(t: Table, key: int, first: nat, n: nat, ts: seq<Table>, ks: seq<int>, t1: Table, key1: int, t': Table, report: Report)
    requires InPlace(t) && InBounds(key) && !Stored(t, key) && first < VER && n > 0 && Displaced(t, key, first, t1, key1)
    requires DisplacesFrom(t1, key1, (first + 1) % VER, ts, ks) && Ended((first + 1) % VER, ts, ks, n - 1, t', report)
    ensures DisplacesFrom(t, key, first, [t] + ts, [key] + ks) && Ended(first, [t] + ts, [key] + ks, n, t', report)
  {
    hide InPlace, Stored, InBounds, Written, Hash, Displaced;
    DisplacesMore(t, key, first, ts, ks);
    Turns(first, |ks|);
  }

  // ----- Exactly when a key is reported -----

  // Where the displacing has ended it does not go on, and it goes only one way.
  lemma {:induction false} OneWay(t: Table, key: int, first: nat, ts: seq<Table>, ks: seq<int>, ts': seq<Table>, ks': seq<int>, m: nat)
    requires DisplacesFrom(t, key, first, ts, ks) && DisplacesFrom(t, key, first, ts', ks') && m < |ks| && m < |ks'|
    ensures ts[m] == ts'[m] && ks[m] == ks'[m]
  {
    if m > 0 {
      OneWay(t, key, first, ts, ks, ts', ks', m - 1);
      assert Displaced(ts[m - 1], ks[m - 1], (first + (m - 1)) % VER, ts[m - 1 + 1], ks[m - 1 + 1]);
      assert Displaced(ts'[m - 1], ks'[m - 1], (first + (m - 1)) % VER, ts'[m - 1 + 1], ks'[m - 1 + 1]);
    }
  }

  lemma GoesOn(first: nat, ts: seq<Table>, ks: seq<int>, m: nat)
    requires Displaces(first, ts, ks) && m < |ks| - 1
    ensures InPlace(ts[m]) && InBounds(ks[m]) && ts[m][(first + m) % VER][Hash((first + m) % VER + 1, ks[m])] != FREE
  {
    assert Displaced(ts[m], ks[m], (first + m) % VER, ts[m + 1], ks[m + 1]);
  }

  lemma EndsThere(t: Table, key: int, first: nat, ts: seq<Table>, ks: seq<int>, n: nat, t': Table, report: Report,
                  ts': seq<Table>, ks': seq<int>)
    requires DisplacesFrom(t, key, first, ts, ks) && Ended(first, ts, ks, n, t', report)
    requires DisplacesFrom(t, key, first, ts', ks') && |ks'| <= n + 1
    ensures |ks'| <= |ks|
  {
    var m := |ks| - 1;
    if |ks'| > |ks| {
      GoesOn(first, ts', ks', m);
      OneWay(t, key, first, ts, ks, ts', ks', m);
    }
  }

  // place leaves a key without a position exactly if n displacements are possible; it
  // is the key they end with.
  lemma ReportedExactly(t: Table, key: int, first: nat, n: nat, t': Table, report: Report)
    requires InPlace(t) && n > 0 && !Stored(t, key) && Placed(t, key, first, n, t', report)
    ensures report.Unpositioned? <==> CanDisplace(t, key, first, n)
    ensures forall ts, ks :: DisplacesFrom(t, key, first, ts, ks) && |ks| == n + 1 ==> t' == ts[n] && report == Unpositioned(ks[n])
  {
    var ts: seq<Table>, ks: seq<int> :| DisplacesFrom(t, key, first, ts, ks) && Ended(first, ts, ks, n, t', report);
    forall ts': seq<Table>, ks': seq<int> | DisplacesFrom(t, key, first, ts', ks') && |ks'| == n + 1
      ensures t' == ts'[n] && report == Unpositioned(ks'[n])
    {
      EndsThere(t, key, first, ts, ks, n, t', report, ts', ks');
      OneWay(t, key, first, ts, ks, ts', ks', n);
    }
  }

  // There is one outcome.
  lemma OneOutcome(t: Table, key: int, first: nat, n: nat, t1: Table, r1: Report, t2: Table, r2: Report)
    requires Shaped(t) && Placed(t, key, first, n, t1, r1) && Placed(t, key, first, n, t2, r2)
    ensures t1 == t2 && r1 == r2
  {
    if n > 0 && !Stored(t, key) {
      var ts: seq<Table>, ks: seq<int> :| DisplacesFrom(t, key, first, ts, ks) && Ended(first, ts, ks, n, t1, r1);
      var us: seq<Table>, ls: seq<int> :| DisplacesFrom(t, key, first, us, ls) && Ended(first, us, ls, n, t2, r2);
      EndsThere(t, key, first, ts, ks, n, t1, r1, us, ls);
      EndsThere(t, key, first, us, ls, n, t2, r2, ts, ks);
      OneWay(t, key, first, ts, ks, us, ls, |ks| - 1);
    }
  }

  // An absent key whose own position is free comes there.
  lemma FreeIsPositioned(t: Table, key: int, first: nat, n: nat, t': Table, report: Report)
    requires InPlace(t) && InBounds(key) && !Stored(t, key) && first < VER && n > 0 && Placed(t, key, first, n, t', report)
    requires t[first][Hash(first + 1, key)] == FREE
    ensures report == Positioned && t' == Written(t, first, Hash(first + 1, key), key)
  {
    FreeNow(t, key, first, n);
    OneOutcome(t, key, first, n, t', report, Written(t, first, Hash(first + 1, key), key), Positioned);
  }

  // ----- All keys -----

  function EmptyTable(): (t: Table)
    ensures InPlace(t) && forall x :: !Stored(t, x)
  {
    [seq(MAXN, _ => FREE), seq(MAXN, _ => FREE)]
  }

  function Reported(reports: seq<Report>): seq<int> {
    if reports == [] then []
    else Reported(reports[..|reports| - 1]) + match reports[|reports| - 1] case Unpositioned(key) => [key] case _ => []
  }

  // The tables after each of the first i keys, and what place said of it.
  ghost predicate PlacedSoFar(keys: seq<int>, i: nat, ts: seq<Table>, reports: seq<Report>) {
    i <= |keys| && |ts| == i + 1 && |reports| == i && ts[0] == EmptyTable() && (forall a :: 0 <= a <= i ==> InPlace(ts[a])) &&
    forall a :: 0 <= a < i ==> Placed(ts[a], keys[a], 0, |keys|, ts[a + 1], reports[a])
  }

  lemma PlacedNext(keys: seq<int>, i: nat, ts: seq<Table>, reports: seq<Report>, t: Table, report: Report)
    requires PlacedSoFar(keys, i, ts, reports) && i < |keys| && InPlace(t) && Placed(ts[i], keys[i], 0, |keys|, t, report)
    ensures PlacedSoFar(keys, i + 1, ts + [t], reports + [report]) && (ts + [t])[i + 1] == t
    ensures Reported(reports + [report]) == Reported(reports) + if report.Unpositioned? then [report.key] else []
  {
    hide Placed, InPlace;
    var more := reports + [report];
    assert more[..|more| - 1] == reports;
  }

  class Cuckoo {
    const hashtable: array2<int>
    const pos: array<int>

    constructor ()
      ensures hashtable.Length0 == VER && hashtable.Length1 == MAXN && pos.Length == VER
      ensures fresh(hashtable) && fresh(pos)
    {
      hashtable := new int[VER, MAXN];
      pos := new int[VER];
    }

    ghost predicate Valid() {
      hashtable.Length0 == VER && hashtable.Length1 == MAXN && pos.Length == VER
    }

    function Rows(): (t: Table)
      requires Valid()
      reads hashtable
      ensures Shaped(t) && forall i, j :: 0 <= i < VER && 0 <= j < MAXN ==> t[i][j] == hashtable[i, j]
    {
      [seq(MAXN, j requires 0 <= j < MAXN reads hashtable => hashtable[0, j]),
       seq(MAXN, j requires 0 <= j < MAXN reads hashtable => hashtable[1, j])]
    }

    method InitTable()
      requires Valid()
      modifies hashtable
      ensures Rows() == EmptyTable()
    {
      for j := 0 to MAXN
        invariant forall i, j' :: 0 <= i < VER && 0 <= j' < j ==> hashtable[i, j'] == FREE
      {
        for i := 0 to VER
          invariant forall i', j' :: 0 <= i' < VER && 0 <= j' < j ==> hashtable[i', j'] == FREE
          invariant forall i' :: 0 <= i' < i ==> hashtable[i', j] == FREE
        {
          hashtable[i, j] := FREE;
        }
      }
      assert Rows()[0] == EmptyTable()[0] && Rows()[1] == EmptyTable()[1];
    }

    method Write(i: nat, j: nat, key: int)
      requires Valid() && i < VER && j < MAXN
      modifies hashtable
      ensures Rows() == Written(old(Rows()), i, j, key)
    {
      hashtable[i, j] := key;
      ghost var t := Written(old(Rows()), i, j, key);
      assert Rows()[0] == t[0] && Rows()[1] == t[1];
    }

    // An absent key comes in; at most one key, the one reported, goes out.
    method Place(key: int, tableID: nat, cnt: nat, n: nat) returns (report: Report)
      requires Valid() && InPlace(Rows()) && tableID < VER && cnt <= n
      modifies hashtable, pos
      ensures InPlace(Rows())
      ensures cnt == n ==> Rows() == old(Rows()) && report == Unpositioned(key)
      ensures cnt < n ==> (report.OutOfBounds? <==> !InBounds(key))
      ensures report.OutOfBounds? ==> Rows() == old(Rows())
      ensures cnt < n && old(Stored(Rows(), key)) ==> Rows() == old(Rows()) && report == Positioned
      ensures !old(Stored(Rows(), key)) && !report.OutOfBounds? ==>
        (report.Unpositioned? ==> !Stored(Rows(), report.key)) &&
        forall x :: Stored(Rows(), x) || report == Unpositioned(x) <==> old(Stored(Rows(), x)) || x == key
      ensures !report.OutOfBounds? ==> Placed(old(Rows()), key, tableID, n - cnt, Rows(), report)
      decreases n - cnt
    {
      ghost var t := Rows();
      if InBounds(key) { FoundByHash(t, key); }
      assert Stored(t, key) ==> InBounds(key) by { StoredInBounds(t); }
      if cnt == n {
        return Unpositioned(key);
      }
      for i := 0 to VER
        invariant Rows() == t
        invariant forall i' :: 0 <= i' < i ==> 0 <= pos[i'] == Hash(i' + 1, key) && t[i'][pos[i']] != key
      {
        pos[i] := Hash(i + 1, key);
        if pos[i] < 0 {
          return OutOfBounds;
        }
        if hashtable[i, pos[i]] == key {
          return Positioned;
        }
      }
      assert !Stored(t, key);
      WrittenInPlace(t, tableID, key);
      var j := pos[tableID];
      var dis := hashtable[tableID, j];
      Write(tableID, j, key);
      if dis != FREE {
        assert InBounds(t[tableID][j]) && t[tableID][j] == dis;
        ghost var t1 := Rows();
        report := Place(dis, (tableID + 1) % VER, cnt + 1, n);
        DisplacedNow(t, key, tableID, n - cnt, t1, dis, Rows(), report);
      } else {
        report := Positioned;
        FreeNow(t, key, tableID, n - cnt);
      }
    }

    // Every key ends up stored, or was reported; nothing else is stored. The first
    // key without positions in the tables ends it.
    method PlaceAll(keys: seq<int>)
      returns (reported: seq<int>, crashed: bool, ghost tables: seq<Table>, ghost reports: seq<Report>)
      requires Valid()
      modifies hashtable, pos
      ensures InPlace(Rows())
      ensures crashed <==> exists i :: 0 <= i < |keys| && !InBounds(keys[i])
      ensures !crashed ==> forall x :: Stored(Rows(), x) || x in reported <==> x in keys
      ensures !crashed && (forall i, j :: 0 <= i < j < |keys| ==> keys[i] != keys[j]) ==> forall x :: x in reported ==> !Stored(Rows(), x)
      ensures !crashed ==>
        PlacedSoFar(keys, |keys|, tables, reports) && Rows() == tables[|keys|] && reported == Reported(reports)
    {
      hide InPlace, InBounds, Stored, Placed, Reported;
      InitTable();
      reported, crashed, tables, reports := [], false, [Rows()], [];
      NoneReported();
      for i := 0 to |keys|
        invariant InPlace(Rows()) && forall a :: 0 <= a < i ==> InBounds(keys[a])
        invariant PlacedSoFar(keys, i, tables, reports) && tables[i] == Rows() && reported == Reported(reports)
        invariant forall x :: Stored(Rows(), x) || x in reported <==> x in keys[..i]
        invariant (forall a, b :: 0 <= a < b < |keys| ==> keys[a] != keys[b]) ==> forall x :: x in reported ==> !Stored(Rows(), x)
      {
        var report := Place(keys[i], 0, 0, |keys|);
        if report.OutOfBounds? {
          crashed := true;
          return;
        }
        if report.Unpositioned? {
          reported := reported + [report.key];
        }
        PlacedNext(keys, i, tables, reports, Rows(), report);
        tables, reports := tables + [Rows()], reports + [report];
      }
      assert keys[..|keys|] == keys;
    }
  }

  lemma NoneReported()
    ensures Reported([]) == []
  {
  }
}
