// Two inputs of the cuckoo tables (Cucoo.cpp), followed through: five keys, of which
// one is reported although displacing it comes to an end at the very next call, and two
// keys with one position in the first table, both of which are stored.
module CuckooExamples {
  import opened CuckooHash
  import opened CuckooCycle

  function Row(a: int, b: int): seq<int> {
    [a, b] + seq(MAXN - 2, _ => FREE)
  }

  // Tables with keys at the first two positions only.
  function Four(a: int, b: int, c: int, d: int): (t: Table)
    ensures Shaped(t) && t[0][0] == a && t[0][1] == b && t[1][0] == c && t[1][1] == d
    ensures forall i, j :: 0 <= i < VER && 2 <= j < MAXN ==> t[i][j] == FREE
  {
    [Row(a, b), Row(c, d)]
  }

  predicate At(which: nat, key: int, j: int)
    requires which == 1 || which == 2
  {
    key == FREE || (InBounds(key) && Hash(which, key) == j)
  }

  predicate FourFits(a: int, b: int, c: int, d: int) {
    At(1, a, 0) && At(1, b, 1) && At(2, c, 0) && At(2, d, 1) &&
    (a != FREE ==> a != c && a != d) && (b != FREE ==> b != c && b != d)
  }

  lemma FourInPlace(a: int, b: int, c: int, d: int)
    requires FourFits(a, b, c, d)
    ensures InPlace(Four(a, b, c, d))
    ensures forall x :: Stored(Four(a, b, c, d), x) <==> x != FREE && x in [a, b, c, d]
  {
    var t := Four(a, b, c, d);
    assert t[0][0] in t[0] && t[0][1] in t[0] && t[1][0] in t[1] && t[1][1] in t[1];
  }

  lemma FourWritten(a: int, b: int, c: int, d: int, k: int)
    ensures Written(Four(a, b, c, d), 0, 0, k) == Four(k, b, c, d)
    ensures Written(Four(a, b, c, d), 0, 1, k) == Four(a, k, c, d)
    ensures Written(Four(a, b, c, d), 1, 0, k) == Four(a, b, k, d)
    ensures Written(Four(a, b, c, d), 1, 1, k) == Four(a, b, c, k)
  {
    assert Row(a, b)[0 := k] == Row(k, b) && Row(a, b)[1 := k] == Row(a, k);
    assert Row(c, d)[0 := k] == Row(k, d) && Row(c, d)[1 := k] == Row(c, k);
  }

  // A key kicks the one at its position, or finds it free.
  lemma Kicks(a: int, b: int, c: int, d: int, key: int, side: nat, a': int, b': int, c': int, d': int, key': int, n: nat,
              t': Table, report: Report)
    requires FourFits(a, b, c, d) && FourFits(a', b', c', d') && side < VER && n > 0 && key >= 0 && key' >= 0
    requires key !in [a, b, c, d] && key' !in [a', b', c', d']
    requires Displaced(Four(a, b, c, d), key, side, Four(a', b', c', d'), key')
    requires Placed(Four(a', b', c', d'), key', (side + 1) % VER, n - 1, t', report)
    ensures Placed(Four(a, b, c, d), key, side, n, t', report)
  {
    hide Placed, Displaced, FourFits, Four, InPlace, Stored;
    FourInPlace(a, b, c, d);
    FourInPlace(a', b', c', d');
    DisplacedNow(Four(a, b, c, d), key, side, n, Four(a', b', c', d'), key', t', report);
  }

  lemma FindsFree(a: int, b: int, c: int, d: int, key: int, side: nat, n: nat)
    requires FourFits(a, b, c, d) && side < VER && n > 0 && key >= 0 && key !in [a, b, c, d]
    requires Four(a, b, c, d)[side][Hash(side + 1, key)] == FREE
    ensures Placed(Four(a, b, c, d), key, side, n, Written(Four(a, b, c, d), side, Hash(side + 1, key), key), Positioned)
  {
    FourInPlace(a, b, c, d);
    FreeNow(Four(a, b, c, d), key, side, n);
  }

  // 22 goes around, and comes to its other position at the sixth call.
  lemma Around(n: nat, t': Table, report: Report)
    requires Placed(Four(11, 1, 0, 12), 22, 1, n, t', report)
    ensures Placed(Four(0, 12, 1, 11), 22, 0, n + 5, t', report)
  {
    hide Placed, Four, InPlace, Stored;
    FourWritten(22, 1, 0, 12, 11);
    Kicks(22, 1, 0, 12, 11, 0, 11, 1, 0, 12, 22, n + 1, t', report);
    FourWritten(22, 1, 0, 11, 12);
    Kicks(22, 1, 0, 11, 12, 1, 22, 1, 0, 12, 11, n + 2, t', report);
    FourWritten(22, 12, 0, 11, 1);
    Kicks(22, 12, 0, 11, 1, 0, 22, 1, 0, 11, 12, n + 3, t', report);
    FourWritten(22, 12, 1, 11, 0);
    Kicks(22, 12, 1, 11, 0, 1, 22, 12, 0, 11, 1, n + 4, t', report);
    FourWritten(0, 12, 1, 11, 22);
    Kicks(0, 12, 1, 11, 22, 0, 22, 12, 1, 11, 0, n + 5, t', report);
  }

  lemma Twelve()
    ensures Placed(Four(11, 1, 0, FREE), 12, 0, 5, Four(0, 12, 1, 11), Positioned)
  {
    hide Placed, Four, InPlace, Stored;
    var t := Four(0, 12, 1, 11);
    FourWritten(0, 12, 1, FREE, 11);
    FindsFree(0, 12, 1, FREE, 11, 1, 2);
    FourWritten(11, 12, 1, FREE, 0);
    Kicks(11, 12, 1, FREE, 0, 0, 0, 12, 1, FREE, 11, 3, t, Positioned);
    FourWritten(11, 12, 0, FREE, 1);
    Kicks(11, 12, 0, FREE, 1, 1, 11, 12, 1, FREE, 0, 4, t, Positioned);
    FourWritten(11, 1, 0, FREE, 12);
    Kicks(11, 1, 0, FREE, 12, 0, 11, 12, 0, FREE, 1, 5, t, Positioned);
  }

  lemma Others()
    ensures Placed(EmptyTable(), 0, 0, 5, Four(0, FREE, FREE, FREE), Positioned)
    ensures Placed(Four(0, FREE, FREE, FREE), 11, 0, 5, Four(11, FREE, 0, FREE), Positioned)
    ensures Placed(Four(11, FREE, 0, FREE), 1, 0, 5, Four(11, 1, 0, FREE), Positioned)
  {
    hide Placed, InPlace, Stored;
    assert EmptyTable() == Four(FREE, FREE, FREE, FREE) by {
      assert Row(FREE, FREE) == EmptyTable()[0] == EmptyTable()[1];
    }
    FourWritten(FREE, FREE, FREE, FREE, 0);
    FindsFree(FREE, FREE, FREE, FREE, 0, 0, 5);
    FourWritten(11, FREE, FREE, FREE, 0);
    FindsFree(11, FREE, FREE, FREE, 0, 1, 4);
    FourWritten(0, FREE, FREE, FREE, 11);
    Kicks(0, FREE, FREE, FREE, 11, 0, 11, FREE, FREE, FREE, 0, 5, Four(11, FREE, 0, FREE), Positioned);
    FourWritten(11, FREE, 0, FREE, 1);
    FindsFree(11, FREE, 0, FREE, 1, 0, 5);
  }

  lemma TwentyTwo()
    ensures Placed(Four(0, 12, 1, 11), 22, 0, 5, Four(11, 1, 0, 12), Unpositioned(22))
    ensures Placed(Four(0, 12, 1, 11), 22, 0, 6, Written(Four(11, 1, 0, 12), 1, 2, 22), Positioned)
    ensures !ComesBack(Four(0, 12, 1, 11), 22, 0)
  {
    hide InPlace, ComesBack;
    Around(0, Four(11, 1, 0, 12), Unpositioned(22));
    FindsFree(11, 1, 0, 12, 22, 1, 1);
    Around(1, Written(Four(11, 1, 0, 12), 1, 2, 22), Positioned);
    FourInPlace(0, 12, 1, 11);
    CycleReported(Four(0, 12, 1, 11), 22, 0, 6, Written(Four(11, 1, 0, 12), 1, 2, 22), Positioned);
  }

  lemma AllShaped(keys: seq<int>, ts: seq<Table>, reports: seq<Report>)
    requires PlacedSoFar(keys, |keys|, ts, reports)
    ensures forall i :: 0 <= i <= |keys| ==> Shaped(ts[i])
    ensures forall i :: 0 <= i < |keys| ==> Placed(ts[i], keys[i], 0, |keys|, ts[i + 1], reports[i])
  {
  }

  // The source says that a cycle is present, and leaves 22 out, but there is none, and
  // one call more would have placed it.
  lemma FalseCycle(ts: seq<Table>, reports: seq<Report>)
    requires PlacedSoFar([0, 11, 1, 12, 22], 5, ts, reports)
    ensures reports == [Positioned, Positioned, Positioned, Positioned, Unpositioned(22)]
    ensures Shaped(ts[4]) && !ComesBack(ts[4], 22, 0) && exists t' :: Placed(ts[4], 22, 0, 6, t', Positioned)
  {
    hide Placed, InPlace, Stored, Four, ComesBack;
    var keys := [0, 11, 1, 12, 22];
    AllShaped(keys, ts, reports);
    assert ts[0] == EmptyTable();
    Others();
    OneOutcome(ts[0], keys[0], 0, 5, ts[1], reports[0], Four(0, FREE, FREE, FREE), Positioned);
    OneOutcome(ts[1], keys[1], 0, 5, ts[2], reports[1], Four(11, FREE, 0, FREE), Positioned);
    OneOutcome(ts[2], keys[2], 0, 5, ts[3], reports[2], Four(11, 1, 0, FREE), Positioned);
    Twelve();
    OneOutcome(ts[3], keys[3], 0, 5, ts[4], reports[3], Four(0, 12, 1, 11), Positioned);
    TwentyTwo();
    OneOutcome(ts[4], keys[4], 0, 5, ts[5], reports[4], Four(11, 1, 0, 12), Unpositioned(22));
  }

  // The first collision of the program's own keys: 53 takes the position of 20, which
  // goes to the other table.
  lemma Collision(ts: seq<Table>, reports: seq<Report>)
    requires PlacedSoFar([20, 53], 2, ts, reports)
    ensures reports == [Positioned, Positioned] && Shaped(ts[2]) && ts[2][0][9] == 53 && ts[2][1][1] == 20
  {
    var keys := [20, 53];
    AllShaped(keys, ts, reports);
    FreeIsPositioned(ts[0], 20, 0, 2, ts[1], reports[0]);
    CollisionOnly(ts[0], ts[1], ts[2], reports[1]);
  }

  lemma CollisionOnly(t0: Table, t1: Table, t2: Table, report: Report)
    requires t0 == EmptyTable() && t1 == Written(t0, 0, 9, 20) && Placed(t1, 53, 0, 2, t2, report)
    ensures report == Positioned && Shaped(t2) && t2[0][9] == 53 && t2[1][1] == 20
  {
    hide Placed;
    WrittenInPlace(t0, 0, 20);
    WrittenInPlace(t1, 0, 53);
    var t := Written(t1, 0, 9, 53);
    FreeNow(t, 20, 1, 1);
    DisplacedNow(t1, 53, 0, 2, t, 20, Written(t, 1, 1, 20), Positioned);
    OneOutcome(t1, 53, 0, 2, t2, report, Written(t, 1, 1, 20), Positioned);
  }
}
