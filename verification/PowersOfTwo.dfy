// Powers of two: a tree of a red-black height, or a binomial tree of a degree, has at
// least, or just, so many nodes, and the power of a sum is the product of
// the powers.
module PowersOfTwo {
  function Pow2(n: nat): nat {
    if n == 0 then 1 else 2 * Pow2(n - 1)
  }

  lemma {:induction false} Pow2Sum(a: nat, b: nat)
    ensures Pow2(a + b) == Pow2(a) * Pow2(b)
  {
    if a > 0 {
      Pow2Sum(a - 1, b);
      assert 2 * (Pow2(a - 1) * Pow2(b)) == (2 * Pow2(a - 1)) * Pow2(b);
    }
  }

  lemma {:induction false} Pow2Doubles(a: nat, b: nat)
    requires a <= 2 * b
    ensures Pow2(a) <= Pow2(b) * Pow2(b)
  {
    if a > 0 {
      if a == 1 {
        Pow2Positive(b - 1);
        assert Pow2(b) >= 2;
      } else {
        Pow2Doubles(a - 2, b - 1);
        Quadruple(Pow2(b - 1));
      }
    } else {
      Pow2Positive(b);
    }
  }

  lemma Quadruple(x: int)
    ensures (2 * x) * (2 * x) == 4 * (x * x)
  {
  }

  lemma {:induction false} Pow2Positive(n: nat)
    ensures Pow2(n) >= 1 && Pow2(n) * Pow2(n) >= 1
  {
    if n > 0 { Pow2Positive(n - 1); }
  }
}
