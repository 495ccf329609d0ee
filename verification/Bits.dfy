/** The bits of natural numbers, and the bitwise operations on them. */
module Bits {
  import opened Isa
  import opened Powers

  function TestBit(w: nat, i: nat): bool
    decreases i
  {
    if i == 0 then w % 2 == 1 else TestBit(w / 2, i - 1)
  }

  function AndBits(a: nat, b: nat): nat {
    if a == 0 || b == 0 then 0 else 2 * AndBits(a / 2, b / 2) + (if a % 2 == 1 && b % 2 == 1 then 1 else 0)
  }

  function OrBits(a: nat, b: nat): nat
    decreases a + b
  {
    if a == 0 && b == 0 then 0 else 2 * OrBits(a / 2, b / 2) + (if a % 2 == 1 || b % 2 == 1 then 1 else 0)
  }

  function XorBits(a: nat, b: nat): nat
    decreases a + b
  {
    if a == 0 && b == 0 then 0 else 2 * XorBits(a / 2, b / 2) + (if a % 2 != b % 2 then 1 else 0)
  }

  lemma {:induction false} TestZero(i: nat)
    ensures !TestBit(0, i)
  {
    if i > 0 { TestZero(i - 1); }
  }

  lemma {:induction false} TestAnd(a: nat, b: nat, i: nat)
    ensures TestBit(AndBits(a, b), i) <==> TestBit(a, i) && TestBit(b, i)
    decreases i
  {
    if a == 0 || b == 0 {
      TestZero(i);
    } else if i > 0 {
      TestAnd(a / 2, b / 2, i - 1);
    }
  }

  lemma {:induction false} TestOr(a: nat, b: nat, i: nat)
    ensures TestBit(OrBits(a, b), i) <==> TestBit(a, i) || TestBit(b, i)
    decreases i
  {
    if a == 0 && b == 0 {
      TestZero(i);
    } else if i > 0 {
      TestOr(a / 2, b / 2, i - 1);
    }
  }

  lemma {:induction false} TestXor(a: nat, b: nat, i: nat)
    ensures TestBit(XorBits(a, b), i) <==> TestBit(a, i) != TestBit(b, i)
    decreases i
  {
    if a == 0 && b == 0 {
      TestZero(i);
    } else if i > 0 {
      TestXor(a / 2, b / 2, i - 1);
    }
  }

  lemma {:induction false} TestPower(i: nat, j: nat)
    ensures TestBit(Pow2(i), j) <==> i == j
    decreases i
  {
    if i == 0 {
      if j > 0 { TestZero(j - 1); }
    } else if j > 0 {
      TestPower(i - 1, j - 1);
    }
  }

  lemma {:induction false} AndFits(a: nat, b: nat)
    ensures AndBits(a, b) <= a
    decreases a
  {
    if a > 0 && b > 0 { AndFits(a / 2, b / 2); }
  }

  lemma {:induction false} OrFits(a: nat, b: nat, k: nat)
    requires a < Pow2(k) && b < Pow2(k)
    ensures OrBits(a, b) < Pow2(k)
    decreases k
  {
    if k > 0 { OrFits(a / 2, b / 2, k - 1); }
  }

  lemma {:induction false} XorFits(a: nat, b: nat, k: nat)
    requires a < Pow2(k) && b < Pow2(k)
    ensures XorBits(a, b) < Pow2(k)
    decreases k
  {
    if k > 0 { XorFits(a / 2, b / 2, k - 1); }
  }

  /** A bit is a digit of the binary numeral. */
  lemma {:induction false} BitIsDigit(w: nat, i: nat)
    ensures TestBit(w, i) <==> w / Pow2(i) % 2 == 1
    decreases i
  {
    if i > 0 {
      BitIsDigit(w / 2, i - 1);
      HalveThenDivide(w, Pow2(i - 1));
    }
  }

  lemma HalveThenDivide(w: nat, p: nat)
    requires p > 0
    ensures w / 2 / p == w / (2 * p)
  {
    var q := w / 2 / p;
    var r := w / 2 % p;
    assert w / 2 == q * p + r;
    assert w == (2 * p) * q + (2 * r + w % 2);
    assert 2 * r + w % 2 < 2 * p;
    Quotient(w, 2 * p, q, 2 * r + w % 2);
  }

  /** `~w` on a word of `k` bits. */
  lemma {:induction false} TestComplement(w: nat, k: nat, i: nat)
    requires w < Pow2(k) && i < k
    ensures TestBit(Pow2(k) - 1 - w, i) <==> !TestBit(w, i)
    decreases k
  {
    if i > 0 {
      TestComplement(w / 2, k - 1, i - 1);
      assert (Pow2(k) - 1 - w) / 2 == Pow2(k - 1) - 1 - w / 2;
    }
  }

  /** `(1 << k) - 1` has exactly the low `k` bits. */
  lemma {:induction false} TestLowBits(k: nat, i: nat)
    ensures TestBit(Pow2(k) - 1, i) <==> i < k
    decreases k
  {
    if k == 0 {
      TestZero(i);
    } else if i > 0 {
      TestLowBits(k - 1, i - 1);
      assert (Pow2(k) - 1) / 2 == Pow2(k - 1) - 1;
    }
  }

  /** Words with the same bits are equal. */
  lemma {:induction false} BitsDetermine(a: nat, b: nat, k: nat)
    requires a < Pow2(k) && b < Pow2(k) && forall i: nat | i < k :: TestBit(a, i) == TestBit(b, i)
    ensures a == b
    decreases k
  {
    if k > 0 {
      forall i: nat | i < k - 1 ensures TestBit(a / 2, i) == TestBit(b / 2, i) {
        assert TestBit(a, i + 1) == TestBit(b, i + 1);
      }
      BitsDetermine(a / 2, b / 2, k - 1);
      assert TestBit(a, 0) == TestBit(b, 0);
    }
  }
}
