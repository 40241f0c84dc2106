/** Bitwise operators on naturals, bit by bit, and when an OR of shifted fields is their sum. */
module Bits {
  function Pow2(n: nat): (p: nat)
    ensures p >= 1
  {
    if n == 0 then 1 else 2 * Pow2(n - 1)
  }

  function Or(a: nat, b: nat): nat
    decreases a + b
  {
    if a == 0 && b == 0 then 0
    else (if a % 2 == 1 || b % 2 == 1 then 1 else 0) + 2 * Or(a / 2, b / 2)
  }

  function Xor(a: nat, b: nat): nat
    decreases a + b
  {
    if a == 0 && b == 0 then 0
    else (if a % 2 != b % 2 then 1 else 0) + 2 * Xor(a / 2, b / 2)
  }

  lemma {:induction false} Pow2Add(a: nat, b: nat)
    ensures Pow2(a + b) == Pow2(a) * Pow2(b)
  {
    if a > 0 {
      Pow2Add(a - 1, b);
    }
  }

  lemma Pow2Values()
    ensures Pow2(5) == 0x20 && Pow2(8) == 0x100 && Pow2(16) == 0x1_0000
    ensures Pow2(31) == 0x8000_0000 && Pow2(32) == 0x1_0000_0000
  {
    assert Pow2(4) == 16;
    Pow2Add(4, 4);
    Pow2Add(8, 8);
    Pow2Add(16, 16);
  }

  lemma {:induction false} Pow2Monotone(a: nat, b: nat)
    requires a <= b
    ensures Pow2(a) <= Pow2(b)
  {
    if a < b {
      Pow2Monotone(a, b - 1);
    }
  }

  lemma {:induction false} OrSymmetric(a: nat, b: nat)
    ensures Or(a, b) == Or(b, a)
    decreases a + b
  {
    if a != 0 || b != 0 {
      OrSymmetric(a / 2, b / 2);
    }
  }

  lemma {:induction false} OrZero(b: nat)
    ensures Or(0, b) == b
  {
    if b != 0 {
      OrZero(b / 2);
    }
  }

  /** Fields that do not overlap: a value below 2^k and a value shifted left by k. */
  lemma {:induction false} OrDisjoint(a: nat, b: nat, k: nat)
    requires a < Pow2(k)
    ensures Or(a, b * Pow2(k)) == a + b * Pow2(k)
    decreases k
  {
    if k == 0 {
      OrZero(b);
    } else {
      var h := b * Pow2(k - 1);
      assert b * Pow2(k) == 2 * h;
      OrDisjoint(a / 2, b, k - 1);
      if a == 0 && h == 0 {
      } else {
        assert (2 * h) / 2 == h && (2 * h) % 2 == 0;
      }
    }
  }

  /** XOR with the same value twice gives the first value back. */
  lemma {:induction false} XorInvolutive(a: nat, b: nat)
    ensures Xor(Xor(a, b), b) == a
    decreases a + b
  {
    if a != 0 || b != 0 {
      XorInvolutive(a / 2, b / 2);
      var x := Xor(a, b);
      assert x / 2 == Xor(a / 2, b / 2);
      assert x % 2 == (if a % 2 != b % 2 then 1 else 0);
    }
  }

  lemma {:induction false} XorZero(a: nat)
    ensures Xor(a, 0) == a
  {
    if a != 0 {
      XorZero(a / 2);
    }
  }

  /** XOR stays inside the width of its operands. */
  lemma {:induction false} XorBound(a: nat, b: nat, k: nat)
    requires a < Pow2(k) && b < Pow2(k)
    ensures Xor(a, b) < Pow2(k)
    decreases k
  {
    if k > 0 {
      XorBound(a / 2, b / 2, k - 1);
    }
  }

  lemma {:induction false} OrBound(a: nat, b: nat, k: nat)
    requires a < Pow2(k) && b < Pow2(k)
    ensures Or(a, b) < Pow2(k)
    decreases k
  {
    if k > 0 {
      OrBound(a / 2, b / 2, k - 1);
    }
  }
}
