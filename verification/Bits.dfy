/** Bit-level arithmetic on naturals. */
module Bits {
  /** Bitwise exclusive or. */
  function Xor(a: nat, b: nat): nat {
    if a == 0 && b == 0 then 0
    else 2 * Xor(a / 2, b / 2) + (if a % 2 == b % 2 then 0 else 1)
  }

  /** The lowest bit and the rest of an exclusive or. */
  lemma XorBits(a: nat, b: nat)
    ensures Xor(a, b) / 2 == Xor(a / 2, b / 2)
    ensures Xor(a, b) % 2 == if a % 2 == b % 2 then 0 else 1
  {
  }

  /** Exclusive or with the same value can be undone. */
  lemma {:induction false} XorInvolution(a: nat, b: nat)
    ensures Xor(Xor(a, b), b) == a
    decreases a + b
  {
    if a != 0 || b != 0 {
      hide Xor;
      XorInvolution(a / 2, b / 2);
      XorBits(a, b);
      XorBits(Xor(a, b), b);
    }
  }

  lemma {:induction false} XorCommutes(a: nat, b: nat)
    ensures Xor(a, b) == Xor(b, a)
    decreases a + b
  {
    if a != 0 || b != 0 {
      XorCommutes(a / 2, b / 2);
    }
  }

  function Pow2(k: nat): (p: nat)
    ensures p > 0
  {
    if k == 0 then 1 else 2 * Pow2(k - 1)
  }

  /** Bits from position k up pass through an exclusive or with a value below 2^k. */
  lemma {:induction false} XorHighBits(k: nat, a: nat, t: nat, b: nat)
    requires a < Pow2(k) && b < Pow2(k)
    ensures Xor(a, b) < Pow2(k)
    ensures Xor(a + t * Pow2(k), b) == Xor(a, b) + t * Pow2(k)
  {
    if k == 0 {
      XorZero(t);
    } else {
      var high := t * Pow2(k - 1);
      assert t * Pow2(k) == 2 * high;
      XorHighBits(k - 1, a / 2, t, b / 2);
      assert (a + 2 * high) / 2 == a / 2 + high;
      assert (a + 2 * high) % 2 == a % 2;
    }
  }

  lemma {:induction false} XorZero(t: nat)
    ensures Xor(t, 0) == t
  {
    if t != 0 {
      XorZero(t / 2);
    }
  }

  /** big.Int.BitLen. */
  function BitLen(n: nat): nat {
    if n == 0 then 0 else 1 + BitLen(n / 2)
  }

  lemma {:induction false} BitLenMeaning(n: nat, k: nat)
    ensures BitLen(n) > k <==> n >= Pow2(k)
  {
    if n == 0 {
    } else if k > 0 {
      BitLenMeaning(n / 2, k - 1);
    }
  }
}
