/**
  Bitwise operations on natural numbers, defined bit by bit from the low end.  A machine word of
  n bits is a number below Pow2(n), and `Low(x, n)` is what is left of x in n bits.
 */
module Bits {

  function Pow2(n: nat): (p: nat)
    ensures p > 0
  {
    if n == 0 then 1 else 2 * Pow2(n - 1)
  }

  function Bit(x: nat, k: nat): bool
  {
    if k == 0 then x % 2 == 1 else Bit(x / 2, k - 1)
  }

  /** x << s, without truncation. */
  function Shl(x: nat, s: nat): nat
  {
    if s == 0 then x else 2 * Shl(x, s - 1)
  }

  /** x >> s. */
  function Shr(x: nat, s: nat): nat
  {
    if s == 0 then x else Shr(x / 2, s - 1)
  }

  /** x & (2^n - 1). */
  function Low(x: nat, n: nat): nat
  {
    if n == 0 then 0 else x % 2 + 2 * Low(x / 2, n - 1)
  }

  /** a | b. */
  function Or(a: nat, b: nat): nat
    decreases a + b
  {
    if a == 0 && b == 0 then 0
    else (if a % 2 == 1 || b % 2 == 1 then 1 else 0) + 2 * Or(a / 2, b / 2)
  }

  function BitValue(b: bool): nat { if b then 1 else 0 }

  /** The number of bits set. */
  function PopCount(x: nat): nat
  {
    if x == 0 then 0 else x % 2 + PopCount(x / 2)
  }

  // ---------------------------------------------------------------------------------------------
  // What each operation does to each bit
  // ---------------------------------------------------------------------------------------------

  lemma {:induction false} BitOfZero(k: nat)
    ensures !Bit(0, k)
  {
    if k > 0 {
      BitOfZero(k - 1);
    }
  }

  lemma {:induction false} BitOfShl(x: nat, s: nat, k: nat)
    ensures Bit(Shl(x, s), k) == (k >= s && Bit(x, k - s))
  {
    if s > 0 && k > 0 {
      BitOfShl(x, s - 1, k - 1);
      assert Shl(x, s) / 2 == Shl(x, s - 1);
    }
  }

  lemma {:induction false} BitOfShr(x: nat, s: nat, k: nat)
    ensures Bit(Shr(x, s), k) == Bit(x, k + s)
  {
    if s > 0 {
      BitOfShr(x / 2, s - 1, k);
    }
  }

  lemma {:induction false} BitOfLow(x: nat, n: nat, k: nat)
    ensures Bit(Low(x, n), k) == (k < n && Bit(x, k))
  {
    if n == 0 {
      BitOfZero(k);
    } else if k > 0 {
      assert Low(x, n) / 2 == Low(x / 2, n - 1);
      BitOfLow(x / 2, n - 1, k - 1);
    }
  }

  lemma {:induction false} BitOfOr(a: nat, b: nat, k: nat)
    ensures Bit(Or(a, b), k) == (Bit(a, k) || Bit(b, k))
    decreases k
  {
    if a == 0 && b == 0 {
      BitOfZero(k);
    } else if k > 0 {
      assert Or(a, b) / 2 == Or(a / 2, b / 2);
      BitOfOr(a / 2, b / 2, k - 1);
    }
  }

  /** Numbers are equal when all their bits are. */
  lemma {:induction false} Extensional(x: nat, y: nat)
    requires forall k: nat :: Bit(x, k) == Bit(y, k)
    ensures x == y
    decreases x + y
  {
    assert Bit(x, 0) == Bit(y, 0);
    if x > 0 || y > 0 {
      forall k: nat
        ensures Bit(x / 2, k) == Bit(y / 2, k)
      {
        assert Bit(x, k + 1) == Bit(y, k + 1);
      }
      Extensional(x / 2, y / 2);
    }
  }

  // ---------------------------------------------------------------------------------------------
  // Sizes and arithmetic
  // ---------------------------------------------------------------------------------------------

  lemma {:induction false} LowBound(x: nat, n: nat)
    ensures Low(x, n) < Pow2(n)
  {
    if n > 0 {
      LowBound(x / 2, n - 1);
    }
  }

  lemma {:induction false} LowId(x: nat, n: nat)
    requires x < Pow2(n)
    ensures Low(x, n) == x
  {
    if n > 0 {
      LowId(x / 2, n - 1);
    }
  }

  lemma {:induction false} HighBitsClear(x: nat, n: nat, k: nat)
    requires x < Pow2(n) && n <= k
    ensures !Bit(x, k)
  {
    LowId(x, n);
    BitOfLow(x, n, k);
  }

  lemma {:induction false} Pow2Add(m: nat, n: nat)
    ensures Pow2(m + n) == Shl(Pow2(m), n)
  {
    if n > 0 {
      Pow2Add(m, n - 1);
    }
  }

  lemma {:induction false} Pow2Grows(m: nat, n: nat)
    requires m <= n
    ensures Pow2(m) <= Pow2(n)
  {
    if m < n {
      Pow2Grows(m, n - 1);
    }
  }

  lemma {:induction false} ShlBound(x: nat, m: nat, s: nat)
    requires x < Pow2(m)
    ensures Shl(x, s) < Pow2(m + s)
  {
    if s > 0 {
      ShlBound(x, m, s - 1);
    }
  }

  /** Adding a number above the bits in use is the same as or-ing it in. */
  lemma {:induction false} OrIsSum(a: nat, b: nat, s: nat)
    requires a < Pow2(s)
    ensures Or(a, Shl(b, s)) == a + Shl(b, s)
    decreases s
  {
    if s == 0 {
      OrZero(b);
    } else {
      OrIsSum(a / 2, b, s - 1);
      assert Shl(b, s) / 2 == Shl(b, s - 1);
    }
  }

  lemma {:induction false} OrZero(b: nat)
    ensures Or(0, b) == b
  {
    if b > 0 {
      OrZero(b / 2);
    }
  }

  lemma {:induction false} LowOfOr(a: nat, b: nat, n: nat)
    ensures Low(Or(a, b), n) == Or(Low(a, n), Low(b, n))
  {
    if n > 0 {
      if a == 0 && b == 0 {
        LowOfZero(n);
      } else {
        assert Or(a, b) / 2 == Or(a / 2, b / 2);
        LowOfOr(a / 2, b / 2, n - 1);
        var p, q := Low(a, n), Low(b, n);
        assert p / 2 == Low(a / 2, n - 1) && q / 2 == Low(b / 2, n - 1);
      }
    }
  }

  lemma {:induction false} LowOfZero(n: nat)
    ensures Low(0, n) == 0
  {
    if n > 0 {
      LowOfZero(n - 1);
    }
  }

  lemma {:induction false} ShlShl(x: nat, s: nat, t: nat)
    ensures Shl(Shl(x, s), t) == Shl(x, s + t)
  {
    if t > 0 {
      ShlShl(x, s, t - 1);
    }
  }
}
