/**
  Two's-complement words over unbounded integers.

  A C# `long` is an `Int64`; its 64-bit pattern, read as an unsigned number, is a `Word`.
  Bit i of a natural number is found by halving i times, and the bitwise operators are
  defined bit by bit over a width w. Every fact here is proved by induction on the width
  or on the bit index, with division and remainder by 2 only.
*/
module Words {
  const TwoTo31: int := 0x8000_0000
  const TwoTo32: int := 0x1_0000_0000
  const TwoTo63: int := 0x8000_0000_0000_0000
  const TwoTo64: int := 0x1_0000_0000_0000_0000

  /** A C# `long`. */
  type Int64 = v: int | -TwoTo63 <= v < TwoTo63

  /** The 64-bit pattern of a `long`, read as an unsigned number. */
  type Word = x: int | 0 <= x < TwoTo64

  function Pow2(n: nat): (p: nat)
    ensures p >= 1
  {
    if n == 0 then 1 else 2 * Pow2(n - 1)
  }

  lemma {:induction false} Pow2Add(a: nat, b: nat)
    ensures Pow2(a + b) == Pow2(a) * Pow2(b)
  {
    if a > 0 {
      Pow2Add(a - 1, b);
      calc {
        Pow2(a + b);
        2 * Pow2(a - 1 + b);
        2 * (Pow2(a - 1) * Pow2(b));
        (2 * Pow2(a - 1)) * Pow2(b);
      }
    }
  }

  lemma {:induction false} Pow2Monotone(a: nat, b: nat)
    requires a <= b
    ensures Pow2(a) <= Pow2(b)
  {
    if a < b {
      Pow2Monotone(a, b - 1);
    }
  }

  lemma Pow2Square(n: nat, p: nat)
    requires Pow2(n) == p
    ensures Pow2(n + n) == p * p
  {
    Pow2Add(n, n);
  }

  /** The powers the word sizes need. The exponents are held in variables, so the
      powers are reached by four squarings rather than by 64 doublings. */
  lemma Pow2Constants()
    ensures Pow2(31) == TwoTo31 && Pow2(32) == TwoTo32
    ensures Pow2(63) == TwoTo63 && Pow2(64) == TwoTo64
  {
    var n4: nat := 4;
    assert Pow2(n4) == 16;
    Pow2Square(n4, 16);
    var n8: nat := n4 + n4;
    Pow2Square(n8, 0x100);
    var n16: nat := n8 + n8;
    Pow2Square(n16, 0x1_0000);
    var n32: nat := n16 + n16;
    Pow2Square(n32, TwoTo32);
    assert Pow2(n32) == 2 * Pow2(n32 - 1);
    assert Pow2(n32 + n32) == 2 * Pow2(n32 + n32 - 1);
  }

  lemma Pow2At31()
    ensures Pow2(31) == TwoTo31
  {
    Pow2Constants();
  }

  lemma Pow2At63()
    ensures Pow2(63) == TwoTo63
  {
    Pow2Constants();
  }

  lemma Pow2At64()
    ensures Pow2(64) == TwoTo64
  {
    Pow2Constants();
  }

  function Pattern(v: Int64): Word {
    if v < 0 then v + TwoTo64 else v
  }

  function FromPattern(x: Word): Int64 {
    if x >= TwoTo63 then x - TwoTo64 else x
  }

  /** A `long` and its pattern determine each other. */
  lemma PatternRoundTrip(v: Int64, x: Word)
    ensures FromPattern(Pattern(v)) == v && Pattern(FromPattern(x)) == x
  {
  }

  /** A number below 2^64 is a pattern. */
  lemma WordBound(x: nat)
    requires x < Pow2(64)
    ensures x < TwoTo64 && Pattern(FromPattern(x)) == x
  {
    Pow2At64();
  }

  /** Whether bit i of x is set. */
  predicate Bit(x: nat, i: nat) {
    if i == 0 then x % 2 == 1 else Bit(x / 2, i - 1)
  }

  lemma {:induction false} BitBelow(x: nat, i: nat)
    requires x < Pow2(i)
    ensures !Bit(x, i)
  {
    if i > 0 {
      BitBelow(x / 2, i - 1);
    }
  }

  /** No bit at or above w is set in a number below 2^w. */
  lemma BitAboveWidth(x: nat, w: nat, i: nat)
    requires x < Pow2(w) && w <= i
    ensures !Bit(x, i)
  {
    Pow2Monotone(w, i);
    BitBelow(x, i);
  }

  lemma {:induction false} BitOfPow2(j: nat, i: nat)
    ensures Bit(Pow2(j), i) == (i == j)
  {
    if i > 0 && j > 0 {
      BitOfPow2(j - 1, i - 1);
    } else if i > 0 {
      BitBelow(0, i - 1);
    }
  }

  lemma BitDouble(y: nat, i: nat)
    ensures Bit(2 * y, i) == (i > 0 && Bit(y, i - 1))
  {
  }

  /** Adding 2^j leaves the bits below j. */
  lemma {:induction false} BitAddHigh(y: nat, j: nat, i: nat)
    requires i < j
    ensures Bit(y + Pow2(j), i) == Bit(y, i)
  {
    if i > 0 {
      BitAddHigh(y / 2, j - 1, i - 1);
    }
  }

  /** Adding 2^j to a number below 2^j sets bit j. */
  lemma {:induction false} BitAddTop(y: nat, j: nat)
    requires y < Pow2(j)
    ensures Bit(y + Pow2(j), j)
  {
    if j > 0 {
      BitAddTop(y / 2, j - 1);
    }
  }

  /** Two numbers below 2^w with the same w low bits are equal. */
  lemma {:induction false} BitsDetermine(x: nat, y: nat, w: nat)
    requires x < Pow2(w) && y < Pow2(w)
    requires forall i :: 0 <= i < w ==> Bit(x, i) == Bit(y, i)
    ensures x == y
  {
    if w > 0 {
      assert Bit(x, 0) == Bit(y, 0);
      forall i | 0 <= i < w - 1
        ensures Bit(x / 2, i) == Bit(y / 2, i)
      {
        assert Bit(x, i + 1) == Bit(y, i + 1);
      }
      BitsDetermine(x / 2, y / 2, w - 1);
    }
  }

  /** A number below 2^w is non-zero exactly when one of its w low bits is set. */
  lemma {:induction false} NonZeroHasBit(x: nat, w: nat)
    requires x < Pow2(w)
    ensures x != 0 <==> exists i :: 0 <= i < w && Bit(x, i)
  {
    if w == 0 {
    } else if x != 0 {
      if x % 2 == 1 {
        assert Bit(x, 0);
        assert exists i :: 0 <= i < w && Bit(x, i);
      } else {
        NonZeroHasBit(x / 2, w - 1);
        var i :| 0 <= i < w - 1 && Bit(x / 2, i);
        assert Bit(x, i + 1);
        assert exists i :: 0 <= i < w && Bit(x, i);
      }
    } else {
      forall i | 0 <= i < w
        ensures !Bit(x, i)
      {
        BitBelow(x, i);
      }
    }
  }

  /** A number in [2^j, 2^w) has a set bit among bits j .. w-1. */
  lemma {:induction false} HighBitSet(x: nat, j: nat, w: nat)
    requires Pow2(j) <= x < Pow2(w)
    ensures exists i :: j <= i < w && Bit(x, i)
  {
    if j == 0 {
      NonZeroHasBit(x, w);
    } else {
      HighBitSet(x / 2, j - 1, w - 1);
      var i :| j - 1 <= i < w - 1 && Bit(x / 2, i);
      assert Bit(x, i + 1);
    }
  }

  function AndBits(a: nat, b: nat, w: nat): nat {
    if w == 0 then 0
    else 2 * AndBits(a / 2, b / 2, w - 1) + (if a % 2 == 1 && b % 2 == 1 then 1 else 0)
  }

  function OrBits(a: nat, b: nat, w: nat): nat {
    if w == 0 then 0
    else 2 * OrBits(a / 2, b / 2, w - 1) + (if a % 2 == 1 || b % 2 == 1 then 1 else 0)
  }

  function XorBits(a: nat, b: nat, w: nat): nat {
    if w == 0 then 0
    else 2 * XorBits(a / 2, b / 2, w - 1) + (if (a % 2 == 1) != (b % 2 == 1) then 1 else 0)
  }

  /** The bitwise operators over w bits give numbers below 2^w. */
  lemma {:induction false} BitwiseBounds(a: nat, b: nat, w: nat)
    ensures AndBits(a, b, w) < Pow2(w) && OrBits(a, b, w) < Pow2(w) && XorBits(a, b, w) < Pow2(w)
  {
    if w > 0 {
      BitwiseBounds(a / 2, b / 2, w - 1);
    }
  }

  /** The bitwise operators on two zero words give zero. */
  lemma {:induction false} ZeroBits(w: nat)
    ensures AndBits(0, 0, w) == 0 && OrBits(0, 0, w) == 0 && XorBits(0, 0, w) == 0
  {
    if w > 0 {
      ZeroBits(w - 1);
    }
  }

  lemma {:induction false} BitOfAnd(a: nat, b: nat, w: nat, i: nat)
    ensures Bit(AndBits(a, b, w), i) == (i < w && Bit(a, i) && Bit(b, i))
  {
    if w == 0 {
      BitBelow(0, i);
    } else if i > 0 {
      BitOfAnd(a / 2, b / 2, w - 1, i - 1);
    }
  }

  lemma {:induction false} BitOfOr(a: nat, b: nat, w: nat, i: nat)
    ensures Bit(OrBits(a, b, w), i) == (i < w && (Bit(a, i) || Bit(b, i)))
  {
    if w == 0 {
      BitBelow(0, i);
    } else if i > 0 {
      BitOfOr(a / 2, b / 2, w - 1, i - 1);
    }
  }

  lemma {:induction false} BitOfXor(a: nat, b: nat, w: nat, i: nat)
    ensures Bit(XorBits(a, b, w), i) == (i < w && Bit(a, i) != Bit(b, i))
  {
    if w == 0 {
      BitBelow(0, i);
    } else if i > 0 {
      BitOfXor(a / 2, b / 2, w - 1, i - 1);
    }
  }

  /** 2^w - 1 - x flips the w low bits of x. */
  lemma {:induction false} BitOfComplement(x: nat, w: nat, i: nat)
    requires x < Pow2(w)
    ensures Bit(Pow2(w) - 1 - x, i) == (i < w && !Bit(x, i))
  {
    if w == 0 {
      BitBelow(0, i);
    } else if i > 0 {
      assert (Pow2(w) - 1 - x) / 2 == Pow2(w - 1) - 1 - x / 2;
      BitOfComplement(x / 2, w - 1, i - 1);
    }
  }

  /** 2^w - 2^j has exactly bits j .. w-1 set. */
  lemma {:induction false} BitOfRun(j: nat, w: nat, i: nat)
    requires j <= w && Pow2(j) <= Pow2(w)
    ensures Bit(Pow2(w) - Pow2(j), i) == (j <= i < w)
  {
    if j == 0 {
      BitOfComplement(0, w, i);
      BitBelow(0, i);
    } else if i > 0 {
      assert (Pow2(w) - Pow2(j)) / 2 == Pow2(w - 1) - Pow2(j - 1);
      BitOfRun(j - 1, w - 1, i - 1);
    }
  }
}
