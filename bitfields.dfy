/**
  The `BitFields` object: a C# `long` whose bits are read and toggled through an indexer,
  with bitwise operators and shifts. The state is an `Int64`, and every operator is
  modelled through the two's-complement patterns of its operands (module `Words`).

  The indexer's mask is the `int` expression `1 << index`: C# takes the count of an
  `int` shift as `index & 31`, and `1 << 31` is `int.MinValue`, which widens to the
  `long` with bits 31..63 set. Shifts of a `long` take the count as `amount & 63`.
*/
module BitFields {
  import opened Words
  import opened Exceptions

  const BitsPerByte: int := 8
  const SizeOfLong: int := 8
  /** The number of bits in a `long`: eight bytes of eight bits. */
  const Count: int := SizeOfLong * BitsPerByte

  // ---------------------------------------------------------------------------------------
  // The `long` operators

  function And(a: Int64, b: Int64): Int64 {
    BitwiseBounds(Pattern(a), Pattern(b), 64);
    WordBound(AndBits(Pattern(a), Pattern(b), 64));
    FromPattern(AndBits(Pattern(a), Pattern(b), 64))
  }

  function Or(a: Int64, b: Int64): Int64 {
    BitwiseBounds(Pattern(a), Pattern(b), 64);
    WordBound(OrBits(Pattern(a), Pattern(b), 64));
    FromPattern(OrBits(Pattern(a), Pattern(b), 64))
  }

  function Xor(a: Int64, b: Int64): Int64 {
    BitwiseBounds(Pattern(a), Pattern(b), 64);
    WordBound(XorBits(Pattern(a), Pattern(b), 64));
    FromPattern(XorBits(Pattern(a), Pattern(b), 64))
  }

  /** Bitwise complement, which in two's complement is minus a minus one. */
  function Not(a: Int64): Int64 {
    -(a as int) - 1
  }

  /** Bit i (0 <= i < 64) of a `long`. */
  predicate BitOf(v: Int64, i: nat) {
    Bit(Pattern(v), i)
  }

  /** A `long` is determined by its 64 bits. */
  lemma {:induction false} BitsDetermineLong(a: Int64, b: Int64)
    requires forall i :: 0 <= i < 64 ==> BitOf(a, i) == BitOf(b, i)
    ensures a == b
  {
    Pow2At64();
    forall i | 0 <= i < 64
      ensures Bit(Pattern(a), i) == Bit(Pattern(b), i)
    {
      assert BitOf(a, i) == BitOf(b, i);
    }
    BitsDetermine(Pattern(a), Pattern(b), 64);
    PatternRoundTrip(a, 0);
    PatternRoundTrip(b, 0);
  }

  lemma {:induction false} AndIsBitwise(a: Int64, b: Int64, i: nat)
    requires i < 64
    ensures BitOf(And(a, b), i) == (BitOf(a, i) && BitOf(b, i))
  {
    var x := AndBits(Pattern(a), Pattern(b), 64);
    BitwiseBounds(Pattern(a), Pattern(b), 64);
    WordBound(x);
    assert And(a, b) == FromPattern(x);
    BitOfAnd(Pattern(a), Pattern(b), 64, i);
  }

  lemma {:induction false} OrIsBitwise(a: Int64, b: Int64, i: nat)
    requires i < 64
    ensures BitOf(Or(a, b), i) == (BitOf(a, i) || BitOf(b, i))
  {
    var x := OrBits(Pattern(a), Pattern(b), 64);
    BitwiseBounds(Pattern(a), Pattern(b), 64);
    WordBound(x);
    assert Or(a, b) == FromPattern(x);
    BitOfOr(Pattern(a), Pattern(b), 64, i);
  }

  lemma {:induction false} XorIsBitwise(a: Int64, b: Int64, i: nat)
    requires i < 64
    ensures BitOf(Xor(a, b), i) == (BitOf(a, i) != BitOf(b, i))
  {
    var x := XorBits(Pattern(a), Pattern(b), 64);
    BitwiseBounds(Pattern(a), Pattern(b), 64);
    WordBound(x);
    assert Xor(a, b) == FromPattern(x);
    BitOfXor(Pattern(a), Pattern(b), 64, i);
  }

  lemma PatternOfNot(a: Int64)
    ensures Pattern(Not(a)) == TwoTo64 - 1 - Pattern(a)
  {
  }

  lemma {:induction false} NotIsBitwise(a: Int64, i: nat)
    requires i < 64
    ensures BitOf(Not(a), i) == !BitOf(a, i)
  {
    PatternOfNot(a);
    Pow2At64();
    BitOfComplement(Pattern(a), 64, i);
  }

  lemma {:induction false} AndAll(a: Int64, b: Int64)
    ensures forall i :: 0 <= i < 64 ==> BitOf(And(a, b), i) == (BitOf(a, i) && BitOf(b, i))
  {
    forall i | 0 <= i < 64 {
      AndIsBitwise(a, b, i);
    }
  }

  lemma {:induction false} OrAll(a: Int64, b: Int64)
    ensures forall i :: 0 <= i < 64 ==> BitOf(Or(a, b), i) == (BitOf(a, i) || BitOf(b, i))
  {
    forall i | 0 <= i < 64 {
      OrIsBitwise(a, b, i);
    }
  }

  lemma {:induction false} XorAll(a: Int64, b: Int64)
    ensures forall i :: 0 <= i < 64 ==> BitOf(Xor(a, b), i) == (BitOf(a, i) != BitOf(b, i))
  {
    forall i | 0 <= i < 64 {
      XorIsBitwise(a, b, i);
    }
  }

  lemma {:induction false} NotAll(a: Int64)
    ensures forall i :: 0 <= i < 64 ==> BitOf(Not(a), i) == !BitOf(a, i)
  {
    forall i | 0 <= i < 64 {
      NotIsBitwise(a, i);
    }
  }

  /** Toggling the same bits twice gives back the original word. */
  lemma {:induction false} XorTwice(s: Int64, m: Int64)
    ensures Xor(Xor(s, m), m) == s
  {
    forall i | 0 <= i < 64
      ensures BitOf(Xor(Xor(s, m), m), i) == BitOf(s, i)
    {
      XorIsBitwise(Xor(s, m), m, i);
      XorIsBitwise(s, m, i);
    }
    BitsDetermineLong(Xor(Xor(s, m), m), s);
  }

  /** Toggling the bits of m in the clear word gives m. */
  lemma {:induction false} XorZero(m: Int64)
    ensures Xor(0, m) == m
  {
    forall i | 0 <= i < 64
      ensures BitOf(Xor(0, m), i) == BitOf(m, i)
    {
      XorIsBitwise(0, m, i);
      BitBelow(0, i);
    }
    BitsDetermineLong(Xor(0, m), m);
  }

  // ---------------------------------------------------------------------------------------
  // The indexer's mask

  /** An `int` result wraps to 32 bits. */
  function Wrap32(x: int): int {
    var p := x % TwoTo32;
    if p >= TwoTo31 then p - TwoTo32 else p
  }

  /** The getter's and setter's mask: one shifted left on a 32-bit `int`, then widened to
      `long` with its sign. */
  function Mask(index: int): Int64 {
    Wrap32(Pow2(index % 32))
  }

  /** Which bits of the widened mask are set. */
  predicate MaskCovers(index: int, i: nat) {
    if index % 32 < 31 then i == index % 32 else 31 <= i
  }

  /** The getter's test: the mask and the state share a set bit. */
  predicate Reads(s: Int64, index: int) {
    And(Mask(index), s) != 0
  }

  lemma Pow2Below31(c: nat)
    requires c < 31
    ensures Pow2(c) < TwoTo31
  {
    Pow2Monotone(c, 30);
    Pow2At31();
  }

  lemma MaskBelow31(index: int)
    requires index % 32 < 31
    ensures Mask(index) == Pow2(index % 32)
  {
    Pow2Below31(index % 32);
    assert Pow2(index % 32) % TwoTo32 == Pow2(index % 32);
  }

  lemma MaskAt31(index: int)
    requires index % 32 == 31
    ensures Mask(index) == -TwoTo31
  {
    Pow2At31();
    assert Pow2(31) % TwoTo32 == TwoTo31;
  }

  lemma PatternOfMaskAt31(index: int)
    requires index % 32 == 31
    ensures Pattern(Mask(index)) == Pow2(64) - Pow2(31)
  {
    MaskAt31(index);
    Pow2At31();
    Pow2At64();
  }

  /** The widened mask has exactly the bits `MaskCovers` names. */
  lemma {:induction false} BitOfMask(index: int, i: nat)
    requires i < 64
    ensures BitOf(Mask(index), i) == MaskCovers(index, i)
  {
    if index % 32 < 31 {
      MaskBelow31(index);
      BitOfPow2(index % 32, i);
    } else {
      PatternOfMaskAt31(index);
      Pow2Monotone(31, 64);
      BitOfRun(31, 64, i);
    }
  }

  /** The getter's test holds exactly when one of the bits the mask covers is set. */
  lemma {:induction false} ReadsSomeCoveredBit(s: Int64, index: int)
    ensures Reads(s, index) <==> exists i :: 0 <= i < 64 && MaskCovers(index, i) && BitOf(s, i)
  {
    var r := And(Mask(index), s);
    forall i | 0 <= i < 64
      ensures BitOf(r, i) == (MaskCovers(index, i) && BitOf(s, i))
    {
      AndIsBitwise(Mask(index), s, i);
      BitOfMask(index, i);
    }
    Pow2At64();
    NonZeroHasBit(Pattern(r), 64);
    if r != 0 {
      var i :| 0 <= i < 64 && Bit(Pattern(r), i);
      assert BitOf(r, i);
    } else {
      forall i | 0 <= i < 64
        ensures !(MaskCovers(index, i) && BitOf(s, i))
      {
        BitBelow(0, i);
        assert !BitOf(r, i);
      }
    }
  }

  /** For an index whose count `index & 31` is below 31, the getter reads exactly that bit. */
  lemma {:induction false} ReadsLowBit(s: Int64, index: int)
    requires index % 32 < 31
    ensures Reads(s, index) == BitOf(s, index % 32)
  {
    ReadsSomeCoveredBit(s, index);
  }

  /** For count 31 the widened mask covers bits 31..63: the getter reports whether the
      state lies outside [0, 2^31). */
  lemma {:induction false} ReadsTopBits(s: Int64, index: int)
    requires index % 32 == 31
    ensures Reads(s, index) == !(0 <= s < TwoTo31)
  {
    ReadsSomeCoveredBit(s, index);
    var p := Pattern(s);
    Pow2At31();
    if 0 <= s < TwoTo31 {
      forall i | 31 <= i < 64
        ensures !BitOf(s, i)
      {
        BitAboveWidth(p, 31, i);
      }
    } else {
      Pow2At64();
      HighBitSet(p, 31, 64);
      var i :| 31 <= i < 64 && Bit(p, i);
      assert MaskCovers(index, i) && BitOf(s, i);
    }
  }

  /** Toggling with the mask flips exactly the bits the mask covers. */
  lemma {:induction false} ToggleBits(s: Int64, index: int, i: nat)
    requires i < 64
    ensures BitOf(Xor(s, Mask(index)), i) == (BitOf(s, i) != MaskCovers(index, i))
  {
    XorIsBitwise(s, Mask(index), i);
    BitOfMask(index, i);
  }

  /** For a count below 31, toggling then reading the same index gives the opposite value. */
  lemma {:induction false} ToggleFlipsRead(s: Int64, index: int)
    requires index % 32 < 31
    ensures Reads(Xor(s, Mask(index)), index) == !Reads(s, index)
  {
    ReadsLowBit(s, index);
    ReadsLowBit(Xor(s, Mask(index)), index);
    ToggleBits(s, index, index % 32);
  }

  /** Toggling one index leaves the read of any index whose bit it does not cover. */
  lemma {:induction false} ToggleFrame(s: Int64, index: int, other: int)
    requires other % 32 < 31 && !MaskCovers(index, other % 32)
    ensures Reads(Xor(s, Mask(index)), other) == Reads(s, other)
  {
    ReadsLowBit(s, other);
    ReadsLowBit(Xor(s, Mask(index)), other);
    ToggleBits(s, index, other % 32);
  }

  /** Indices 32 .. 63 use the same mask as the index 32 below them. */
  lemma MaskAliases(index: int)
    ensures Mask(index + 32) == Mask(index)
  {
    assert (index + 32) % 32 == index % 32;
  }

  // ---------------------------------------------------------------------------------------
  // Shifts

  /** The count of a `long` shift: `amount & 63`. */
  function ShiftCount(amount: int): (n: nat)
    ensures n < 64 && (amount - n) % 64 == 0
  {
    amount % 64
  }

  /** A value wraps to 64 bits. */
  function Wrap64(x: int): Int64 {
    FromPattern(x % TwoTo64)
  }

  /** Left shift by n: n doublings, each wrapped to 64 bits. */
  function ShiftLeft(v: Int64, n: nat): Int64 {
    if n == 0 then v else Wrap64(2 * ShiftLeft(v, n - 1))
  }

  /** Right shift by n on a `long` is arithmetic: n halvings, each rounding towards minus
      infinity. */
  function ShiftRight(v: Int64, n: nat): Int64 {
    if n == 0 then v else ShiftRight(v, n - 1) / 2
  }

  function Min(a: int, b: int): int {
    if a < b then a else b
  }

  lemma PatternOfDouble(v: Int64)
    ensures v >= 0 ==> Pattern(Wrap64(2 * v)) == 2 * Pattern(v) && Pattern(v) < TwoTo63
    ensures v < 0 ==> Pattern(Wrap64(2 * v)) == 2 * (Pattern(v) - TwoTo63) && Pattern(v) >= TwoTo63
  {
    if v >= 0 {
      assert (2 * v) % TwoTo64 == 2 * v;
    } else {
      assert (2 * v) % TwoTo64 == 2 * v + TwoTo64;
    }
  }

  lemma PatternOfHalf(v: Int64)
    ensures v >= 0 ==> Pattern(v / 2) == Pattern(v) / 2 && Pattern(v) < TwoTo63
    ensures v < 0 ==> Pattern(v / 2) == Pattern(v) / 2 + TwoTo63 && Pattern(v) >= TwoTo63
  {
  }

  lemma {:induction false} DoubleBits(v: Int64, i: nat)
    requires i < 64
    ensures BitOf(Wrap64(2 * v), i) == (i > 0 && BitOf(v, i - 1))
  {
    PatternOfDouble(v);
    var p := Pattern(v);
    if v >= 0 {
      BitDouble(p, i);
    } else {
      var y := p - TwoTo63;
      BitDouble(y, i);
      if i > 0 {
        Pow2At63();
        BitAddHigh(y, 63, i - 1);
      }
    }
  }

  lemma {:induction false} HalveBits(v: Int64, i: nat)
    requires i < 64
    ensures BitOf(v / 2, i) == BitOf(v, if i < 63 then i + 1 else 63)
  {
    PatternOfHalf(v);
    var p := Pattern(v);
    Pow2At63();
    if v >= 0 {
      if i == 63 {
        BitBelow(p / 2, 63);
        BitBelow(p, 63);
      }
    } else if i < 63 {
      BitAddHigh(p / 2, 63, i);
    } else {
      BitAddTop(p / 2, 63);
      BitAddTop(p - TwoTo63, 63);
    }
  }

  /** Bit i of `v << n` is bit i - n of v, and clear below n. */
  lemma {:induction false} ShiftLeftBits(v: Int64, n: nat, i: nat)
    requires i < 64
    ensures BitOf(ShiftLeft(v, n), i) == (n <= i && BitOf(v, i - n))
  {
    if n > 0 {
      DoubleBits(ShiftLeft(v, n - 1), i);
      if i > 0 {
        ShiftLeftBits(v, n - 1, i - 1);
      }
    }
  }

  /** Bit i of `v >> n` is bit i + n of v, and the sign bit fills the vacated top bits. */
  lemma {:induction false} ShiftRightBits(v: Int64, n: nat, i: nat)
    requires i < 64
    ensures BitOf(ShiftRight(v, n), i) == BitOf(v, Min(i + n, 63))
  {
    if n > 0 {
      HalveBits(ShiftRight(v, n - 1), i);
      ShiftRightBits(v, n - 1, if i < 63 then i + 1 else 63);
    }
  }

  /** An arithmetic shift keeps the sign. */
  lemma {:induction false} ShiftRightKeepsSign(v: Int64, n: nat)
    ensures ShiftRight(v, n) < 0 <==> v < 0
  {
    if n > 0 {
      ShiftRightKeepsSign(v, n - 1);
    }
  }

  lemma ModShift(y: int, k: int)
    ensures (y + TwoTo64 * k) % TwoTo64 == y % TwoTo64
  {
  }

  lemma WrapDouble(x: int)
    ensures Wrap64(2 * Wrap64(x)) == Wrap64(2 * x)
  {
    var q, r := x / TwoTo64, x % TwoTo64;
    ModShift(2 * r, 2 * q);
    assert 2 * r + TwoTo64 * (2 * q) == 2 * x;
    if r >= TwoTo63 {
      ModShift(2 * r, -1);
    }
  }

  lemma DoubleProduct(v: int, p: int)
    ensures v * (2 * p) == 2 * (v * p)
  {
  }

  /** `v << n` is v * 2^n wrapped to 64 bits. */
  lemma {:induction false} ShiftLeftIsProduct(v: Int64, n: nat)
    ensures ShiftLeft(v, n) == Wrap64(v * Pow2(n))
  {
    if n > 0 {
      ShiftLeftIsProduct(v, n - 1);
      DoubleProduct(v, Pow2(n - 1));
      WrapDouble(v * Pow2(n - 1));
    }
  }

  // ---------------------------------------------------------------------------------------
  // The object

  /** The text of the indexer's `IndexOutOfRangeException`. */
  function IndexMessage(index: int): string {
    "The supplied index of " + IntToString(index) + " is out of range"
  }

  class BitFields {
    var state: Int64

    /** A word with every flag clear. */
    constructor ()
      ensures state == 0
    {
      state := 0;
    }

    /** A word holding the given state; also the implicit conversion from `long`. */
    constructor FromState(s: Int64)
      ensures state == s
    {
      state := s;
    }

    /** The `State` setter. */
    method SetState(s: Int64)
      modifies this
      ensures state == s
    {
      state := s;
    }

    /** The indexer's getter. */
    function Get(index: int): (r: Result<bool>)
      reads this
      ensures r.Throw? <==> index < 0 || index >= Count
      ensures r.Throw? ==> r.error == IndexOutOfRangeException(IndexMessage(index))
      ensures r.Ok? && index % 32 < 31 ==> r.value == BitOf(state, index % 32)
      ensures r.Ok? && index % 32 == 31 ==> r.value == !(0 <= state < TwoTo31)
    {
      if index < 0 || index >= Count then
        Throw(IndexOutOfRangeException(IndexMessage(index)))
      else if index % 32 < 31 then
        ReadsLowBit(state, index);
        Ok(Reads(state, index))
      else
        ReadsTopBits(state, index);
        Ok(Reads(state, index))
    }

    /** The indexer's setter: the assigned value is not consulted, the mask is toggled. */
    method Set(index: int, value: bool) returns (r: Outcome)
      modifies this
      ensures r.Fail? <==> index < 0 || index >= Count
      ensures r.Fail? ==> r.error == IndexOutOfRangeException(IndexMessage(index)) && state == old(state)
      ensures r.Pass? ==> state == Xor(old(state), Mask(index))
      ensures r.Pass? ==> forall i :: 0 <= i < 64 ==> BitOf(state, i) == (BitOf(old(state), i) != MaskCovers(index, i))
    {
      if index < 0 || index >= Count {
        return Fail(IndexOutOfRangeException(IndexMessage(index)));
      }
      forall i | 0 <= i < 64 {
        ToggleBits(state, index, i);
      }
      state := Xor(state, Mask(index));
      return Pass;
    }

    /** `And(BitFields)`: the bitwise AND of the two states. */
    function AndWith(value: BitFields): (r: Int64)
      reads this, value
      ensures forall i :: 0 <= i < 64 ==> BitOf(r, i) == (BitOf(state, i) && BitOf(value.state, i))
    {
      AndAll(state, value.state);
      And(state, value.state)
    }

    /** `Or(BitFields)`. */
    function OrWith(value: BitFields): (r: Int64)
      reads this, value
      ensures forall i :: 0 <= i < 64 ==> BitOf(r, i) == (BitOf(state, i) || BitOf(value.state, i))
    {
      OrAll(state, value.state);
      Or(state, value.state)
    }

    /** `Xor(BitFields)`. */
    function XorWith(value: BitFields): (r: Int64)
      reads this, value
      ensures forall i :: 0 <= i < 64 ==> BitOf(r, i) == (BitOf(state, i) != BitOf(value.state, i))
    {
      XorAll(state, value.state);
      Xor(state, value.state)
    }

    /** `Not()`: the state with every bit inverted. */
    function Inverted(): (r: Int64)
      reads this
      ensures forall i :: 0 <= i < 64 ==> BitOf(r, i) == !BitOf(state, i)
    {
      NotAll(state);
      Not(state)
    }

    /** The shift-left operator: the state's bits move up by the shift count. */
    function ShiftedLeft(amount: int): (r: Int64)
      reads this
      ensures forall i :: 0 <= i < 64 ==> BitOf(r, i) == (ShiftCount(amount) <= i && BitOf(state, i - ShiftCount(amount)))
    {
      var n := ShiftCount(amount);
      assert forall i :: 0 <= i < 64 ==> BitOf(ShiftLeft(state, n), i) == (n <= i && BitOf(state, i - n)) by {
        forall i | 0 <= i < 64 {
          ShiftLeftBits(state, n, i);
        }
      }
      ShiftLeft(state, n)
    }

    /** The shift-right operator: the state's bits move down, filled with the sign. */
    function ShiftedRight(amount: int): (r: Int64)
      reads this
      ensures forall i :: 0 <= i < 64 ==> BitOf(r, i) == BitOf(state, Min(i + ShiftCount(amount), 63))
    {
      var n := ShiftCount(amount);
      assert forall i :: 0 <= i < 64 ==> BitOf(ShiftRight(state, n), i) == BitOf(state, Min(i + n, 63)) by {
        forall i | 0 <= i < 64 {
          ShiftRightBits(state, n, i);
        }
      }
      ShiftRight(state, n)
    }
  }

  /** Two assignments to the same index give back the state before them. */
  method SetTwiceRestores(bits: BitFields, index: int, first: bool, second: bool)
    modifies bits
    ensures bits.state == old(bits.state)
  {
    var s := bits.state;
    var r1 := bits.Set(index, first);
    var r2 := bits.Set(index, second);
    if 0 <= index < Count {
      XorTwice(s, Mask(index));
    }
  }

  /** The two implicit conversions are mutually inverse. */
  method ConversionsRoundTrip(v: Int64) returns (r: Int64)
    ensures r == v
  {
    var bits := new BitFields.FromState(v);
    r := bits.state;
  }

  // ---------------------------------------------------------------------------------------
  // Concrete values

  lemma CountIsWidth()
    ensures Count == 64
  {
  }

  lemma AndExample()
    ensures And(3, 2) == 2
  {
    assert AndBits(3, 2, 64) == 2 * AndBits(1, 1, 63);
    assert AndBits(1, 1, 63) == 2 * AndBits(0, 0, 62) + 1;
    ZeroBits(62);
  }

  lemma OrExample()
    ensures Or(3, 2) == 3
  {
    assert OrBits(3, 2, 64) == 2 * OrBits(1, 1, 63) + 1;
    assert OrBits(1, 1, 63) == 2 * OrBits(0, 0, 62) + 1;
    ZeroBits(62);
  }

  lemma XorExample()
    ensures Xor(3, 2) == 1
  {
    assert XorBits(3, 2, 64) == 2 * XorBits(1, 1, 63) + 1;
    assert XorBits(1, 1, 63) == 2 * XorBits(0, 0, 62);
    ZeroBits(62);
  }

  lemma NotExample()
    ensures Not(3) == -4
  {
  }

  lemma ShiftExamples()
    ensures ShiftLeft(1, ShiftCount(3)) == 8 && ShiftRight(1, ShiftCount(3)) == 0
  {
    assert ShiftCount(3) == 3;
    assert ShiftLeft(1, 1) == Wrap64(2) == 2;
    assert ShiftLeft(1, 2) == Wrap64(4) == 4;
    assert ShiftLeft(1, 3) == Wrap64(8) == 8;
    assert ShiftRight(1, 1) == 0;
    assert ShiftRight(1, 2) == 0;
    assert ShiftRight(1, 3) == 0;
  }

  lemma MaskOfTwo()
    ensures Mask(2) == 4
  {
    assert 2 % 32 == 2;
  }

  lemma BitTwoOfFour()
    ensures BitOf(4, 2)
  {
    assert Pattern(4) == 4;
  }

  /** Assigning true to index 2 of a clear word gives 4, and index 2 then reads set. */
  method IndexerExample() returns (s: Int64, read: Result<bool>)
    ensures s == 4 && read == Ok(true)
  {
    var bits := new BitFields();
    MaskOfTwo();
    XorZero(4);
    var _ := bits.Set(2, true);
    s := bits.state;
    BitTwoOfFour();
    read := bits.Get(2);
  }

  /** Indices just outside the word throw. */
  lemma OutOfRangeExamples(bits: BitFields)
    ensures bits.Get(-1).Throw? && bits.Get(64).Throw?
  {
  }

  // ---------------------------------------------------------------------------------------
  // What the indexer evidently means: assign bit `index` of the `long`, and read it back

  /** Assigning false to index 2 of a clear word sets bit 2: the assigned value is ignored. */
  method SetIgnoresValue() returns (s: Int64, read: Result<bool>)
    ensures s == 4 && read == Ok(true)
  {
    var bits := new BitFields();
    MaskOfTwo();
    XorZero(4);
    var _ := bits.Set(2, false);
    s := bits.state;
    BitTwoOfFour();
    read := bits.Get(2);
  }

  lemma MaskOfForty()
    ensures Mask(40) == 256
  {
    assert 40 % 32 == 8;
  }

  lemma BitEightOf256()
    ensures BitOf(256, 8)
  {
    assert Pattern(256) == 256;
  }

  /** Assigning index 40 of a clear word sets bit 8, and index 8 then reads set. */
  method HighIndexSetsLowBit() returns (s: Int64, read: Result<bool>)
    ensures s == 256 && read == Ok(true)
  {
    var bits := new BitFields();
    MaskOfForty();
    XorZero(256);
    var _ := bits.Set(40, true);
    s := bits.state;
    BitEightOf256();
    read := bits.Get(8);
  }

  /** Assigning index 31 of a clear word sets all of bits 31 .. 63. */
  method TopIndexSetsUpperHalf() returns (s: Int64)
    ensures s == -TwoTo31
  {
    var bits := new BitFields();
    MaskAt31(31);
    XorZero(-TwoTo31);
    var _ := bits.Set(31, true);
    s := bits.state;
  }

  /** The corrected mask, a 64-bit shift: the `long` with only bit k set. */
  function Single(k: nat): (r: Int64)
    requires k < 64
    ensures forall i :: 0 <= i < 64 ==> BitOf(r, i) == (i == k)
  {
    Pow2Monotone(k, 63);
    Pow2At63();
    var x: Word := Pow2(k);
    PatternRoundTrip(0, x);
    assert forall i :: 0 <= i < 64 ==> Bit(x, i) == (i == k) by {
      forall i | 0 <= i < 64 {
        BitOfPow2(k, i);
      }
    }
    FromPattern(x)
  }

  /** Bit k of s, read through the corrected 64-bit mask. */
  function ReadAt(s: Int64, k: nat): (b: bool)
    requires k < 64
    ensures b == BitOf(s, k)
  {
    ReadsBit(s, k);
    And(Single(k), s) != 0
  }

  lemma {:induction false} ReadsBit(s: Int64, k: nat)
    requires k < 64
    ensures (And(Single(k), s) != 0) == BitOf(s, k)
  {
    var r := And(Single(k), s);
    forall i | 0 <= i < 64
      ensures BitOf(r, i) == (i == k && BitOf(s, i))
    {
      AndIsBitwise(Single(k), s, i);
    }
    Pow2At64();
    NonZeroHasBit(Pattern(r), 64);
    if r == 0 {
      BitBelow(0, k);
      assert !BitOf(r, k);
    } else {
      var i :| 0 <= i < 64 && Bit(Pattern(r), i);
      assert BitOf(r, i);
    }
  }

  /** Set bit k of s to value: OR in the corrected mask, or AND with its complement. */
  function AssignAt(s: Int64, k: nat, value: bool): (r: Int64)
    requires k < 64
    ensures forall i :: 0 <= i < 64 ==> BitOf(r, i) == (if i == k then value else BitOf(s, i))
  {
    if value then
      OrAll(s, Single(k));
      Or(s, Single(k))
    else
      NotAll(Single(k));
      AndAll(s, Not(Single(k)));
      And(s, Not(Single(k)))
  }

  /** The corrected indexer setter: the same range check, then bit `index` becomes `value`. */
  function Assign(s: Int64, index: int, value: bool): (r: Result<Int64>)
    ensures r.Throw? <==> index < 0 || index >= Count
    ensures r.Throw? ==> r.error == IndexOutOfRangeException(IndexMessage(index))
    ensures r.Ok? ==> forall i :: 0 <= i < 64 ==> BitOf(r.value, i) == (if i == index then value else BitOf(s, i))
  {
    if index < 0 || index >= Count then Throw(IndexOutOfRangeException(IndexMessage(index)))
    else Ok(AssignAt(s, index, value))
  }

  /** After the corrected assignment, the corrected read of the same index gives the
      assigned value, and every other index reads as before. */
  lemma AssignReadsBack(s: Int64, index: int, value: bool, other: int)
    requires 0 <= index < 64 && 0 <= other < 64
    ensures Assign(s, index, value).Ok?
    ensures ReadAt(Assign(s, index, value).value, index) == value
    ensures other != index ==> ReadAt(Assign(s, index, value).value, other) == ReadAt(s, other)
  {
  }

  /** Assigning the value a bit already has changes nothing, and assigning twice is the
      same as assigning once. */
  lemma {:induction false} AssignIdempotent(s: Int64, index: int, value: bool)
    requires 0 <= index < 64
    ensures Assign(Assign(s, index, value).value, index, value) == Assign(s, index, value)
    ensures ReadAt(s, index) == value ==> Assign(s, index, value) == Ok(s)
  {
    var t := Assign(s, index, value).value;
    BitsDetermineLong(Assign(t, index, value).value, t);
    if ReadAt(s, index) == value {
      BitsDetermineLong(t, s);
    }
  }
}
