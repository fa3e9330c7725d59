/**
  Bytes and the fixed-width integers of the stream classes.

  A C# `v >> 8n` on a signed integer is arithmetic: it divides by 2^(8n) rounding down,
  which is n divisions by 256 with Dafny's `/` (rounding down for a positive divisor).
  `0xff & x` keeps the low byte of the two's-complement pattern, which is `x % 256`.
*/
module Bytes {
  import opened Words

  type byte = x: int | 0 <= x < 256

  const TwoTo15: int := 0x8000
  const TwoTo16: int := 0x1_0000

  /** A C# `short`. */
  type Int16 = v: int | -TwoTo15 <= v < TwoTo15

  /** A C# `int`. */
  type Int32 = v: int | -TwoTo31 <= v < TwoTo31

  /** A C# `ushort`, and also a C# `char` (one UTF-16 code unit). */
  type UInt16 = v: int | 0 <= v < TwoTo16

  /** x shifted right by n bytes, arithmetically. */
  function ShiftBytes(x: int, n: nat): int
    decreases n
  {
    if n == 0 then x else ShiftBytes(x / 256, n - 1)
  }

  /** Byte n of x, counting from the least significant: the low eight bits after the shift. */
  function ByteAt(x: int, n: nat): byte {
    ShiftBytes(x, n) % 256
  }

  function Pow256(n: nat): nat {
    if n == 0 then 1 else 256 * Pow256(n - 1)
  }

  /** The n low bytes of x, most significant first. */
  function BigEndian(x: int, n: nat): (bs: seq<byte>)
    ensures |bs| == n
    decreases n
  {
    if n == 0 then [] else BigEndian(x / 256, n - 1) + [x % 256]
  }

  /** The n low bytes of x, least significant first. */
  function LittleEndian(x: int, n: nat): (bs: seq<byte>)
    ensures |bs| == n
    decreases n
  {
    if n == 0 then [] else [x % 256] + LittleEndian(x / 256, n - 1)
  }

  /** The number a big-endian byte sequence denotes. */
  function Unsigned(bs: seq<byte>): nat {
    if |bs| == 0 then 0 else Unsigned(bs[..|bs| - 1]) * 256 + bs[|bs| - 1]
  }

  lemma {:induction false} UnsignedBound(bs: seq<byte>)
    ensures Unsigned(bs) < Pow256(|bs|)
  {
    if |bs| > 0 {
      UnsignedBound(bs[..|bs| - 1]);
    }
  }

  /** Byte k of the big-endian form is byte n - 1 - k of x, counting from the least
      significant. */
  lemma {:induction false} BigEndianBytes(x: int, n: nat, k: nat)
    requires k < n
    ensures BigEndian(x, n)[k] == ByteAt(x, n - 1 - k)
    decreases n
  {
    if k < n - 1 {
      BigEndianBytes(x / 256, n - 1, k);
    }
  }

  /** Byte k of the little-endian form is byte k of x, counting from the least significant. */
  lemma {:induction false} LittleEndianBytes(x: int, n: nat, k: nat)
    requires k < n
    ensures LittleEndian(x, n)[k] == ByteAt(x, k)
    decreases n
  {
    if k > 0 {
      LittleEndianBytes(x / 256, n - 1, k - 1);
    }
  }

  /** The two bytes `WriteShort` and `WriteChar` fill in. */
  lemma BigEndianTwo(x: int)
    ensures BigEndian(x, 2) == [ByteAt(x, 1), ByteAt(x, 0)]
  {
    BigEndianBytes(x, 2, 0);
    BigEndianBytes(x, 2, 1);
  }

  /** The four bytes `WriteInt` fills in. */
  lemma BigEndianFour(x: int)
    ensures BigEndian(x, 4) == [ByteAt(x, 3), ByteAt(x, 2), ByteAt(x, 1), ByteAt(x, 0)]
  {
    forall k | 0 <= k < 4
      ensures BigEndian(x, 4)[k] == ByteAt(x, 3 - k)
    {
      BigEndianBytes(x, 4, k);
    }
  }

  /** The eight bytes `WriteLong` fills in. */
  lemma BigEndianEight(x: int)
    ensures BigEndian(x, 8) == [ByteAt(x, 7), ByteAt(x, 6), ByteAt(x, 5), ByteAt(x, 4),
                                ByteAt(x, 3), ByteAt(x, 2), ByteAt(x, 1), ByteAt(x, 0)]
  {
    forall k | 0 <= k < 8
      ensures BigEndian(x, 8)[k] == ByteAt(x, 7 - k)
    {
      BigEndianBytes(x, 8, k);
    }
  }

  /** The little-endian form is the big-endian form reversed. */
  lemma LittleEndianReversed(x: int, n: nat, k: nat)
    requires k < n
    ensures LittleEndian(x, n)[k] == BigEndian(x, n)[n - 1 - k]
  {
    LittleEndianBytes(x, n, k);
    BigEndianBytes(x, n, n - 1 - k);
  }

  /** The n low bytes of x and the rest of x make up x. */
  lemma {:induction false} BigEndianValue(x: int, n: nat)
    ensures x == Unsigned(BigEndian(x, n)) + Pow256(n) * ShiftBytes(x, n)
    decreases n
  {
    if n > 0 {
      var front := BigEndian(x / 256, n - 1);
      BigEndianValue(x / 256, n - 1);
      assert (front + [x % 256])[..n - 1] == front;
      Scale(Pow256(n - 1), ShiftBytes(x / 256, n - 1));
    }
  }

  lemma Scale(a: int, b: int)
    ensures (256 * a) * b == 256 * (a * b)
  {
  }

  /** Encoding what a byte sequence denotes gives the sequence back. */
  lemma {:induction false} UnsignedInverse(bs: seq<byte>)
    ensures BigEndian(Unsigned(bs), |bs|) == bs
  {
    if |bs| > 0 {
      var front := bs[..|bs| - 1];
      UnsignedInverse(front);
      assert Unsigned(bs) / 256 == Unsigned(front);
      assert bs == front + [bs[|bs| - 1]];
    }
  }

  /** The low 16 bits read as a `short`: the `(short)` cast. */
  function Signed16(x: int): Int16 {
    var p := x % TwoTo16;
    if p >= TwoTo15 then p - TwoTo16 else p
  }

  /** The low 32 bits read as an `int`. */
  function Signed32(x: int): Int32 {
    var p := x % TwoTo32;
    if p >= TwoTo31 then p - TwoTo32 else p
  }

  /** The low 64 bits read as a `long`. */
  function Signed64(x: int): Int64 {
    FromPattern(x % TwoTo64)
  }

  lemma Pow256Widths()
    ensures Pow256(2) == TwoTo16 && Pow256(4) == TwoTo32 && Pow256(8) == TwoTo64
  {
  }

  /** A number and its n low bytes, as the unsigned u and the rest s. */
  lemma LowBytes(v: int, n: nat) returns (u: nat, s: int)
    ensures u == Unsigned(BigEndian(v, n)) && u < Pow256(n) && v == u + Pow256(n) * s
  {
    BigEndianValue(v, n);
    UnsignedBound(BigEndian(v, n));
    u, s := Unsigned(BigEndian(v, n)), ShiftBytes(v, n);
  }

  /** Two bytes give back a number's 16 low bits. */
  lemma TwoBytes(v: int)
    ensures Unsigned(BigEndian(v, 2)) == v % TwoTo16
  {
    Pow256Widths();
    var u, s := LowBytes(v, 2);
    assert v == u + TwoTo16 * s;
  }

  /** Four bytes give back an `int`. */
  lemma FourBytes(v: Int32)
    ensures Signed32(Unsigned(BigEndian(v, 4))) == v
  {
    Pow256Widths();
    var u, s := LowBytes(v, 4);
    assert v == u + TwoTo32 * s;
    assert s == 0 || s == -1;
    assert u % TwoTo32 == u;
  }

  /** Eight bytes give back a `long`. */
  lemma EightBytes(v: Int64)
    ensures Signed64(Unsigned(BigEndian(v, 8))) == v
  {
    Pow256Widths();
    var u, s := LowBytes(v, 8);
    assert v == u + TwoTo64 * s;
    assert s == 0 || s == -1;
    assert u % TwoTo64 == u;
  }

  /** A `short` is the signed reading of the same 16 bits as a `ushort`. */
  lemma Signed16OfUnsigned(u: UInt16)
    ensures Signed16(u) == if u < TwoTo15 then u else u - TwoTo16
    ensures Signed16(u) % TwoTo16 == u
  {
  }
}
