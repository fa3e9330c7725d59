/**
  `DataInputStream`: Java-style big-endian reads over a `BinaryReader`. The underlying
  stream is a fixed byte sequence with a position; `Seek` may move the position past the end,
  and a read there finds no bytes.

  `BinaryReader.ReadBytes(n)` returns fewer than n bytes at the end of the stream, and the
  fixed-width reads then index past the end of the short array, which throws
  `IndexOutOfRangeException` after the position has already moved.
*/
module DataInput {
  import opened Words
  import opened Bytes
  import opened Utf8
  import opened Exceptions

  const IndexMessage: string := "Index was outside the bounds of the array."
  const NonNegativeMessage: string := "Non-negative number required."
  const RangeMessage: string :=
    "Offset and length were out of bounds for the array or count is greater than the number of elements from index to the end of the source collection."

  function Min(a: int, b: int): int {
    if a < b then a else b
  }

  /** The bytes a read of `count` bytes at `position` finds: what is left, up to `count`. */
  function Available(data: seq<byte>, position: nat, count: nat): (b: seq<byte>)
    ensures |b| <= count
    ensures position + |b| <= |data| || b == []
    ensures b == [] || b == data[position..position + |b|]
    ensures |b| == count || position + |b| >= |data|
  {
    if position >= |data| then [] else data[position..position + Min(count, |data| - position)]
  }

  // The values the reads assemble from their bytes; each `|` of disjoint shifted bytes is
  // their sum.

  /** The two bytes as a big-endian 16-bit code unit. */
  function CharValue(b: seq<byte>): UInt16
    requires |b| == 2
  {
    b[0] as int * 0x100 + b[1]
  }

  /** The two bytes as a big-endian unsigned 16-bit number. */
  function UnsignedShortValue(b: seq<byte>): UInt16
    requires |b| == 2
  {
    b[0] as int * 0x100 + b[1]
  }

  /** The two bytes as a big-endian 16-bit number, reinterpreted as signed. */
  function ShortValue(b: seq<byte>): Int16
    requires |b| == 2
  {
    Signed16(b[0] as int * 0x100 + b[1])
  }

  /** The four bytes as a big-endian 32-bit number, reinterpreted as signed, because the
      shifts are done on `int` and wrap. */
  function IntValue(b: seq<byte>): Int32
    requires |b| == 4
  {
    Signed32(b[0] as int * 0x100_0000 + b[1] as int * 0x1_0000 + b[2] as int * 0x100 + b[3])
  }

  /** The eight bytes as a big-endian 64-bit number, reinterpreted as signed. */
  function LongValue(b: seq<byte>): Int64
    requires |b| == 8
  {
    Signed64(b[0] as int * 0x100_0000_0000_0000 + b[1] as int * 0x1_0000_0000_0000 + b[2] as int * 0x100_0000_0000
      + b[3] as int * 0x1_0000_0000 + b[4] as int * 0x100_0000 + b[5] as int * 0x1_0000 + b[6] as int * 0x100 + b[7])
  }

  class DataInputStream {
    /** The bytes of the underlying stream. */
    const data: seq<byte>
    /** The stream's position. */
    var position: nat

    constructor (data: seq<byte>)
      ensures this.data == data && position == 0
    {
      this.data := data;
      position := 0;
    }

    /** `BinaryReader.ReadBytes(count)`: what is left, up to `count`. */
    method ReadBytes(count: nat) returns (b: seq<byte>)
      modifies this
      ensures b == Available(data, old(position), count)
      ensures position == old(position) + |b|
    {
      b := Available(data, position, count);
      position := position + |b|;
    }

    /** `ReadByte`: `BinaryReader.ReadByte` throws at the end of the stream. */
    method ReadByte() returns (r: Result<byte>)
      modifies this
      ensures r.Throw? <==> old(position) >= |data|
      ensures r.Throw? ==> r.error == EndOfStreamException && position == old(position)
      ensures r.Ok? ==> r.value == data[old(position)] && position == old(position) + 1
    {
      if position >= |data| {
        return Throw(EndOfStreamException);
      }
      r := Ok(data[position]);
      position := position + 1;
    }

    /** `ReadUnsignedByte` calls `ReadByte`. */
    method ReadUnsignedByte() returns (r: Result<byte>)
      modifies this
      ensures r.Throw? <==> old(position) >= |data|
      ensures r.Throw? ==> r.error == EndOfStreamException && position == old(position)
      ensures r.Ok? ==> r.value == data[old(position)] && position == old(position) + 1
    {
      r := ReadByte();
    }

    /** `ReadBoolean`: `Convert.ToBoolean` of one byte is true for any non-zero byte. */
    method ReadBoolean() returns (r: Result<bool>)
      modifies this
      ensures r.Throw? <==> old(position) >= |data|
      ensures r.Throw? ==> r.error == EndOfStreamException && position == old(position)
      ensures r.Ok? ==> r.value == (data[old(position)] != 0) && position == old(position) + 1
    {
      var b := ReadByte();
      match b
      case Throw(e) => return Throw(e);
      case Ok(v) => return Ok(v != 0);
    }

    /** `ReadChar`. */
    method ReadChar() returns (r: Result<UInt16>)
      modifies this
      ensures position == old(position) + |Available(data, old(position), 2)|
      ensures r.Throw? <==> old(position) + 2 > |data|
      ensures r.Throw? ==> r.error == IndexOutOfRangeException(IndexMessage)
      ensures r.Ok? ==> r.value == CharValue(data[old(position)..old(position) + 2])
    {
      var b := ReadBytes(2);
      if |b| < 2 {
        return Throw(IndexOutOfRangeException(IndexMessage));
      }
      return Ok(CharValue(b));
    }

    /** `ReadShort`. */
    method ReadShort() returns (r: Result<Int16>)
      modifies this
      ensures position == old(position) + |Available(data, old(position), 2)|
      ensures r.Throw? <==> old(position) + 2 > |data|
      ensures r.Throw? ==> r.error == IndexOutOfRangeException(IndexMessage)
      ensures r.Ok? ==> r.value == ShortValue(data[old(position)..old(position) + 2])
    {
      var b := ReadBytes(2);
      if |b| < 2 {
        return Throw(IndexOutOfRangeException(IndexMessage));
      }
      return Ok(ShortValue(b));
    }

    /** `ReadUnsignedShort`. */
    method ReadUnsignedShort() returns (r: Result<UInt16>)
      modifies this
      ensures position == old(position) + |Available(data, old(position), 2)|
      ensures r.Throw? <==> old(position) + 2 > |data|
      ensures r.Throw? ==> r.error == IndexOutOfRangeException(IndexMessage)
      ensures r.Ok? ==> r.value == UnsignedShortValue(data[old(position)..old(position) + 2])
    {
      var b := ReadBytes(2);
      if |b| < 2 {
        return Throw(IndexOutOfRangeException(IndexMessage));
      }
      return Ok(UnsignedShortValue(b));
    }

    /** `ReadInt`. */
    method ReadInt() returns (r: Result<Int32>)
      modifies this
      ensures position == old(position) + |Available(data, old(position), 4)|
      ensures r.Throw? <==> old(position) + 4 > |data|
      ensures r.Throw? ==> r.error == IndexOutOfRangeException(IndexMessage)
      ensures r.Ok? ==> r.value == IntValue(data[old(position)..old(position) + 4])
    {
      var b := ReadBytes(4);
      if |b| < 4 {
        return Throw(IndexOutOfRangeException(IndexMessage));
      }
      return Ok(IntValue(b));
    }

    /** `ReadLong`. */
    method ReadLong() returns (r: Result<Int64>)
      modifies this
      ensures position == old(position) + |Available(data, old(position), 8)|
      ensures r.Throw? <==> old(position) + 8 > |data|
      ensures r.Throw? ==> r.error == IndexOutOfRangeException(IndexMessage)
      ensures r.Ok? ==> r.value == LongValue(data[old(position)..old(position) + 8])
    {
      var b := ReadBytes(8);
      if |b| < 8 {
        return Throw(IndexOutOfRangeException(IndexMessage));
      }
      return Ok(LongValue(b));
    }

    /** `ReadUtf`: an unsigned-short length n, then up to n bytes decoded as UTF-8. */
    method ReadUtf() returns (r: Result<string>)
      modifies this
      ensures old(position) + 2 > |data| ==>
        r == Throw(IndexOutOfRangeException(IndexMessage)) && position == old(position) + |Available(data, old(position), 2)|
      ensures old(position) + 2 <= |data| ==>
        var n := UnsignedShortValue(data[old(position)..old(position) + 2]);
        var payload := Available(data, old(position) + 2, n);
        r == Ok(Decode(payload)) && position == old(position) + 2 + |payload|
    {
      var n := ReadUnsignedShort();
      if n.Throw? {
        return Throw(n.error);
      }
      var b := ReadBytes(n.value);
      return Ok(Decode(b));
    }

    /** `ReadLine` calls `ReadUtf`. */
    method ReadLine() returns (r: Result<string>)
      modifies this
      ensures old(position) + 2 > |data| ==>
        r == Throw(IndexOutOfRangeException(IndexMessage)) && position == old(position) + |Available(data, old(position), 2)|
      ensures old(position) + 2 <= |data| ==>
        var n := UnsignedShortValue(data[old(position)..old(position) + 2]);
        var payload := Available(data, old(position) + 2, n);
        r == Ok(Decode(payload)) && position == old(position) + 2 + |payload|
    {
      r := ReadUtf();
    }

    /** `SkipBytes(n)`: `Seek(n, SeekOrigin.Current)` returns the new position, and refuses
        a position before the start. */
    method SkipBytes(n: int) returns (r: Result<int>)
      modifies this
      ensures r.Throw? <==> old(position) + n < 0
      ensures r.Throw? ==> r.error == IOException && position == old(position)
      ensures r.Ok? ==> r.value == position == old(position) + n
    {
      if position + n < 0 {
        return Throw(IOException);
      }
      position := position + n;
      return Ok(position);
    }

    /** `ReadFully(b)`: `BinaryReader.Read(b, 0, b.Length)` fills the front of b with what
        is left, up to its length. */
    method ReadFully(b: array<byte>)
      modifies this, b
      ensures var got := Available(data, old(position), b.Length);
        b[..|got|] == got && b[|got|..] == old(b[|got|..]) && position == old(position) + |got|
    {
      var got := Fill(b, 0, b.Length);
    }

    /** `ReadFully(b, off, len)`, after the argument checks of `BinaryReader.Read`. */
    method ReadFullyRange(b: array<byte>, off: int, len: int) returns (r: Outcome)
      modifies this, b
      ensures r.Fail? <==> off < 0 || len < 0 || b.Length - off < len
      ensures off < 0 || len < 0 ==> r == Fail(ArgumentException(NonNegativeMessage))
      ensures r.Fail? ==> position == old(position) && b[..] == old(b[..])
      ensures r.Pass? ==> var got := Available(data, old(position), len);
        b[off..off + |got|] == got && b[..off] == old(b[..off]) && b[off + |got|..] == old(b[off + |got|..])
        && position == old(position) + |got|
    {
      if off < 0 || len < 0 {
        return Fail(ArgumentException(NonNegativeMessage));
      }
      if b.Length - off < len {
        return Fail(ArgumentException(RangeMessage));
      }
      var got := Fill(b, off, len);
      return Pass;
    }

    /** Copies what is left, up to `len` bytes, into b from `off`. */
    method Fill(b: array<byte>, off: nat, len: nat) returns (got: seq<byte>)
      requires off + len <= b.Length
      modifies this, b
      ensures got == Available(data, old(position), len)
      ensures b[off..off + |got|] == got && b[..off] == old(b[..off]) && b[off + |got|..] == old(b[off + |got|..])
      ensures position == old(position) + |got|
    {
      got := Available(data, position, len);
      var i := 0;
      while i < |got|
        invariant 0 <= i <= |got|
        invariant b[off..off + i] == got[..i]
        invariant b[..off] == old(b[..off]) && b[off + |got|..] == old(b[off + |got|..])
        invariant position == old(position)
      {
        b[off + i] := got[i];
        i := i + 1;
      }
      position := position + |got|;
    }
  }

  // The reads undo the writes: each lemma connects a reader's value function to the bytes
  // the matching writer appends.

  lemma CharAfterWriteChar(v: Int32)
    ensures CharValue(BigEndian(v, 2)) == v % TwoTo16
  {
    TwoBytes(v);
    UnsignedOfTwo(BigEndian(v, 2));
  }

  lemma UnsignedShortAfterWriteShort(v: Int32)
    ensures UnsignedShortValue(BigEndian(v, 2)) == v % TwoTo16
  {
    TwoBytes(v);
    UnsignedOfTwo(BigEndian(v, 2));
  }

  lemma ShortAfterWriteShort(v: Int32)
    ensures ShortValue(BigEndian(v, 2)) == Signed16(v)
  {
    var b := BigEndian(v, 2);
    var u := UnsignedShortValue(b);
    UnsignedShortAfterWriteShort(v);
    assert ShortValue(b) == Signed16(u);
    Signed16OfLow(v);
  }

  lemma Signed16OfLow(v: int)
    ensures Signed16(v % TwoTo16) == Signed16(v)
  {
    var u := v % TwoTo16;
    assert 0 <= u < TwoTo16;
    assert u % TwoTo16 == u;
  }

  /** `ReadShort` and `ReadUnsignedShort` read the same 16 bits, signed and unsigned. */
  lemma ShortIsSignedUnsignedShort(b: seq<byte>)
    requires |b| == 2
    ensures ShortValue(b) == Signed16(UnsignedShortValue(b))
    ensures ShortValue(b) % TwoTo16 == UnsignedShortValue(b)
  {
    Signed16OfUnsigned(UnsignedShortValue(b));
  }

  lemma UnsignedPrefix(b: seq<byte>, k: nat)
    requires 0 < k <= |b|
    ensures Unsigned(b[..k]) == Unsigned(b[..k - 1]) * 256 + b[k - 1]
  {
    assert b[..k][..k - 1] == b[..k - 1];
  }

  lemma UnsignedOfTwo(b: seq<byte>)
    requires |b| == 2
    ensures Unsigned(b) == b[0] as int * 0x100 + b[1]
  {
    assert b[..0] == [] && b[..2] == b;
    UnsignedPrefix(b, 1);
    UnsignedPrefix(b, 2);
  }

  lemma UnsignedOfFour(b: seq<byte>)
    requires |b| == 4
    ensures Unsigned(b) == b[0] as int * 0x100_0000 + b[1] as int * 0x1_0000 + b[2] as int * 0x100 + b[3]
  {
    assert b[..0] == [] && b[..4] == b;
    UnsignedPrefix(b, 1);
    UnsignedPrefix(b, 2);
    UnsignedPrefix(b, 3);
    UnsignedPrefix(b, 4);
  }

  lemma UnsignedOfEight(b: seq<byte>)
    requires |b| == 8
    ensures Unsigned(b) == b[0] as int * 0x100_0000_0000_0000 + b[1] as int * 0x1_0000_0000_0000 + b[2] as int * 0x100_0000_0000
      + b[3] as int * 0x1_0000_0000 + b[4] as int * 0x100_0000 + b[5] as int * 0x1_0000 + b[6] as int * 0x100 + b[7]
  {
    assert b[..0] == [] && b[..8] == b;
    UnsignedPrefix(b, 1);
    UnsignedPrefix(b, 2);
    UnsignedPrefix(b, 3);
    UnsignedPrefix(b, 4);
    UnsignedPrefix(b, 5);
    UnsignedPrefix(b, 6);
    UnsignedPrefix(b, 7);
    UnsignedPrefix(b, 8);
  }

  lemma IntAfterWriteInt(v: Int32)
    ensures IntValue(BigEndian(v, 4)) == v
  {
    FourBytes(v);
    UnsignedOfFour(BigEndian(v, 4));
  }

  lemma LongAfterWriteLong(v: Int64)
    ensures LongValue(BigEndian(v, 8)) == v
  {
    EightBytes(v);
    UnsignedOfEight(BigEndian(v, 8));
  }
}
