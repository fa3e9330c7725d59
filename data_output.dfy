/**
  `DataOutputStream`: Java-style big-endian writes over a `BinaryWriter`. The underlying
  stream is the sequence of bytes written so far; every write appends to it.
*/
module DataOutput {
  import opened Wrappers
  import opened Words
  import opened Bytes
  import opened Utf8
  import opened Exceptions

  const NonNegativeMessage: string := "Non-negative number required."
  const RangeMessage: string :=
    "Offset and length were out of bounds for the array or count is greater than the number of elements from index to the end of the source collection."

  class DataOutputStream {
    /** The bytes of the underlying stream, in the order they were written. */
    var written: seq<byte>

    constructor ()
      ensures written == []
    {
      written := [];
    }

    /** `Write(byte[])`: the whole buffer. */
    method Write(b: array<byte>)
      modifies this
      ensures written == old(written) + b[..]
    {
      written := written + b[..];
    }

    /** `Write(byte[], int, int)`: `len` bytes of the buffer from `off`, after the argument
        checks of `BinaryWriter.Write`. */
    method WriteRange(b: array<byte>, off: int, len: int) returns (r: Outcome)
      modifies this
      ensures r.Fail? <==> off < 0 || len < 0 || b.Length - off < len
      ensures off < 0 || len < 0 ==> r == Fail(ArgumentException(NonNegativeMessage))
      ensures r.Fail? ==> written == old(written)
      ensures r.Pass? ==> written == old(written) + b[off..off + len]
    {
      if off < 0 || len < 0 {
        return Fail(ArgumentException(NonNegativeMessage));
      }
      if b.Length - off < len {
        return Fail(ArgumentException(RangeMessage));
      }
      written := written + b[off..off + len];
      return Pass;
    }

    /** `Write(int)`: `BinaryWriter.Write(int)` writes the four bytes least significant first. */
    method WriteInt32(v: Int32)
      modifies this
      ensures written == old(written) + LittleEndian(v, 4)
    {
      written := written + LittleEndian(v, 4);
    }

    /** `WriteBoolean`: `Convert.ToByte(v)` is 1 or 0. */
    method WriteBoolean(v: bool)
      modifies this
      ensures written == old(written) + [if v then 1 else 0]
    {
      written := written + [if v then 1 else 0];
    }

    /** `WriteByte` calls `Write(int)`, so it appends four bytes, not one. */
    method WriteByte(v: Int32)
      modifies this
      ensures written == old(written) + LittleEndian(v, 4)
    {
      WriteInt32(v);
    }

    /** `WriteShort`: the low two bytes, most significant first. */
    method WriteShort(v: Int32)
      modifies this
      ensures written == old(written) + BigEndian(v, 2)
    {
      var b := new byte[2];
      b[0] := ByteAt(v, 1);
      b[1] := ByteAt(v, 0);
      BigEndianTwo(v);
      Write(b);
    }

    /** `WriteChar`: the same two bytes as `WriteShort`. */
    method WriteChar(v: Int32)
      modifies this
      ensures written == old(written) + BigEndian(v, 2)
    {
      var b := new byte[2];
      b[0] := ByteAt(v, 1);
      b[1] := ByteAt(v, 0);
      BigEndianTwo(v);
      Write(b);
    }

    /** `WriteInt`: four bytes, most significant first. */
    method WriteInt(v: Int32)
      modifies this
      ensures written == old(written) + BigEndian(v, 4)
    {
      var b := new byte[4];
      b[0] := ByteAt(v, 3);
      b[1] := ByteAt(v, 2);
      b[2] := ByteAt(v, 1);
      b[3] := ByteAt(v, 0);
      BigEndianFour(v);
      assert b[..] == [b[0], b[1], b[2], b[3]];
      Write(b);
    }

    /** `WriteLong`: eight bytes, most significant first. */
    method WriteLong(v: Int64)
      modifies this
      ensures written == old(written) + BigEndian(v, 8)
    {
      var b := new byte[8];
      b[0] := ByteAt(v, 7);
      b[1] := ByteAt(v, 6);
      b[2] := ByteAt(v, 5);
      b[3] := ByteAt(v, 4);
      b[4] := ByteAt(v, 3);
      b[5] := ByteAt(v, 2);
      b[6] := ByteAt(v, 1);
      b[7] := ByteAt(v, 0);
      BigEndianEight(v);
      assert b[..] == [b[0], b[1], b[2], b[3], b[4], b[5], b[6], b[7]];
      Write(b);
    }

    /** `WriteBytes`: the UTF-8 bytes of the string, with no length prefix. A null string
        makes the encoder throw `ArgumentNullException` before anything is written. */
    method WriteBytes(s: Option<string>) returns (o: Outcome)
      modifies this
      ensures s.None? ==> o == Fail(ArgumentNullException) && written == old(written)
      ensures s.Some? ==> o == Pass && written == old(written) + Encode(s.value)
    {
      if s.None? {
        return Fail(ArgumentNullException);
      }
      written := written + Encode(s.value);
      return Pass;
    }

    /** `WriteChars`: the same bytes, and the same null case, as `WriteBytes`. */
    method WriteChars(s: Option<string>) returns (o: Outcome)
      modifies this
      ensures s.None? ==> o == Fail(ArgumentNullException) && written == old(written)
      ensures s.Some? ==> o == Pass && written == old(written) + Encode(s.value)
    {
      if s.None? {
        return Fail(ArgumentNullException);
      }
      written := written + Encode(s.value);
      return Pass;
    }

    /** `WriteUtf`: a two-byte prefix holding `str.Length` (UTF-16 code units, modulo
        65536), then the UTF-8 bytes. Reading the length of a null string throws
        `NullReferenceException` before anything is written. */
    method WriteUtf(str: Option<string>) returns (o: Outcome)
      modifies this
      ensures str.None? ==> o == Fail(NullReferenceException) && written == old(written)
      ensures str.Some? ==>
        o == Pass && written == old(written) + BigEndian(Utf16Length(str.value), 2) + Encode(str.value)
    {
      if str.None? {
        return Fail(NullReferenceException);
      }
      var length := Utf16Length(str.value);
      var b := new byte[2];
      b[0] := ByteAt(length, 1);
      b[1] := ByteAt(length, 0);
      BigEndianTwo(length);
      written := written + b[..];
      written := written + Encode(str.value);
      return Pass;
    }

    /** `WriteUtf` as the format it imitates defines it: the prefix holds the number of
        bytes that follow. */
    method WriteUtfByteLength(str: string)
      modifies this
      ensures written == old(written) + BigEndian(|Encode(str)|, 2) + Encode(str)
    {
      var payload := Encode(str);
      var b := new byte[2];
      b[0] := ByteAt(|payload|, 1);
      b[1] := ByteAt(|payload|, 0);
      BigEndianTwo(|payload|);
      written := written + b[..];
      written := written + payload;
    }
  }

  /** Null strings: `WriteBytes` and `WriteChars` throw `ArgumentNullException`, `WriteUtf`
      throws `NullReferenceException`, and none of them writes anything. */
  method NullStringsWriteNothing() returns (bytes: seq<byte>, bytesOutcome: Outcome, charsOutcome: Outcome, utfOutcome: Outcome)
    ensures bytes == []
    ensures bytesOutcome == Fail(ArgumentNullException) && charsOutcome == Fail(ArgumentNullException)
    ensures utfOutcome == Fail(NullReferenceException)
  {
    var output := new DataOutputStream();
    bytesOutcome := output.WriteBytes(None);
    charsOutcome := output.WriteChars(None);
    utfOutcome := output.WriteUtf(None);
    bytes := output.written;
  }

  /** `WriteByte(1)` appends `01 00 00 00`. */
  method WriteByteExample() returns (bytes: seq<byte>)
    ensures bytes == [1, 0, 0, 0]
  {
    var output := new DataOutputStream();
    output.WriteByte(1);
    bytes := output.written;
  }

  /** `WriteShort(0x1234)` appends `12 34`, and `WriteInt(-2)` appends `FF FF FF FE`. */
  method BigEndianExamples() returns (shortBytes: seq<byte>, intBytes: seq<byte>)
    ensures shortBytes == [0x12, 0x34] && intBytes == [0xFF, 0xFF, 0xFF, 0xFE]
  {
    var output := new DataOutputStream();
    output.WriteShort(0x1234);
    shortBytes := output.written;
    var output2 := new DataOutputStream();
    output2.WriteInt(-2);
    intBytes := output2.written;
  }
}
