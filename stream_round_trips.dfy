/**
  What a `DataInputStream` reads back from the bytes a `DataOutputStream` wrote: each method
  writes to a fresh output stream, opens an input stream over what was written, and reads.
*/
module StreamRoundTrips {
  import opened Wrappers
  import opened Words
  import opened Bytes
  import opened Utf8
  import opened Exceptions
  import opened DataOutput
  import opened DataInput

  /** `ReadShort` after `WriteShort` gives the low 16 bits as a `short`. */
  method ShortRoundTrip(v: Int32) returns (r: Result<Int16>)
    ensures r == Ok(Signed16(v))
  {
    var output := new DataOutputStream();
    output.WriteShort(v);
    var input := new DataInputStream(output.written);
    r := input.ReadShort();
    assert input.data[0..2] == BigEndian(v, 2);
    ShortAfterWriteShort(v);
  }

  /** `ReadUnsignedShort` after `WriteShort` gives the low 16 bits. */
  method UnsignedShortRoundTrip(v: Int32) returns (r: Result<UInt16>)
    ensures r == Ok(v % TwoTo16)
  {
    var output := new DataOutputStream();
    output.WriteShort(v);
    var input := new DataInputStream(output.written);
    r := input.ReadUnsignedShort();
    assert input.data[0..2] == BigEndian(v, 2);
    UnsignedShortAfterWriteShort(v);
  }

  /** `ReadChar` after `WriteChar` gives the UTF-16 code unit back. */
  method CharRoundTrip(v: Int32) returns (r: Result<UInt16>)
    ensures r == Ok(v % TwoTo16)
    ensures 0 <= v < TwoTo16 ==> r == Ok(v)
  {
    var output := new DataOutputStream();
    output.WriteChar(v);
    var input := new DataInputStream(output.written);
    r := input.ReadChar();
    assert input.data[0..2] == BigEndian(v, 2);
    CharAfterWriteChar(v);
  }

  /** `ReadInt` after `WriteInt` gives the `int` back. */
  method IntRoundTrip(v: Int32) returns (r: Result<Int32>)
    ensures r == Ok(v)
  {
    var output := new DataOutputStream();
    output.WriteInt(v);
    var input := new DataInputStream(output.written);
    r := input.ReadInt();
    assert input.data[0..4] == BigEndian(v, 4);
    IntAfterWriteInt(v);
  }

  /** `ReadLong` after `WriteLong` gives the `long` back. */
  method LongRoundTrip(v: Int64) returns (r: Result<Int64>)
    ensures r == Ok(v)
  {
    var output := new DataOutputStream();
    output.WriteLong(v);
    var input := new DataInputStream(output.written);
    r := input.ReadLong();
    assert input.data[0..8] == BigEndian(v, 8);
    LongAfterWriteLong(v);
  }

  /** `ReadBoolean` after `WriteBoolean` gives the flag back. */
  method BooleanRoundTrip(v: bool) returns (r: Result<bool>)
    ensures r == Ok(v)
  {
    var output := new DataOutputStream();
    output.WriteBoolean(v);
    var input := new DataInputStream(output.written);
    r := input.ReadBoolean();
  }

  /** `WriteByte` writes four bytes, so `ReadByte` gets the low byte back and leaves three
      bytes unread. */
  method ByteRoundTrip(v: Int32) returns (r: Result<byte>, unread: nat)
    ensures r == Ok(v % 256) && unread == 3
  {
    var output := new DataOutputStream();
    output.WriteByte(v);
    var input := new DataInputStream(output.written);
    r := input.ReadByte();
    LittleEndianBytes(v, 4, 0);
    unread := |input.data| - input.position;
  }

  /** Reads in the order of the writes find each value where it was written. */
  method IntThenLongRoundTrip(a: Int32, b: Int64) returns (ra: Result<Int32>, rb: Result<Int64>)
    ensures ra == Ok(a) && rb == Ok(b)
  {
    var output := new DataOutputStream();
    output.WriteInt(a);
    output.WriteLong(b);
    var input := new DataInputStream(output.written);
    ra := input.ReadInt();
    rb := input.ReadLong();
    assert input.data[0..4] == BigEndian(a, 4);
    assert input.data[4..12] == BigEndian(b, 8);
    IntAfterWriteInt(a);
    LongAfterWriteLong(b);
  }

  /** `ReadInt` over the two bytes of a `WriteShort` throws, having consumed both. */
  method ShortReadFails(v: Int32) returns (r: Result<Int32>, consumed: nat)
    ensures r == Throw(IndexOutOfRangeException(IndexMessage)) && consumed == 2
  {
    var output := new DataOutputStream();
    output.WriteShort(v);
    var input := new DataInputStream(output.written);
    r := input.ReadInt();
    consumed := input.position;
  }

  /** A strict, non-empty prefix of one encoded scalar is an unfinished sequence. */
  lemma NextOfPartial(c: char, k: nat)
    requires 0 < k < |EncodeChar(c)|
    ensures Next(EncodeChar(c)[..k]) == Incomplete
  {
    var x := c as int;
    if 0x800 <= x < 0x1_0000 && k == 2 {
      assert x / 0x40 / 0x40 == x / 0x1000;
    } else if 0x1_0000 <= x && k >= 2 {
      assert x / 0x40 / 0x40 == x / 0x1000;
      assert x / 0x1000 / 0x40 == x / 0x4_0000;
    }
  }

  /** Decoding a strict prefix of a string's UTF-8 form loses at least one char. */
  lemma {:induction false} DecodeTruncated(s: string, k: nat)
    requires k < |Encode(s)|
    ensures |Decode(Encode(s)[..k])| < |s|
  {
    var head, rest := EncodeChar(s[0]), Encode(s[1..]);
    assert Encode(s) == head + rest;
    if k < |head| {
      if k > 0 {
        assert Encode(s)[..k] == head[..k];
        NextOfPartial(s[0], k);
      } else {
        assert Encode(s)[..k] == [];
      }
    } else {
      var tail := rest[..k - |head|];
      assert Encode(s)[..k] == head + tail;
      NextOfEncoded(s[0], tail);
      assert (head + tail)[|head|..] == tail;
      DecodeTruncated(s[1..], k - |head|);
    }
  }

  /** The bytes `ReadUtf` finds after a `WriteUtf` that wrote a length prefix `n`. */
  lemma UtfPayload(prefix: nat, s: string, data: seq<byte>)
    requires prefix < TwoTo16 && data == BigEndian(prefix, 2) + Encode(s)
    ensures UnsignedShortValue(data[0..2]) == prefix
    ensures Available(data, 2, prefix) == Encode(s)[..Min(prefix, |Encode(s)|)]
  {
    assert data[0..2] == BigEndian(prefix, 2);
    assert data[2..] == Encode(s);
    UnsignedShortAfterWriteShort(prefix);
  }

  /** `ReadUtf` after `WriteUtf` gives the string back exactly when it is ASCII: the prefix
      counts UTF-16 code units, so the reader takes too few of the UTF-8 bytes otherwise. */
  method UtfRoundTrip(s: string) returns (r: Result<string>)
    requires Utf16Length(s) < TwoTo16
    ensures r.Ok?
    ensures r == Ok(s) <==> IsAscii(s)
  {
    var n := Utf16Length(s);
    var output := new DataOutputStream();
    var _ := output.WriteUtf(Some(s));
    var input := new DataInputStream(output.written);
    UtfPayload(n, s, input.data);
    r := input.ReadUtf();
    var payload := Encode(s)[..Min(n, |Encode(s)|)];
    assert r == Ok(Decode(payload));
    UtfReadsBackAscii(s);
  }

  /** The UTF-8 bytes of s cut to its UTF-16 length decode to s exactly when s is ASCII. */
  lemma UtfReadsBackAscii(s: string)
    ensures var n := Utf16Length(s);
      Decode(Encode(s)[..Min(n, |Encode(s)|)]) == s <==> IsAscii(s)
  {
    var n := Utf16Length(s);
    EncodedLength(s);
    if IsAscii(s) {
      assert Encode(s)[..n] == Encode(s);
      DecodeEncode(s);
    } else {
      DecodeTruncated(s, n);
    }
  }

  /** `WriteUtf("é")` writes the prefix 1 before the two bytes C3 A9, and `ReadUtf` then
      reads the empty string. */
  method UtfLosesSmallEAcute() returns (bytes: seq<byte>, r: Result<string>)
    ensures bytes == [0, 1, 0xC3, 0xA9] && r == Ok("")
  {
    var output := new DataOutputStream();
    var _ := output.WriteUtf(Some("\U{E9}"));
    bytes := output.written;
    SmallEAcute();
    assert BigEndian(1, 2) == [0, 1];
    var input := new DataInputStream(bytes);
    r := input.ReadUtf();
    assert input.data[0..2] == [0, 1];
    assert Available(input.data, 2, 1) == [0xC3];
  }

  /** With the prefix counting bytes, every string whose UTF-8 form fits comes back. */
  method UtfByteLengthRoundTrip(s: string) returns (r: Result<string>)
    requires |Encode(s)| < TwoTo16
    ensures r == Ok(s)
  {
    var output := new DataOutputStream();
    output.WriteUtfByteLength(s);
    var input := new DataInputStream(output.written);
    r := input.ReadUtf();
    UtfPayload(|Encode(s)|, s, input.data);
    assert Encode(s)[..|Encode(s)|] == Encode(s);
    DecodeEncode(s);
  }
}
