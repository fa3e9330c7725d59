/**
  UTF-8, as `System.Text.UTF8Encoding` produces it and as its `Decoder` reads it.

  A Dafny `char` is a Unicode scalar value, so every string here is well formed; a scalar
  above U+FFFF is one `char` here and two UTF-16 code units in C#, and `String.Length`
  counts code units. The decoder replaces each maximal ill-formed subpart with U+FFFD
  (section 3.9 of the Unicode Standard, "U+FFFD Substitution of Maximal Subparts"), and
  since the stream reader calls it without flushing, a well-formed but unfinished
  sequence at the end of the input yields nothing.
*/
module Utf8 {
  import opened Bytes

  const Replacement: char := '\U{FFFD}'

  /** The UTF-16 code units of one scalar. */
  function Units(c: char): nat {
    if c as int < 0x1_0000 then 1 else 2
  }

  /** `String.Length`: the number of UTF-16 code units. */
  function Utf16Length(s: string): nat {
    if |s| == 0 then 0 else Units(s[0]) + Utf16Length(s[1..])
  }

  predicate IsAscii(s: string) {
    forall i :: 0 <= i < |s| ==> s[i] as int < 0x80
  }

  function EncodeChar(c: char): (bs: seq<byte>)
    ensures 1 <= |bs| <= 4
  {
    var x := c as int;
    if x < 0x80 then [x]
    else if x < 0x800 then [0xC0 + x / 0x40, 0x80 + x % 0x40]
    else if x < 0x1_0000 then [0xE0 + x / 0x1000, 0x80 + x / 0x40 % 0x40, 0x80 + x % 0x40]
    else [0xF0 + x / 0x4_0000, 0x80 + x / 0x1000 % 0x40, 0x80 + x / 0x40 % 0x40, 0x80 + x % 0x40]
  }

  /** `UTF8Encoding.GetBytes(s)`. */
  function Encode(s: string): seq<byte> {
    if |s| == 0 then [] else EncodeChar(s[0]) + Encode(s[1..])
  }

  /** What the decoder makes of the bytes at the front of its input. */
  datatype Step = Scalar(c: char, size: nat) | Invalid(size: nat) | Incomplete

  predicate Continuation(b: byte) {
    0x80 <= b < 0xC0
  }

  function Next(bs: seq<byte>): (st: Step)
    requires |bs| > 0
    ensures !st.Incomplete? ==> 1 <= st.size <= |bs|
  {
    var b0: int := bs[0];
    if b0 < 0x80 then Scalar(b0 as char, 1)
    else if 0xC2 <= b0 < 0xE0 then
      if |bs| < 2 then Incomplete
      else if !Continuation(bs[1]) then Invalid(1)
      else Scalar(((b0 - 0xC0) * 0x40 + (bs[1] as int - 0x80)) as char, 2)
    else if 0xE0 <= b0 < 0xF0 then
      var lo := if b0 == 0xE0 then 0xA0 else 0x80;
      var hi := if b0 == 0xED then 0xA0 else 0xC0;
      if |bs| < 2 then Incomplete
      else if !(lo <= bs[1] < hi) then Invalid(1)
      else if |bs| < 3 then Incomplete
      else if !Continuation(bs[2]) then Invalid(2)
      else Scalar(((b0 - 0xE0) * 0x1000 + (bs[1] as int - 0x80) * 0x40 + (bs[2] as int - 0x80)) as char, 3)
    else if 0xF0 <= b0 < 0xF5 then
      var lo := if b0 == 0xF0 then 0x90 else 0x80;
      var hi := if b0 == 0xF4 then 0x90 else 0xC0;
      if |bs| < 2 then Incomplete
      else if !(lo <= bs[1] < hi) then Invalid(1)
      else if |bs| < 3 then Incomplete
      else if !Continuation(bs[2]) then Invalid(2)
      else if |bs| < 4 then Incomplete
      else if !Continuation(bs[3]) then Invalid(3)
      else Scalar(((b0 - 0xF0) * 0x4_0000 + (bs[1] as int - 0x80) * 0x1000 + (bs[2] as int - 0x80) * 0x40 + (bs[3] as int - 0x80)) as char, 4)
    else Invalid(1)
  }

  /** `Decoder.GetChars` without flushing. */
  function Decode(bs: seq<byte>): string
    decreases |bs|
  {
    if |bs| == 0 then []
    else
      match Next(bs)
      case Scalar(c, k) => [c] + Decode(bs[k..])
      case Invalid(k) => [Replacement] + Decode(bs[k..])
      case Incomplete => []
  }

  lemma NextOfTwo(x: int, rest: seq<byte>)
    requires 0x80 <= x < 0x800
    ensures Next([0xC0 + x / 0x40, 0x80 + x % 0x40] + rest) == Scalar(x as char, 2)
  {
  }

  lemma NextOfThree(x: int, rest: seq<byte>)
    requires 0x800 <= x < 0xD800 || 0xE000 <= x < 0x1_0000
    ensures Next([0xE0 + x / 0x1000, 0x80 + x / 0x40 % 0x40, 0x80 + x % 0x40] + rest) == Scalar(x as char, 3)
  {
    assert x / 0x40 / 0x40 == x / 0x1000;
  }

  lemma NextOfFour(x: int, rest: seq<byte>)
    requires 0x1_0000 <= x < 0x11_0000
    ensures Next([0xF0 + x / 0x4_0000, 0x80 + x / 0x1000 % 0x40, 0x80 + x / 0x40 % 0x40, 0x80 + x % 0x40] + rest)
      == Scalar(x as char, 4)
  {
    assert x / 0x40 / 0x40 == x / 0x1000;
    assert x / 0x1000 / 0x40 == x / 0x4_0000;
  }

  /** The decoder reads one encoded scalar back. */
  lemma NextOfEncoded(c: char, rest: seq<byte>)
    ensures Next(EncodeChar(c) + rest) == Scalar(c, |EncodeChar(c)|)
  {
    var x := c as int;
    if x < 0x80 {
    } else if x < 0x800 {
      NextOfTwo(x, rest);
    } else if x < 0x1_0000 {
      NextOfThree(x, rest);
    } else {
      NextOfFour(x, rest);
    }
  }

  /** Decoding the UTF-8 form of any string gives the string back. */
  lemma {:induction false} DecodeEncode(s: string)
    ensures Decode(Encode(s)) == s
  {
    if |s| > 0 {
      var head, rest := EncodeChar(s[0]), Encode(s[1..]);
      NextOfEncoded(s[0], rest);
      assert (head + rest)[|head|..] == rest;
      DecodeEncode(s[1..]);
    }
  }

  /** Encoding concatenates. */
  lemma {:induction false} EncodeAppend(s: string, t: string)
    ensures Encode(s + t) == Encode(s) + Encode(t)
  {
    if |s| > 0 {
      assert (s + t)[0] == s[0] && (s + t)[1..] == s[1..] + t;
      EncodeAppend(s[1..], t);
    } else {
      assert s + t == t;
    }
  }

  /** An ASCII string encodes to one byte per char, each the char's code. */
  lemma {:induction false} EncodeAscii(s: string)
    requires IsAscii(s)
    ensures |Encode(s)| == |s| && forall i :: 0 <= i < |s| ==> Encode(s)[i] == s[i] as int
  {
    if |s| > 0 {
      assert s[0] as int < 0x80;
      EncodeAscii(s[1..]);
    }
  }

  /** The UTF-8 form is never shorter than the UTF-16 form, and is as long exactly when
      the string is ASCII. */
  lemma {:induction false} EncodedLength(s: string)
    ensures |Encode(s)| >= Utf16Length(s)
    ensures |Encode(s)| == Utf16Length(s) <==> IsAscii(s)
  {
    if |s| > 0 {
      EncodedLength(s[1..]);
      if IsAscii(s) {
        assert IsAscii(s[1..]) by {
          forall i | 0 <= i < |s| - 1
            ensures s[1..][i] as int < 0x80
          {
            assert s[i + 1] as int < 0x80;
          }
        }
      } else if s[0] as int < 0x80 {
        var i :| 0 <= i < |s| && s[i] as int >= 0x80;
        assert s[1..][i - 1] == s[i];
      }
    }
  }

  /** `é` (U+00E9) is two bytes of UTF-8 and one UTF-16 code unit. */
  lemma SmallEAcute()
    ensures Encode("\U{E9}") == [0xC3, 0xA9] && Utf16Length("\U{E9}") == 1
  {
  }
}
