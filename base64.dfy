/**
 * Base 64 encoding as defined in section 4 of RFC 4648 (standard alphabet,
 * `=` padding), which PHP's `base64_encode` implements. The transport uses it
 * for the content of images and attachments.
 */
module Base64 {

  type byte = b: int | 0 <= b < 256

  /** A 6-bit group: the value carried by one base 64 character. */
  type Sextet = v: int | 0 <= v < 64

  const Pad: char := '='

  /** The character for a 6-bit value: `A-Z`, `a-z`, `0-9`, `+`, `/`. */
  function Char(v: Sextet): (c: char)
    ensures c != Pad
    ensures Value(c) == v
  {
    if v < 26 then ('A' as int + v) as char
    else if v < 52 then ('a' as int + (v - 26)) as char
    else if v < 62 then ('0' as int + (v - 52)) as char
    else if v == 62 then '+'
    else '/'
  }

  /** The 6-bit value of an alphabet character (characters outside the alphabet read as 63). */
  function Value(c: char): Sextet {
    if 'A' <= c <= 'Z' then c as int - 'A' as int
    else if 'a' <= c <= 'z' then c as int - 'a' as int + 26
    else if '0' <= c <= '9' then c as int - '0' as int + 52
    else if c == '+' then 62
    else 63
  }

  /** Each group of three bytes becomes four characters; a final short group is padded with `=`. */
  function Encode(data: seq<byte>): (s: string)
    ensures |s| == 4 * ((|data| + 2) / 3)
    decreases |data|
  {
    if |data| == 0 then []
    else if |data| == 1 then EncodeOne(data[0])
    else if |data| == 2 then EncodeTwo(data[0], data[1])
    else EncodeThree(data[0], data[1], data[2]) + Encode(data[3..])
  }

  function EncodeOne(b0: byte): string {
    [Char(b0 / 4), Char(b0 % 4 * 16), Pad, Pad]
  }

  function EncodeTwo(b0: byte, b1: byte): string {
    [Char(b0 / 4), Char(b0 % 4 * 16 + b1 / 16), Char(b1 % 16 * 4), Pad]
  }

  function EncodeThree(b0: byte, b1: byte, b2: byte): string {
    [Char(b0 / 4), Char(b0 % 4 * 16 + b1 / 16), Char(b1 % 16 * 4 + b2 / 64), Char(b2 % 64)]
  }

  /** The bytes of one group of four characters, honouring the padding. */
  function DecodeGroup(g: string): seq<byte>
    requires |g| == 4
  {
    var v0, v1, v2, v3 := Value(g[0]), Value(g[1]), Value(g[2]), Value(g[3]);
    if g[2] == Pad then [v0 * 4 + v1 / 16]
    else if g[3] == Pad then [v0 * 4 + v1 / 16, v1 % 16 * 16 + v2 / 4]
    else [v0 * 4 + v1 / 16, v1 % 16 * 16 + v2 / 4, v2 % 4 * 64 + v3]
  }

  /** Decoding, group by group. */
  function Decode(s: string): seq<byte>
    requires |s| % 4 == 0
    decreases |s|
  {
    if s == [] then [] else DecodeGroup(s[..4]) + Decode(s[4..])
  }

  lemma FirstByte(b0: byte, b1: byte)
    ensures (b0 / 4) * 4 + (b0 % 4 * 16 + b1 / 16) / 16 == b0
    ensures (b0 % 4 * 16 + b1 / 16) % 16 == b1 / 16
  {
  }

  lemma SecondByte(b1: byte, b2: byte)
    ensures b1 / 16 * 16 + (b1 % 16 * 4 + b2 / 64) / 4 == b1
    ensures (b1 % 16 * 4 + b2 / 64) % 4 == b2 / 64
  {
  }

  lemma DecodeOne(b0: byte)
    ensures DecodeGroup(EncodeOne(b0)) == [b0]
  {
    FirstByte(b0, 0);
  }

  lemma DecodeTwo(b0: byte, b1: byte)
    ensures DecodeGroup(EncodeTwo(b0, b1)) == [b0, b1]
  {
    FirstByte(b0, b1);
    SecondByte(b1, 0);
  }

  lemma DecodeThree(b0: byte, b1: byte, b2: byte)
    ensures DecodeGroup(EncodeThree(b0, b1, b2)) == [b0, b1, b2]
  {
    FirstByte(b0, b1);
    SecondByte(b1, b2);
  }

  /** Decoding undoes encoding: the content sent for a part carries its bytes unchanged. */
  lemma {:induction false} DecodeEncode(data: seq<byte>)
    ensures Decode(Encode(data)) == data
    decreases |data|
  {
    var s := Encode(data);
    if |data| == 1 {
      DecodeOne(data[0]);
      assert s[..4] == s && s[4..] == [];
    } else if |data| == 2 {
      DecodeTwo(data[0], data[1]);
      assert s[..4] == s && s[4..] == [];
    } else if |data| >= 3 {
      var g := EncodeThree(data[0], data[1], data[2]);
      assert s[..4] == g && s[4..] == Encode(data[3..]);
      DecodeThree(data[0], data[1], data[2]);
      DecodeEncode(data[3..]);
      assert data[..3] == [data[0], data[1], data[2]];
      assert data[..3] + data[3..] == data;
    }
  }
}
