/**
 * The shared random-string generator: `n` random bytes are hex-encoded
 * (two lower-case digits per byte, high nibble first) and the encoding is
 * cut to its first `n` characters. The random bytes are an input here.
 */
module Generator {

  newtype Byte = b: int | 0 <= b < 256

  /** A lower-case hexadecimal digit, `[0-9a-f]`. */
  predicate IsHexChar(c: char) {
    ('0' <= c <= '9') || ('a' <= c <= 'f')
  }

  predicate IsLowerHex(s: string) {
    forall i :: 0 <= i < |s| ==> IsHexChar(s[i])
  }

  function HexDigit(d: int): (c: char)
    requires 0 <= d < 16
    ensures IsHexChar(c)
  {
    if d < 10 then ('0' as int + d) as char else ('a' as int + d - 10) as char
  }

  /** The value of a hexadecimal digit; the inverse of `HexDigit`. */
  function DigitValue(c: char): (d: int)
    requires IsHexChar(c)
    ensures 0 <= d < 16
    ensures HexDigit(d) == c
  {
    if c <= '9' then c as int - '0' as int else c as int - 'a' as int + 10
  }

  lemma DigitValueOfHexDigit(d: int)
    requires 0 <= d < 16
    ensures DigitValue(HexDigit(d)) == d
  {
  }

  /** Node's `Buffer.toString("hex")`: two characters per byte. */
  function HexEncode(bytes: seq<Byte>): (s: string)
    ensures |s| == 2 * |bytes|
    ensures IsLowerHex(s)
  {
    if bytes == [] then []
    else [HexDigit(bytes[0] as int / 16), HexDigit(bytes[0] as int % 16)] + HexEncode(bytes[1..])
  }

  /** Reads a hex string two digits at a time back into bytes. */
  function HexDecode(s: string): (bytes: seq<Byte>)
    requires |s| % 2 == 0
    requires IsLowerHex(s)
    ensures 2 * |bytes| == |s|
  {
    if s == [] then []
    else [(16 * DigitValue(s[0]) + DigitValue(s[1])) as Byte] + HexDecode(s[2..])
  }

  /** Decoding undoes encoding. */
  lemma {:induction false} DecodeEncode(bytes: seq<Byte>)
    ensures HexDecode(HexEncode(bytes)) == bytes
  {
    if bytes != [] {
      var s := HexEncode(bytes);
      var b := bytes[0] as int;
      assert s[2..] == HexEncode(bytes[1..]);
      DigitValueOfHexDigit(b / 16);
      DigitValueOfHexDigit(b % 16);
      DecodeEncode(bytes[1..]);
    }
  }

  /** Encoding undoes decoding: every even-length lower-case hex string is an encoding. */
  lemma {:induction false} EncodeDecode(s: string)
    requires |s| % 2 == 0
    requires IsLowerHex(s)
    ensures HexEncode(HexDecode(s)) == s
  {
    if s != [] {
      var bytes := HexDecode(s);
      var d0, d1 := DigitValue(s[0]), DigitValue(s[1]);
      var v := 16 * d0 + d1;
      assert bytes[0] as int == v;
      assert v / 16 == d0 && v % 16 == d1;
      assert bytes[1..] == HexDecode(s[2..]);
      EncodeDecode(s[2..]);
      assert HexEncode(bytes) == [HexDigit(d0), HexDigit(d1)] + HexEncode(bytes[1..]);
      assert s == [s[0], s[1]] + s[2..];
    }
  }

  /** Encoding a prefix of the bytes gives the matching prefix of the encoding. */
  lemma {:induction false} EncodePrefix(bytes: seq<Byte>, k: nat)
    requires k <= |bytes|
    ensures HexEncode(bytes[..k]) == HexEncode(bytes)[..2 * k]
  {
    if k > 0 {
      assert bytes[..k][1..] == bytes[1..][..k - 1];
      EncodePrefix(bytes[1..], k - 1);
    }
  }

  /** `randomString(n)`: the first `n` characters of the hex encoding of `n` random bytes. */
  function RandomString(n: nat, bytes: seq<Byte>): (r: string)
    requires |bytes| == n
    ensures |r| == n
    ensures IsLowerHex(r)
    ensures r <= HexEncode(bytes)
  {
    HexEncode(bytes)[..n]
  }

  /** Only the first ceil(n/2) random bytes influence `randomString(n)`. */
  lemma RandomStringUsesHalfTheBytes(n: nat, b1: seq<Byte>, b2: seq<Byte>)
    requires |b1| == n && |b2| == n
    requires b1[..(n + 1) / 2] == b2[..(n + 1) / 2]
    ensures RandomString(n, b1) == RandomString(n, b2)
  {
    var k := (n + 1) / 2;
    EncodePrefix(b1, k);
    EncodePrefix(b2, k);
    assert HexEncode(b1)[..n] == HexEncode(b1)[..2 * k][..n];
    assert HexEncode(b2)[..n] == HexEncode(b2)[..2 * k][..n];
  }

  /** For an even length the string decodes back to exactly the first n/2 random bytes. */
  lemma RandomStringDecodes(n: nat, bytes: seq<Byte>)
    requires |bytes| == n && n % 2 == 0
    ensures HexDecode(RandomString(n, bytes)) == bytes[..n / 2]
  {
    EncodePrefix(bytes, n / 2);
    DecodeEncode(bytes[..n / 2]);
  }
}
