/** Base16 (RFC 4648, section 8) with the lowercase alphabet `0-9 a-f`, as
    written by Rust's `hex::encode`, and the matching decoder. */
module Hex {
  import opened Results
  import opened Ints

  predicate IsLowerHexDigit(c: char) {
    '0' <= c <= '9' || 'a' <= c <= 'f'
  }

  function NibbleChar(v: int): (c: char)
    requires 0 <= v < 16
    ensures IsLowerHexDigit(c)
  {
    if v < 10 then ('0' as int + v) as char else ('a' as int + (v - 10)) as char
  }

  /** The value of a hexadecimal digit of either case. */
  function CharNibble(c: char): (r: Option<int>)
    ensures r.Some? ==> 0 <= r.value < 16
  {
    if '0' <= c <= '9' then Some(c as int - '0' as int)
    else if 'a' <= c <= 'f' then Some(c as int - 'a' as int + 10)
    else if 'A' <= c <= 'F' then Some(c as int - 'A' as int + 10)
    else None
  }

  /** Each byte as two lowercase digits, high nibble first. */
  function Encode(b: seq<Byte>): (s: string)
    ensures |s| == 2 * |b|
    ensures forall i :: 0 <= i < |s| ==> IsLowerHexDigit(s[i])
    decreases |b|
  {
    if |b| == 0 then ""
    else [NibbleChar(b[0] / 16), NibbleChar(b[0] % 16)] + Encode(b[1..])
  }

  /** Known answer: high nibble first, lowercase letters. */
  lemma EncodeVector()
    ensures Encode([102, 111, 0xAB]) == "666fab"
  {
  }

  /** Pairs of hexadecimal digits as bytes; `None` for an odd length or a
      character outside the alphabet. */
  function Decode(s: string): Option<seq<Byte>>
    decreases |s|
  {
    if |s| == 0 then Some([])
    else if |s| == 1 then None
    else
      match (CharNibble(s[0]), CharNibble(s[1]), Decode(s[2..]))
      case (Some(hi), Some(lo), Some(rest)) => Some([hi * 16 + lo] + rest)
      case _ => None
  }

  /** Decoding gives back the encoded bytes. */
  lemma {:induction false} DecodeEncode(b: seq<Byte>)
    ensures Decode(Encode(b)) == Some(b)
    decreases |b|
  {
    if |b| > 0 {
      var s := Encode(b);
      DecodeEncode(b[1..]);
      assert s[2..] == Encode(b[1..]);
      assert CharNibble(s[0]) == Some(b[0] / 16);
      assert CharNibble(s[1]) == Some(b[0] % 16);
      assert b == [b[0]] + b[1..];
    }
  }

  /** Encoding gives back a lowercase text that decodes: the lowercase
      encoding is the canonical spelling of a byte string. */
  lemma {:induction false} EncodeDecode(s: string)
    requires Decode(s).Some?
    requires forall i :: 0 <= i < |s| ==> IsLowerHexDigit(s[i])
    ensures Encode(Decode(s).value) == s
    decreases |s|
  {
    if |s| > 0 {
      var hi, lo, rest := CharNibble(s[0]).value, CharNibble(s[1]).value, Decode(s[2..]).value;
      EncodeDecode(s[2..]);
      var b := Decode(s).value;
      assert b == [hi * 16 + lo] + rest;
      assert b[1..] == rest;
      assert (hi * 16 + lo) / 16 == hi && (hi * 16 + lo) % 16 == lo;
      LowerDigitRoundTrip(s[0]);
      LowerDigitRoundTrip(s[1]);
      assert s == [s[0], s[1]] + s[2..];
    }
  }

  /** A lowercase digit is spelled back by its own value. */
  lemma LowerDigitRoundTrip(c: char)
    requires IsLowerHexDigit(c)
    ensures CharNibble(c).Some? && NibbleChar(CharNibble(c).value) == c
  {
  }
}
