/** Standard base64 (RFC 4648, section 4): the alphabet `A-Z a-z 0-9 + /`,
    every 3 bytes written as 4 characters, and a final group of 1 or 2 bytes
    padded with `=` to a full 4 characters. Decoding is strict: the length must
    be a multiple of 4, padding may only end the text, and the bits a padded
    group leaves over must be zero, so every accepted text is canonical. */
module Base64 {
  import opened Results
  import opened Ints

  /** A 6-bit value, the unit one base64 character carries. */
  type Sextet = x: int | 0 <= x < 64

  /** The decode failures, named as the base64 library names them. */
  datatype DecodeError = InvalidByte | InvalidLength | InvalidLastSymbol

  /** The library's `description()` text for each failure. */
  function Description(e: DecodeError): string {
    match e
    case InvalidByte => "invalid byte"
    case InvalidLength => "invalid length"
    case InvalidLastSymbol => "invalid last symbol"
  }

  function SextetChar(v: Sextet): char {
    if v < 26 then ('A' as int + v) as char
    else if v < 52 then ('a' as int + (v - 26)) as char
    else if v < 62 then ('0' as int + (v - 52)) as char
    else if v == 62 then '+'
    else '/'
  }

  /** The value of an alphabet character; `None` for anything else, the
      padding character `=` included. */
  function CharSextet(c: char): (r: Option<Sextet>)
    ensures r.Some? ==> SextetChar(r.value) == c
    ensures c == '=' ==> r.None?
  {
    if 'A' <= c <= 'Z' then Some(c as int - 'A' as int)
    else if 'a' <= c <= 'z' then Some(c as int - 'a' as int + 26)
    else if '0' <= c <= '9' then Some(c as int - '0' as int + 52)
    else if c == '+' then Some(62)
    else if c == '/' then Some(63)
    else None
  }

  lemma SextetCharInverse(v: Sextet)
    ensures CharSextet(SextetChar(v)) == Some(v)
  {
  }

  /** Three bytes as four characters. */
  function EncodeGroup(b0: Byte, b1: Byte, b2: Byte): string {
    [ SextetChar(b0 / 4), SextetChar((b0 % 4) * 16 + b1 / 16),
      SextetChar((b1 % 16) * 4 + b2 / 64), SextetChar(b2 % 64) ]
  }

  /** Rust `base64::encode` with the standard alphabet and padding. */
  function Encode(b: seq<Byte>): (s: string)
    ensures |s| % 4 == 0
    ensures |s| == 0 <==> |b| == 0
    decreases |b|
  {
    if |b| == 0 then ""
    else if |b| == 1 then [SextetChar(b[0] / 4), SextetChar((b[0] % 4) * 16), '=', '=']
    else if |b| == 2 then
      [SextetChar(b[0] / 4), SextetChar((b[0] % 4) * 16 + b[1] / 16), SextetChar((b[1] % 16) * 4), '=']
    else EncodeGroup(b[0], b[1], b[2]) + Encode(b[3..])
  }

  /** Known answers: the test vectors of section 10 of RFC 4648, and one
      group that uses the last two alphabet characters `+` and `/`. */
  lemma EncodeVectors()
    ensures Encode([102]) == "Zg=="
    ensures Encode([102, 111]) == "Zm8="
    ensures Encode([102, 111, 111]) == "Zm9v"
    ensures Encode([102, 111, 111, 98, 97, 114]) == "Zm9vYmFy"
    ensures Encode([0xFB, 0xFF]) == "+/8="
  {
  }

  /** The encoded length is four characters per started group of three bytes. */
  lemma {:induction false} EncodeLength(b: seq<Byte>)
    ensures |Encode(b)| == 4 * ((|b| + 2) / 3)
    decreases |b|
  {
    var n := |b|;
    if n > 2 {
      EncodeLength(b[3..]);
      assert (n + 2) / 3 == (n - 1) / 3 + 1;
    } else {
      assert (n + 2) / 3 == if n == 0 then 0 else 1;
    }
  }

  /** Four alphabet characters as three bytes. */
  function DecodeGroup(q: string): (r: Result<seq<Byte>, DecodeError>)
    requires |q| == 4
    ensures r.Success? ==> |r.value| == 3
    ensures r.Failure? ==> r.error == InvalidByte
  {
    var c0, c1, c2, c3 := CharSextet(q[0]), CharSextet(q[1]), CharSextet(q[2]), CharSextet(q[3]);
    if c0.None? || c1.None? || c2.None? || c3.None? then Failure(InvalidByte)
    else
      var v0, v1, v2, v3 := c0.value, c1.value, c2.value, c3.value;
      Success([v0 * 4 + v1 / 16, (v1 % 16) * 16 + v2 / 4, (v2 % 4) * 64 + v3])
  }

  /** The last group, which may end in one or two padding characters. */
  function DecodeFinalGroup(q: string): (r: Result<seq<Byte>, DecodeError>)
    requires |q| == 4
    ensures r.Success? ==> 1 <= |r.value| <= 3
    ensures r.Failure? ==> r.error != InvalidLength
  {
    if q[2] == '=' && q[3] == '=' then
      var c0, c1 := CharSextet(q[0]), CharSextet(q[1]);
      if c0.None? || c1.None? then Failure(InvalidByte)
      else if c1.value % 16 != 0 then Failure(InvalidLastSymbol)
      else Success([c0.value * 4 + c1.value / 16])
    else if q[3] == '=' then
      var c0, c1, c2 := CharSextet(q[0]), CharSextet(q[1]), CharSextet(q[2]);
      if c0.None? || c1.None? || c2.None? then Failure(InvalidByte)
      else if c2.value % 4 != 0 then Failure(InvalidLastSymbol)
      else Success([c0.value * 4 + c1.value / 16, (c1.value % 16) * 16 + c2.value / 4])
    else DecodeGroup(q)
  }

  function DecodeGroups(s: string): (r: Result<seq<Byte>, DecodeError>)
    requires |s| % 4 == 0
    ensures r.Success? ==> |r.value| <= 3 * (|s| / 4) && (|s| > 0 ==> 3 * (|s| / 4) - 2 <= |r.value|)
    ensures r.Failure? ==> r.error != InvalidLength
    decreases |s|
  {
    if |s| == 0 then Success([])
    else if |s| == 4 then DecodeFinalGroup(s)
    else
      match DecodeGroup(s[..4])
      case Failure(e) => Failure(e)
      case Success(head) =>
        match DecodeGroups(s[4..])
        case Failure(e) => Failure(e)
        case Success(tail) => Success(head + tail)
  }

  /** Rust `base64::decode` with the standard alphabet: a text whose length
      is not a multiple of 4 is rejected, and every full group of 4 gives
      3 bytes except that the padding of the last one drops one or two. */
  function Decode(s: string): (r: Result<seq<Byte>, DecodeError>)
    ensures |s| % 4 != 0 ==> r == Failure(InvalidLength)
    ensures r.Failure? && r.error == InvalidLength ==> |s| % 4 != 0
    ensures |s| == 0 ==> r == Success([])
    ensures r.Success? ==> |r.value| <= 3 * (|s| / 4) && (|s| > 0 ==> 3 * (|s| / 4) - 2 <= |r.value|)
  {
    if |s| % 4 != 0 then Failure(InvalidLength) else DecodeGroups(s)
  }

  /** Splitting three bytes into sextets and joining them again is lossless. */
  lemma GroupArithmetic(b0: Byte, b1: Byte, b2: Byte)
    ensures var v0, v1, v2, v3 := b0 / 4, (b0 % 4) * 16 + b1 / 16, (b1 % 16) * 4 + b2 / 64, b2 % 64;
      && v0 * 4 + v1 / 16 == b0
      && (v1 % 16) * 16 + v2 / 4 == b1
      && (v2 % 4) * 64 + v3 == b2
      && v1 % 16 == b1 / 16 && v2 % 4 == b2 / 64
  {
  }

  /** Joining four sextets into bytes and splitting them again is lossless. */
  lemma SextetArithmetic(v0: Sextet, v1: Sextet, v2: Sextet, v3: Sextet)
    ensures var b0, b1, b2 := v0 * 4 + v1 / 16, (v1 % 16) * 16 + v2 / 4, (v2 % 4) * 64 + v3;
      && b0 / 4 == v0
      && (b0 % 4) * 16 + b1 / 16 == v1
      && (b1 % 16) * 4 + b2 / 64 == v2
      && b2 % 64 == v3
      && (v1 % 16 == 0 ==> (b0 % 4) * 16 == v1)
      && (v2 % 4 == 0 ==> (b1 % 16) * 4 == v2)
  {
  }

  /** Encoding three bytes and decoding the group gives them back. */
  lemma GroupRoundTrip(b0: Byte, b1: Byte, b2: Byte)
    ensures DecodeGroup(EncodeGroup(b0, b1, b2)) == Success([b0, b1, b2])
  {
    var v0, v1, v2, v3 := b0 / 4, (b0 % 4) * 16 + b1 / 16, (b1 % 16) * 4 + b2 / 64, b2 % 64;
    GroupArithmetic(b0, b1, b2);
    SextetCharInverse(v0);
    SextetCharInverse(v1);
    SextetCharInverse(v2);
    SextetCharInverse(v3);
  }

  /** A single byte, encoded as a group with two padding characters,
      decodes back. */
  lemma OneByteRoundTrip(b0: Byte)
    ensures DecodeFinalGroup([SextetChar(b0 / 4), SextetChar((b0 % 4) * 16), '=', '=']) == Success([b0])
  {
    var v0, v1 := b0 / 4, (b0 % 4) * 16;
    GroupArithmetic(b0, 0, 0);
    SextetCharInverse(v0);
    SextetCharInverse(v1);
  }

  /** Two bytes, encoded as a group with one padding character, decode back. */
  lemma TwoBytesRoundTrip(b0: Byte, b1: Byte)
    ensures var q := [SextetChar(b0 / 4), SextetChar((b0 % 4) * 16 + b1 / 16), SextetChar((b1 % 16) * 4), '='];
      DecodeFinalGroup(q) == Success([b0, b1])
  {
    var v0, v1, v2 := b0 / 4, (b0 % 4) * 16 + b1 / 16, (b1 % 16) * 4;
    GroupArithmetic(b0, b1, 0);
    SextetCharInverse(v0);
    SextetCharInverse(v1);
    SextetCharInverse(v2);
    var q := [SextetChar(v0), SextetChar(v1), SextetChar(v2), '='];
    assert q[2] != '=' by { assert CharSextet(q[2]).Some?; }
  }

  /** Decoding undoes encoding: every byte string survives the round trip. */
  lemma {:induction false} DecodeEncode(b: seq<Byte>)
    ensures Decode(Encode(b)) == Success(b)
    decreases |b|
  {
    if |b| == 1 {
      OneByteRoundTrip(b[0]);
      assert b == [b[0]];
    } else if |b| == 2 {
      TwoBytesRoundTrip(b[0], b[1]);
      assert b == [b[0], b[1]];
    } else if |b| == 3 {
      GroupRoundTrip(b[0], b[1], b[2]);
      var g := EncodeGroup(b[0], b[1], b[2]);
      assert Encode(b) == g;
      assert g[3] != '=' by { assert CharSextet(g[3]).Some?; }
      assert b == [b[0], b[1], b[2]];
    } else if |b| > 3 {
      DecodeEncode(b[3..]);
      GroupsRoundTrip(b);
    }
  }

  /** One full group in front of a non-empty remainder. */
  lemma {:induction false} GroupsRoundTrip(b: seq<Byte>)
    requires |b| > 3 && Decode(Encode(b[3..])) == Success(b[3..])
    ensures Decode(Encode(b)) == Success(b)
  {
    var head := [b[0], b[1], b[2]];
    assert b == head + b[3..];
    var g := EncodeGroup(b[0], b[1], b[2]);
    var rest := Encode(b[3..]);
    EncodeCons(b);
    GroupRoundTrip(b[0], b[1], b[2]);
    assert DecodeGroups(rest) == Success(b[3..]);
    DecodeGroupsCons(g, rest, head, b[3..]);
  }

  lemma {:induction false} EncodeCons(b: seq<Byte>)
    requires |b| > 3
    ensures Encode(b) == EncodeGroup(b[0], b[1], b[2]) + Encode(b[3..])
  {
  }

  /** Decoding a full group followed by more groups concatenates the bytes. */
  lemma {:induction false} DecodeGroupsCons(g: string, rest: string, head: seq<Byte>, tail: seq<Byte>)
    requires |g| == 4 && |rest| > 0 && |rest| % 4 == 0
    requires DecodeGroup(g) == Success(head) && DecodeGroups(rest) == Success(tail)
    ensures DecodeGroups(g + rest) == Success(head + tail)
  {
    var s := g + rest;
    assert s[..4] == g && s[4..] == rest;
  }

  /** Encoding undoes decoding: the only text that decodes to a byte string is
      that string's encoding, so accepted input is already canonical. */
  lemma {:induction false} EncodeDecode(s: string)
    requires Decode(s).Success?
    ensures Encode(Decode(s).value) == s
    decreases |s|, 1
  {
    if |s| == 4 {
      FinalGroupCanonical(s);
    } else if |s| > 4 {
      MultiGroupCanonical(s);
    }
  }

  lemma {:induction false} MultiGroupCanonical(s: string)
    requires |s| > 4 && Decode(s).Success?
    ensures Encode(Decode(s).value) == s
    decreases |s|, 0
  {
    var q, rest := s[..4], s[4..];
    assert DecodeGroups(s).Success?;
    assert DecodeGroup(q).Success?;
    var head := DecodeGroup(q).value;
    GroupCanonical(q);
    assert Decode(rest) == DecodeGroups(rest);
    var tail := Decode(rest).value;
    assert Decode(s).value == head + tail;
    EncodeDecode(rest);
    var b := head + tail;
    assert b[..3] == head && b[3..] == tail;
    assert Encode(b) == EncodeGroup(b[0], b[1], b[2]) + Encode(b[3..]);
    assert s == q + rest;
  }

  lemma {:induction false} GroupCanonical(q: string)
    requires |q| == 4 && DecodeGroup(q).Success?
    ensures var b := DecodeGroup(q).value; |b| == 3 && EncodeGroup(b[0], b[1], b[2]) == q
  {
    var v0, v1, v2, v3 := CharSextet(q[0]).value, CharSextet(q[1]).value, CharSextet(q[2]).value, CharSextet(q[3]).value;
    SextetArithmetic(v0, v1, v2, v3);
  }

  lemma {:induction false} FinalGroupCanonical(q: string)
    requires |q| == 4 && DecodeFinalGroup(q).Success?
    ensures Encode(DecodeFinalGroup(q).value) == q
  {
    if q[2] == '=' && q[3] == '=' {
      var v0: int, v1: int := CharSextet(q[0]).value, CharSextet(q[1]).value;
      SextetArithmetic(v0, v1, 0, 0);
      var b: seq<Byte> := [v0 * 4 + v1 / 16];
      assert DecodeFinalGroup(q).value == b;
      assert Encode(b) == [SextetChar(b[0] / 4), SextetChar((b[0] % 4) * 16), '=', '='];
    } else if q[3] == '=' {
      var v0: int, v1: int, v2: int := CharSextet(q[0]).value, CharSextet(q[1]).value, CharSextet(q[2]).value;
      SextetArithmetic(v0, v1, v2, 0);
      var b: seq<Byte> := [v0 * 4 + v1 / 16, (v1 % 16) * 16 + v2 / 4];
      assert DecodeFinalGroup(q).value == b;
      assert Encode(b) == [SextetChar(b[0] / 4), SextetChar((b[0] % 4) * 16 + b[1] / 16), SextetChar((b[1] % 16) * 4), '='];
    } else {
      GroupCanonical(q);
      var b := DecodeGroup(q).value;
      assert Encode(b) == EncodeGroup(b[0], b[1], b[2]) + Encode(b[3..]);
    }
  }
}
