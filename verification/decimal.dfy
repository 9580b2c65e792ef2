/** Decimal text for signed 64-bit integers: the parser behind Rust's
    `str::parse::<i64>()` and the decimal `Display` of an integer. */
module Decimal {
  import opened Results
  import opened Ints

  /** The error kinds of Rust's `ParseIntError`. */
  datatype ParseError = Empty | InvalidDigit | PosOverflow | NegOverflow

  predicate IsDigit(c: char) {
    '0' <= c <= '9'
  }

  function DigitValue(c: char): (d: int)
    requires IsDigit(c)
    ensures 0 <= d < 10
  {
    c as int - '0' as int
  }

  function DigitChar(d: int): (c: char)
    requires 0 <= d < 10
    ensures IsDigit(c) && DigitValue(c) == d
  {
    ('0' as int + d) as char
  }

  predicate AllDigits(s: string) {
    forall i :: 0 <= i < |s| ==> IsDigit(s[i])
  }

  /** The number a string of decimal digits denotes, most significant first. */
  function DigitsValue(s: string): nat
    requires AllDigits(s)
    decreases |s|
  {
    if |s| == 0 then 0 else DigitsValue(s[..|s| - 1]) * 10 + DigitValue(s[|s| - 1])
  }

  /** Reference syntax: an optional sign followed by at least one digit. */
  predicate IsDecimalLiteral(s: string) {
    && |s| > 0
    && if s[0] == '+' || s[0] == '-' then |s| > 1 && AllDigits(s[1..]) else AllDigits(s)
  }

  /** Reference value of a literal. */
  function LiteralValue(s: string): int
    requires IsDecimalLiteral(s)
  {
    if s[0] == '-' then -(DigitsValue(s[1..]) as int)
    else if s[0] == '+' then DigitsValue(s[1..])
    else DigitsValue(s)
  }

  /** The decimal text of a signed 64-bit value: what `parse::<i64>()`
      accepts. */
  predicate IsI64Text(s: string) {
    IsDecimalLiteral(s) && InI64(LiteralValue(s))
  }

  function Signed(positive: bool, n: nat): int {
    if positive then n else -(n as int)
  }

  /** The digit loop of the library parser: digits are read left to right into
      an accumulator with checked multiply-and-add (or multiply-and-subtract
      for a negative number); the first bad digit or overflow stops it. */
  function Accumulate(ds: string, positive: bool): Result<int, ParseError>
    decreases |ds|
  {
    if |ds| == 0 then Success(0)
    else
      match Accumulate(ds[..|ds| - 1], positive)
      case Failure(e) => Failure(e)
      case Success(acc) =>
        var c := ds[|ds| - 1];
        if !IsDigit(c) then Failure(InvalidDigit)
        else if positive then
          (if acc * 10 + DigitValue(c) > MaxI64 then Failure(PosOverflow)
           else Success(acc * 10 + DigitValue(c)))
        else
          (if acc * 10 - DigitValue(c) < MinI64 then Failure(NegOverflow)
           else Success(acc * 10 - DigitValue(c)))
  }

  /** The accumulation succeeds exactly on digit strings whose signed value
      fits in 64 bits, and then yields that value. */
  lemma {:induction false} AccumulateValue(ds: string, positive: bool)
    ensures Accumulate(ds, positive).Success? <==>
              AllDigits(ds) && InI64(Signed(positive, DigitsValue(ds)))
    ensures Accumulate(ds, positive).Success? ==>
              Accumulate(ds, positive).value == Signed(positive, DigitsValue(ds))
    ensures Accumulate(ds, positive).Failure? && AllDigits(ds) ==>
              Accumulate(ds, positive).error == (if positive then PosOverflow else NegOverflow)
    decreases |ds|
  {
    if |ds| > 0 {
      var p := ds[..|ds| - 1];
      var c := ds[|ds| - 1];
      AccumulateValue(p, positive);
      assert AllDigits(ds) <==> AllDigits(p) && IsDigit(c) by {
        assert forall i :: 0 <= i < |p| ==> p[i] == ds[i];
      }
      if AllDigits(ds) {
        assert DigitsValue(ds) == DigitsValue(p) * 10 + DigitValue(c);
      }
    }
  }

  /** Rust's `str::parse::<i64>()`. */
  function ParseI64(s: string): (r: Result<int, ParseError>)
    ensures r.Success? <==> IsDecimalLiteral(s) && InI64(LiteralValue(s))
    ensures r.Success? ==> r.value == LiteralValue(s)
    ensures |s| == 0 ==> r == Failure(Empty)
    ensures r.Failure? && IsDecimalLiteral(s) ==>
              r.error == (if s[0] == '-' then NegOverflow else PosOverflow)
  {
    if |s| == 0 then Failure(Empty)
    else if (s[0] == '+' || s[0] == '-') && |s| == 1 then Failure(InvalidDigit)
    else if s[0] == '+' then AccumulateValue(s[1..], true); Accumulate(s[1..], true)
    else if s[0] == '-' then AccumulateValue(s[1..], false); Accumulate(s[1..], false)
    else AccumulateValue(s, true); Accumulate(s, true)
  }

  /** Decimal digits of a natural number, without leading zeros. */
  function NatDigits(n: nat): (s: string)
    ensures |s| > 0 && AllDigits(s) && DigitsValue(s) == n
    ensures s[0] == '0' ==> n == 0 && |s| == 1
    decreases n
  {
    if n < 10 then [DigitChar(n)]
    else
      var hi := NatDigits(n / 10);
      var s := hi + [DigitChar(n % 10)];
      assert s[..|s| - 1] == hi;
      s
  }

  /** Rust's decimal `Display` of an integer (as used by `format!`). */
  function FormatInt(v: int): (s: string)
    ensures IsDecimalLiteral(s) && LiteralValue(s) == v
    ensures forall i :: 0 <= i < |s| ==> IsDigit(s[i]) || (i == 0 && s[i] == '-')
    ensures s[0] == '-' <==> v < 0
    ensures var d := if v < 0 then s[1..] else s; |d| > 0 && (d[0] == '0' ==> |d| == 1)
  {
    if v < 0 then
      var d := NatDigits(-v);
      assert ("-" + d)[1..] == d;
      "-" + d
    else NatDigits(v)
  }

  /** Formatting then parsing gives back every 64-bit value. */
  lemma FormatParse(v: int)
    requires InI64(v)
    ensures ParseI64(FormatInt(v)) == Success(v)
  {
  }

  /** Appending one digit multiplies the value by ten and adds the digit. */
  lemma DigitsStep(t: string, s: string, c: char)
    requires t == s + [c]
    requires AllDigits(s) && IsDigit(c)
    ensures AllDigits(t) && DigitsValue(t) == DigitsValue(s) * 10 + DigitValue(c)
  {
    assert t[..|s|] == s;
  }

  /** The digits shared by both ends of the 64-bit range, in three steps. */
  lemma BoundaryDigits()
    ensures AllDigits("922337203685477580") && DigitsValue("922337203685477580") == 922337203685477580
  {
    BoundaryDigits1();
    BoundaryDigits2();
    BoundaryDigits3();
  }

  lemma BoundaryDigits1()
    ensures AllDigits("922337") && DigitsValue("922337") == 922337
  {
    DigitsStep("92", "9", '2');
    assert DigitsValue("92") == 92;
    DigitsStep("922", "92", '2');
    assert DigitsValue("922") == 922;
    DigitsStep("9223", "922", '3');
    assert DigitsValue("9223") == 9223;
    DigitsStep("92233", "9223", '3');
    assert DigitsValue("92233") == 92233;
    DigitsStep("922337", "92233", '7');
    assert DigitsValue("922337") == 922337;
  }

  lemma BoundaryDigits2()
    requires AllDigits("922337") && DigitsValue("922337") == 922337
    ensures AllDigits("922337203685") && DigitsValue("922337203685") == 922337203685
  {
    DigitsStep("9223372", "922337", '2');
    assert DigitsValue("9223372") == 9223372;
    DigitsStep("92233720", "9223372", '0');
    assert DigitsValue("92233720") == 92233720;
    DigitsStep("922337203", "92233720", '3');
    assert DigitsValue("922337203") == 922337203;
    DigitsStep("9223372036", "922337203", '6');
    assert DigitsValue("9223372036") == 9223372036;
    DigitsStep("92233720368", "9223372036", '8');
    assert DigitsValue("92233720368") == 92233720368;
    DigitsStep("922337203685", "92233720368", '5');
    assert DigitsValue("922337203685") == 922337203685;
  }

  lemma BoundaryDigits3()
    requires AllDigits("922337203685") && DigitsValue("922337203685") == 922337203685
    ensures AllDigits("922337203685477580") && DigitsValue("922337203685477580") == 922337203685477580
  {
    DigitsStep("9223372036854", "922337203685", '4');
    assert DigitsValue("9223372036854") == 9223372036854;
    DigitsStep("92233720368547", "9223372036854", '7');
    assert DigitsValue("92233720368547") == 92233720368547;
    DigitsStep("922337203685477", "92233720368547", '7');
    assert DigitsValue("922337203685477") == 922337203685477;
    DigitsStep("9223372036854775", "922337203685477", '5');
    assert DigitsValue("9223372036854775") == 9223372036854775;
    DigitsStep("92233720368547758", "9223372036854775", '8');
    assert DigitsValue("92233720368547758") == 92233720368547758;
    DigitsStep("922337203685477580", "92233720368547758", '0');
    assert DigitsValue("922337203685477580") == 922337203685477580;
  }

  /** Concrete edge cases: both ends of the 64-bit range parse, one step
      beyond either end overflows with the sign's error, and a string that
      is not a number is rejected. */
  lemma ParseEdgeCases()
    ensures ParseI64("-9223372036854775808") == Success(MinI64)
    ensures ParseI64("9223372036854775807") == Success(MaxI64)
    ensures ParseI64("9223372036854775808") == Failure(PosOverflow)
    ensures ParseI64("-9223372036854775809") == Failure(NegOverflow)
    ensures ParseI64("abc").Failure?
    ensures ParseI64("") == Failure(Empty)
    ensures ParseI64("-") == Failure(InvalidDigit)
  {
    BoundaryDigits();
    DigitsStep("9223372036854775807", "922337203685477580", '7');
    DigitsStep("9223372036854775808", "922337203685477580", '8');
    DigitsStep("9223372036854775809", "922337203685477580", '9');
    assert "-9223372036854775808"[1..] == "9223372036854775808";
    assert "-9223372036854775809"[1..] == "9223372036854775809";
  }
}
