/** .NET strings as sequences of UTF-16 code units, and the few runtime
    conversions the modelled code relies on: decimal and hexadecimal
    formatting of integers and `char.ConvertToUtf32`. */
module Utf16 {
  import opened Wrappers

  /** A .NET `char`: one UTF-16 code unit (surrogates included). */
  type CodeUnit = x: int | 0 <= x < 0x10000

  /** A .NET `string`. */
  type Str = seq<CodeUnit>

  /** A .NET `int`. */
  type Int32 = x: int | -0x8000_0000 <= x < 0x8000_0000

  /** The low 32 bits of an integer: for a 32-bit `int` its two's-complement
      bit pattern, the form in which hash codes are shifted and combined. */
  function Bits(x: int): bv32 {
    (x % 0x1_0000_0000) as bv32
  }

  /** A Unicode scalar value: a code point that is not a surrogate. */
  predicate IsScalar(cp: int) {
    0 <= cp < 0x11_0000 && !(0xD800 <= cp < 0xE000)
  }

  predicate IsHighSurrogate(u: int) { 0xD800 <= u < 0xDC00 }
  predicate IsLowSurrogate(u: int) { 0xDC00 <= u < 0xE000 }

  /** A literal written in Dafny's own string syntax, as code units. */
  function Lit(s: string): (r: Str)
    requires forall i :: 0 <= i < |s| ==> s[i] as int < 0x10000
    ensures |r| == |s|
    ensures forall i :: 0 <= i < |s| ==> r[i] == s[i] as int
  {
    if s == [] then [] else [s[0] as int] + Lit(s[1..])
  }

  const Backslash: CodeUnit := '\\' as int
  const Minus: CodeUnit := '-' as int

  // ---------------------------------------------------------------------
  // Decimal formatting (`int.ToString()`, `string.Format("{0}", n)`)

  function DigitUnit(d: int): (u: CodeUnit)
    requires 0 <= d < 16
    ensures d < 10 ==> u == '0' as int + d
    ensures 10 <= d ==> u == 'A' as int + (d - 10)
  {
    if d < 10 then '0' as int + d else 'A' as int + (d - 10)
  }

  predicate IsDecimalDigit(u: int) { '0' as int <= u <= '9' as int }

  /** The decimal digits of a natural number, most significant first. */
  function Digits(n: nat): (r: Str)
    ensures |r| >= 1
    ensures forall i :: 0 <= i < |r| ==> IsDecimalDigit(r[i])
  {
    if n < 10 then [DigitUnit(n)] else Digits(n / 10) + [DigitUnit(n % 10)]
  }

  /** How a .NET `int` formats in decimal: a minus sign, then the digits. */
  function Decimal(n: int): (r: Str)
    ensures |r| >= 1
    ensures n >= 0 ==> forall i :: 0 <= i < |r| ==> IsDecimalDigit(r[i])
  {
    if n < 0 then [Minus] + Digits(-n) else Digits(n)
  }

  function ParseDigits(s: Str): (n: int)
  {
    if s == [] then 0 else ParseDigits(s[..|s| - 1]) * 10 + (s[|s| - 1] - '0' as int)
  }

  function ParseDecimal(s: Str): int {
    if |s| > 0 && s[0] == Minus then -ParseDigits(s[1..]) else ParseDigits(s)
  }

  lemma {:induction false} DigitsRoundTrip(n: nat)
    ensures ParseDigits(Digits(n)) == n
  {
    if n >= 10 {
      var s := Digits(n);
      assert s[..|s| - 1] == Digits(n / 10);
      DigitsRoundTrip(n / 10);
    }
  }

  /** Decimal formatting loses nothing: parsing it back gives the number. */
  lemma DecimalRoundTrip(n: int)
    ensures ParseDecimal(Decimal(n)) == n
  {
    if n < 0 {
      assert Decimal(n)[1..] == Digits(-n);
      DigitsRoundTrip(-n);
    } else {
      DigitsRoundTrip(n);
    }
  }

  lemma DecimalInjective(a: int, b: int)
    requires Decimal(a) == Decimal(b)
    ensures a == b
  {
    DecimalRoundTrip(a);
    DecimalRoundTrip(b);
  }

  // ---------------------------------------------------------------------
  // Hexadecimal formatting (`n.ToString("X8")`)

  function Pow16(k: nat): (p: nat)
    ensures p >= 1
  {
    if k == 0 then 1 else 16 * Pow16(k - 1)
  }

  /** The last `k` upper-case hexadecimal digits of `n`. */
  function HexDigits(n: nat, k: nat): (r: Str)
    ensures |r| == k
  {
    if k == 0 then [] else HexDigits(n / 16, k - 1) + [DigitUnit(n % 16)]
  }

  /** `ToString("X8")` of a non-negative `int`: eight upper-case hex digits
      (a positive `int` never needs more than eight). */
  function Hex8(n: nat): (r: Str)
    requires n < 0x1_0000_0000
    ensures |r| == 8
  {
    HexDigits(n, 8)
  }

  function HexValue(u: int): int {
    if IsDecimalDigit(u) then u - '0' as int
    else if 'A' as int <= u <= 'F' as int then u - 'A' as int + 10
    else -1
  }

  predicate IsHexDigit(u: int) { HexValue(u) >= 0 }

  function ParseHex(s: Str): int {
    if s == [] then 0 else ParseHex(s[..|s| - 1]) * 16 + HexValue(s[|s| - 1])
  }

  lemma {:induction false} HexDigitsRoundTrip(n: nat, k: nat)
    requires n < Pow16(k)
    ensures ParseHex(HexDigits(n, k)) == n
    ensures forall i :: 0 <= i < k ==> IsHexDigit(HexDigits(n, k)[i])
  {
    if k > 0 {
      var s := HexDigits(n, k);
      assert s[..|s| - 1] == HexDigits(n / 16, k - 1);
      assert n / 16 < Pow16(k - 1) by {
        assert n < 16 * Pow16(k - 1);
      }
      HexDigitsRoundTrip(n / 16, k - 1);
      assert s[|s| - 1] == DigitUnit(n % 16);
    }
  }

  lemma Hex8RoundTrip(n: nat)
    requires n < 0x1_0000_0000
    ensures ParseHex(Hex8(n)) == n
    ensures forall i :: 0 <= i < 8 ==> IsHexDigit(Hex8(n)[i])
  {
    assert Pow16(8) == 0x1_0000_0000;
    HexDigitsRoundTrip(n, 8);
  }

  // ---------------------------------------------------------------------
  // `char.ConvertToUtf32(string, int)` and UTF-16 decoding

  /** The code point starting at index `i`: a BMP unit stands for itself, a
      high surrogate followed by a low one combines; a lone surrogate of
      either kind throws ArgumentException. */
  function ConvertToUtf32(s: Str, i: nat): (r: Result<int>)
    requires i < |s|
    ensures r.Success? ==> IsScalar(r.value)
    ensures r.Success? && r.value > 0xFFFF ==>
      i + 1 < |s| && IsHighSurrogate(s[i]) && IsLowSurrogate(s[i + 1])
    ensures r.Success? && r.value <= 0xFFFF ==> r.value == s[i]
    ensures r.Failure? <==>
      IsLowSurrogate(s[i]) ||
      (IsHighSurrogate(s[i]) && (i + 1 == |s| || !IsLowSurrogate(s[i + 1])))
  {
    if IsHighSurrogate(s[i]) then
      if i + 1 < |s| && IsLowSurrogate(s[i + 1]) then
        Success((s[i] as int - 0xD800) * 0x400 + (s[i + 1] as int - 0xDC00) + 0x1_0000)
      else Failure(ArgumentException)
    else if IsLowSurrogate(s[i]) then Failure(ArgumentException)
    else Success(s[i])
  }

  /** The code points of a well-formed UTF-16 string, or the exception the
      first ill-formed position raises. */
  function Decode(s: Str): Result<seq<int>>
    decreases |s|
  {
    if s == [] then Success([])
    else
      match ConvertToUtf32(s, 0)
      case Failure(e) => Failure(e)
      case Success(c) =>
        var width := if c > 0xFFFF then 2 else 1;
        match Decode(s[width..])
        case Failure(e) => Failure(e)
        case Success(rest) => Success([c] + rest)
  }

  /** UTF-16 encoding of one scalar value. */
  function EncodeOne(cp: int): (r: Str)
    requires IsScalar(cp)
    ensures cp <= 0xFFFF ==> r == [cp]
    ensures cp > 0xFFFF ==> |r| == 2 && IsHighSurrogate(r[0]) && IsLowSurrogate(r[1])
  {
    if cp <= 0xFFFF then [cp]
    else [0xD800 + (cp - 0x1_0000) / 0x400, 0xDC00 + (cp - 0x1_0000) % 0x400]
  }

  function Encode(cps: seq<int>): (r: Str)
    requires forall i :: 0 <= i < |cps| ==> IsScalar(cps[i])
  {
    if cps == [] then [] else EncodeOne(cps[0]) + Encode(cps[1..])
  }

  /** Decoding undoes encoding: every sequence of scalar values survives the
      trip through UTF-16. */
  lemma {:induction false} DecodeEncode(cps: seq<int>)
    requires forall i :: 0 <= i < |cps| ==> IsScalar(cps[i])
    ensures Decode(Encode(cps)) == Success(cps)
  {
    if cps != [] {
      var c := cps[0];
      var s := Encode(cps);
      var head := EncodeOne(c);
      assert s == head + Encode(cps[1..]);
      assert ConvertToUtf32(s, 0) == Success(c);
      assert s[|head|..] == Encode(cps[1..]);
      DecodeEncode(cps[1..]);
      assert cps == [c] + cps[1..];
    }
  }
}
