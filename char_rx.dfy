/** `CharRx`: one code point, rendered as a .NET regex that matches exactly
    that character. */
module RxChar {
  import opened Wrappers
  import opened Utf16

  /** A code point held as a plain `int`; nothing checks its range. */
  datatype CharRx = CharRx(codePoint: Int32)

  /** `Equals` and `==` compare code points, and the hash code is the code
      point itself, so equal values hash alike. */
  function Equals(a: CharRx, b: CharRx): (r: bool)
    ensures r <==> a == b
    ensures r ==> Hash(a) == Hash(b)
  {
    a.codePoint == b.codePoint
  }

  function Hash(c: CharRx): Int32 {
    c.codePoint
  }

  const Tab: CodeUnit := 0x09
  const LineFeed: CodeUnit := 0x0A
  const FormFeed: CodeUnit := 0x0C
  const CarriageReturn: CodeUnit := 0x0D

  /** The code units `Regex.Escape` puts a backslash in front of: the tab,
      line feed, form feed, carriage return, space and `#$()*+.?[\^{|`. */
  predicate IsMetachar(u: int) {
    u == Tab || u == LineFeed || u == FormFeed || u == CarriageReturn ||
    u == ' ' as int || u == '#' as int || u == '$' as int || u == '(' as int ||
    u == ')' as int || u == '*' as int || u == '+' as int || u == '.' as int ||
    u == '?' as int || u == '[' as int || u == '\\' as int || u == '^' as int ||
    u == '{' as int || u == '|' as int
  }

  /** What a metacharacter is written as after its backslash: the four
      control characters become a letter, every other stands for itself. */
  function EscapeLetter(u: CodeUnit): CodeUnit {
    if u == LineFeed then 'n' as int
    else if u == CarriageReturn then 'r' as int
    else if u == Tab then 't' as int
    else if u == FormFeed then 'f' as int
    else u
  }

  /** `Regex.Escape` of a one-unit string. */
  function Escape(u: CodeUnit): (r: Str)
    ensures IsMetachar(u) ==> r == [Backslash, EscapeLetter(u)]
    ensures !IsMetachar(u) ==> r == [u]
  {
    if IsMetachar(u) then [Backslash, EscapeLetter(u)] else [u]
  }

  /** The character the pattern matches: a code point above the BMP as it
      is, anything else cut to 16 bits by the `(char)` cast. */
  function Denoted(c: CharRx): int {
    if c.codePoint > 0xFFFF then c.codePoint else c.codePoint % 0x1_0000
  }

  /** Above U+FFFF: `\U` and the code point as eight upper-case hex digits;
      otherwise the escaped 16-bit character. */
  function Pattern(c: CharRx): (r: Str)
    ensures 1 <= |r| <= 10
  {
    if c.codePoint > 0xFFFF then [Backslash, 'U' as int] + Hex8(c.codePoint)
    else Escape(c.codePoint % 0x1_0000)
  }

  /** Reads one character's pattern off the front of `p`: the character it
      matches and how many code units it took, or None if `p` does not start
      with one. */
  function Unescape(p: Str): (r: Option<(int, nat)>)
    ensures r.Some? ==> 1 <= r.value.1 <= |p|
  {
    if p == [] then None
    else if p[0] != Backslash then Some((p[0] as int, 1))
    else if |p| < 2 then None
    else if p[1] == 'U' as int then
      if |p| >= 10 && forall i :: 2 <= i < 10 ==> IsHexDigit(p[i]) then
        Some((ParseHex(p[2..10]), 10))
      else None
    else if p[1] == 'n' as int then Some((LineFeed, 2))
    else if p[1] == 'r' as int then Some((CarriageReturn, 2))
    else if p[1] == 't' as int then Some((Tab, 2))
    else if p[1] == 'f' as int then Some((FormFeed, 2))
    else if IsMetachar(p[1]) then Some((p[1] as int, 2))
    else None
  }

  /** A character's pattern can be read back from the front of any text:
      the reader recovers the denoted character and stops exactly at the
      pattern's end, so patterns of consecutive characters never blur. */
  lemma UnescapePattern(c: CharRx, rest: Str)
    ensures Unescape(Pattern(c) + rest) == Some((Denoted(c), |Pattern(c)|))
  {
    var p := Pattern(c) + rest;
    if c.codePoint > 0xFFFF {
      Hex8RoundTrip(c.codePoint);
      assert p[2..10] == Hex8(c.codePoint);
    }
  }

  /** The escaping the tests spell out: `\ . ^ $ * + ? ( ) { [ |` gain a
      backslash, `- } ]` and letters do not. */
  lemma EscapeExamples()
    ensures Pattern(CharRx('a' as int)) == Lit("a")
    ensures Pattern(CharRx('\\' as int)) == Lit("\\\\")
    ensures Pattern(CharRx('.' as int)) == Lit("\\.")
    ensures Pattern(CharRx('-' as int)) == Lit("-")
    ensures Pattern(CharRx('}' as int)) == Lit("}")
    ensures Pattern(CharRx(']' as int)) == Lit("]")
    ensures Pattern(CharRx('|' as int)) == Lit("\\|")
  {
  }

  /** U+1D400 renders as `\U0001D400`. */
  lemma SupplementaryExample()
    ensures Pattern(CharRx(0x1D400)) == Lit("\\U0001D400")
  {
    Hex8Example();
    var expected := Lit("\\U0001D400");
    assert |expected| == 10;
    assert expected == [Backslash, 'U' as int] + [48, 48, 48, 49, 68, 52, 48, 48];
  }

  /** The eight digits of U+1D400, one division by 16 at a time. */
  lemma Hex8Example()
    ensures Hex8(0x1D400) == [48, 48, 48, 49, 68, 52, 48, 48]
  {
    assert HexDigits(0, 3) == [48, 48, 48];
    assert HexDigits(0x1, 4) == [48, 48, 48, 49];
    assert HexDigits(0x1D, 5) == [48, 48, 48, 49, 68];
    assert HexDigits(0x1D4, 6) == [48, 48, 48, 49, 68, 52];
    assert HexDigits(0x1D40, 7) == [48, 48, 48, 49, 68, 52, 48];
  }
}
