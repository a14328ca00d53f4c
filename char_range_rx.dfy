/** `CharRangeRx`: an inclusive range of code points, usable only inside a
    character class. */
module RxCharRange {
  import opened Wrappers
  import opened Utf16
  import RxChar

  datatype CharRangeRx = CharRangeRx(from: RxChar.CharRx, to: RxChar.CharRx)

  predicate Valid(r: CharRangeRx) {
    r.from.codePoint <= r.to.codePoint
  }

  /** The constructor: ArgumentException when `to` lies below `from`. */
  function Make(from: RxChar.CharRx, to: RxChar.CharRx): (r: Result<CharRangeRx>)
    ensures r.Success? <==> from.codePoint <= to.codePoint
    ensures r.Success? ==> r.value == CharRangeRx(from, to) && Valid(r.value)
    ensures r.Failure? ==> r.error == ArgumentException
  {
    if to.codePoint < from.codePoint then Failure(ArgumentException)
    else Success(CharRangeRx(from, to))
  }

  /** `Equals` and `==`: both endpoints agree; `!=` negates it. */
  function Equals(a: CharRangeRx, b: CharRangeRx): (r: bool)
    ensures r <==> a == b
    ensures r ==> Hash(a) == Hash(b)
  {
    RxChar.Equals(a.from, b.from) && RxChar.Equals(a.to, b.to)
  }

  function NotEquals(a: CharRangeRx, b: CharRangeRx): (r: bool)
    ensures r <==> a != b
  {
    !Equals(a, b)
  }

  /** `GetHashCode`: the upper end's hash shifted left by 11, xor the lower's. */
  function Hash(r: CharRangeRx): bv32 {
    (Bits(RxChar.Hash(r.to)) << 11) ^ Bits(RxChar.Hash(r.from))
  }

  /** `Pattern` outside a class is refused whatever the range. */
  function Pattern(r: CharRangeRx): (p: Result<Str>)
    ensures p == Failure(InvalidOperationException)
  {
    Failure(InvalidOperationException)
  }

  /** The form a range takes inside brackets: the single character when
      both ends agree, otherwise the two ends joined by `-`. */
  function PatternInsideClass(r: CharRangeRx): (p: Str)
    ensures RxChar.Pattern(r.from) <= p
    ensures p == RxChar.Pattern(r.from) <==> r.from == r.to
  {
    if r.from == r.to then RxChar.Pattern(r.from)
    else RxChar.Pattern(r.from) + ['-' as int] + RxChar.Pattern(r.to)
  }

  /** Reads a range pattern back: one character, optionally followed by `-`
      and a second character that ends the text. */
  function ReadRange(p: Str): Option<(int, int)> {
    match RxChar.Unescape(p)
    case None => None
    case Some((lo, n)) =>
      if n == |p| then Some((lo, lo))
      else if p[n] != '-' as int then None
      else
        match RxChar.Unescape(p[n + 1..])
        case None => None
        case Some((hi, m)) => if n + 1 + m == |p| then Some((lo, hi)) else None
  }

  /** The class-internal pattern determines the characters at both ends. */
  lemma ReadPatternInsideClass(r: CharRangeRx)
    ensures ReadRange(PatternInsideClass(r)) ==
      Some((RxChar.Denoted(r.from), RxChar.Denoted(r.to)))
  {
    var pf, pt := RxChar.Pattern(r.from), RxChar.Pattern(r.to);
    if r.from == r.to {
      RxChar.UnescapePattern(r.from, []);
      assert pf + [] == pf;
    } else {
      var p := PatternInsideClass(r);
      RxChar.UnescapePattern(r.from, ['-' as int] + pt);
      assert p == pf + (['-' as int] + pt);
      assert p[|pf| + 1..] == pt + [];
      RxChar.UnescapePattern(r.to, []);
    }
  }

  /** `a-b` for two letters, just `a` when both ends are `a`. */
  lemma PatternInsideClassExamples()
    ensures PatternInsideClass(CharRangeRx(RxChar.CharRx('a' as int), RxChar.CharRx('b' as int))) == Lit("a-b")
    ensures PatternInsideClass(CharRangeRx(RxChar.CharRx('a' as int), RxChar.CharRx('a' as int))) == Lit("a")
    ensures Make(RxChar.CharRx('b' as int), RxChar.CharRx('a' as int)) == Failure(ArgumentException)
  {
  }
}
