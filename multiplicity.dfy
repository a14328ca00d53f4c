/** `Multiplicity`: the repetition bounds of a regex quantifier, validated on
    construction and rendered as the shortest .NET quantifier syntax. */
module RxMultiplicity {
  import opened Wrappers
  import opened Utf16

  /** `from` repetitions at least and `to` at most, `to == -1` meaning no
      upper bound. The struct's default value (0, 0) bypasses validation, so
      the datatype admits every pair and `Valid` says which ones the
      constructor lets through. */
  datatype Multiplicity = Multiplicity(from: Int32, to: Int32)

  const Unbounded: Int32 := -1

  predicate Valid(m: Multiplicity) {
    m.from >= 0 && (m.to == Unbounded || m.to >= m.from)
  }

  /** The two-argument constructor: ArgumentException for a negative lower
      bound, or for a bounded upper bound below the lower one. */
  function Make(from: Int32, to: Int32): (r: Result<Multiplicity>)
    ensures r.Success? <==> from >= 0 && (to == -1 || to >= from)
    ensures r.Success? ==> r.value.from == from && r.value.to == to && Valid(r.value)
    ensures r.Failure? ==> r.error == ArgumentException
  {
    if from < 0 then Failure(ArgumentException)
    else if to != Unbounded && to < from then Failure(ArgumentException)
    else Success(Multiplicity(from, to))
  }

  /** The one-argument constructor: exactly `times` repetitions. */
  function Exactly(times: Int32): (r: Result<Multiplicity>)
    ensures r == Make(times, times)
    ensures r.Success? <==> times >= 0
  {
    Make(times, times)
  }

  const ZeroOrMore := Multiplicity(0, Unbounded)
  const ZeroOrOnce := Multiplicity(0, 1)
  const OneOrMore := Multiplicity(1, Unbounded)
  const Once := Multiplicity(1, 1)

  /** The four named constants are what their constructors produce. */
  lemma ConstantsAreConstructed()
    ensures Make(0, -1) == Success(ZeroOrMore)
    ensures Make(0, 1) == Success(ZeroOrOnce)
    ensures Make(1, -1) == Success(OneOrMore)
    ensures Exactly(1) == Success(Once)
  {
  }

  /** `Equals` and `==`: both bounds agree. */
  function Equals(a: Multiplicity, b: Multiplicity): (r: bool)
    ensures r <==> a == b
    ensures r ==> Hash(a) == Hash(b)
  {
    a.from == b.from && a.to == b.to
  }

  /** `!=` is the negation of `==`. */
  function NotEquals(a: Multiplicity, b: Multiplicity): (r: bool)
    ensures r <==> a != b
  {
    !Equals(a, b)
  }

  /** `GetHashCode`: the upper bound shifted left by 11, xor the lower. */
  function Hash(m: Multiplicity): bv32 {
    (Bits(m.to) << 11) ^ Bits(m.from)
  }

  const LeftBrace: CodeUnit := '{' as int
  const RightBrace: CodeUnit := '}' as int
  const Comma: CodeUnit := ',' as int

  function Braced(body: Str): Str {
    [LeftBrace] + body + [RightBrace]
  }

  /** The quantifier text: nothing for exactly once, `{n}` for exactly n,
      `*`, `+` or `{n,}` without an upper bound, `?` for at most once, and
      `{from,to}` for every other range. Only exactly once renders empty,
      and an unbraced quantifier is one of the three symbols. */
  function Pattern(m: Multiplicity): (r: Str)
    ensures r == [] <==> m.from == 1 && m.to == 1
    ensures r != [] && r[0] != LeftBrace ==> |r| == 1 && r[0] in {'*' as int, '+' as int, '?' as int}
  {
    if m.from == m.to then
      if m.from == 1 then [] else Braced(Decimal(m.from))
    else if m.to == Unbounded then
      if m.from == 0 then ['*' as int]
      else if m.from == 1 then ['+' as int]
      else Braced(Decimal(m.from) + [Comma])
    else if m.to == 1 then ['?' as int]
    else Braced(Decimal(m.from) + [Comma] + Decimal(m.to))
  }

  predicate AllDigits(s: Str) {
    forall i :: 0 <= i < |s| ==> IsDecimalDigit(s[i])
  }

  /** Where the leading run of decimal digits ends. */
  function DigitRunLength(s: Str): (n: nat)
    ensures n <= |s|
  {
    if s == [] || !IsDecimalDigit(s[0]) then 0 else 1 + DigitRunLength(s[1..])
  }

  lemma {:induction false} DigitRunBeforeNonDigit(x: Str, c: CodeUnit, y: Str)
    requires AllDigits(x) && !IsDecimalDigit(c)
    ensures DigitRunLength(x + [c] + y) == |x|
  {
    if x != [] {
      assert (x + [c] + y)[1..] == x[1..] + [c] + y;
      DigitRunBeforeNonDigit(x[1..], c, y);
    }
  }

  /** A digit run followed by a non-digit splits a string in one way only. */
  lemma SplitAfterDigits(x: Str, c: CodeUnit, y: Str, x2: Str, c2: CodeUnit, y2: Str)
    requires AllDigits(x) && AllDigits(x2)
    requires !IsDecimalDigit(c) && !IsDecimalDigit(c2)
    requires x + [c] + y == x2 + [c2] + y2
    ensures x == x2 && c == c2 && y == y2
  {
    var s := x + [c] + y;
    DigitRunBeforeNonDigit(x, c, y);
    DigitRunBeforeNonDigit(x2, c2, y2);
    assert x == s[..|x|] == x2;
    assert [c] + y == s[|x|..] == [c2] + y2;
    assert y == ([c] + y)[1..] == ([c2] + y2)[1..] == y2;
  }

  /** The text between the braces of a braced quantifier: a digit run, then
      `}` for `{n}` or `,` for the two forms with a comma. */
  lemma BracedShape(m: Multiplicity)
    requires Valid(m)
    requires |Pattern(m)| > 0 && Pattern(m)[0] == LeftBrace
    ensures m.from == m.to ==>
      Pattern(m)[1..] == Decimal(m.from) + [RightBrace] + []
    ensures m.from != m.to && m.to == Unbounded ==>
      Pattern(m)[1..] == Decimal(m.from) + [Comma] + [RightBrace]
    ensures m.from != m.to && m.to != Unbounded ==>
      Pattern(m)[1..] == Decimal(m.from) + [Comma] + (Decimal(m.to) + [RightBrace])
  {
    if m.from == m.to {
      assert m.from != 1;
    } else if m.to == Unbounded {
      assert m.from != 0 && m.from != 1;
    } else {
      assert m.to != 1;
    }
  }

  /** Different valid multiplicities never render the same quantifier, so
      the pattern determines the bounds. */
  lemma PatternInjective(a: Multiplicity, b: Multiplicity)
    requires Valid(a) && Valid(b)
    requires Pattern(a) == Pattern(b)
    ensures a == b
  {
    var p := Pattern(a);
    if |p| > 0 && p[0] == LeftBrace {
      BracedShape(a);
      BracedShape(b);
      var da, db := Decimal(a.from), Decimal(b.from);
      var comma, close := Comma, RightBrace;
      if a.from == a.to && b.from == b.to {
        SplitAfterDigits(da, close, [], db, close, []);
        DecimalInjective(a.from, b.from);
      } else if a.from == a.to {
        if b.to == Unbounded {
          SplitAfterDigits(da, close, [], db, comma, [RightBrace]);
        } else {
          SplitAfterDigits(da, close, [], db, comma, Decimal(b.to) + [RightBrace]);
        }
      } else if b.from == b.to {
        if a.to == Unbounded {
          SplitAfterDigits(da, comma, [RightBrace], db, close, []);
        } else {
          SplitAfterDigits(da, comma, Decimal(a.to) + [RightBrace], db, close, []);
        }
      } else if a.to == Unbounded && b.to == Unbounded {
        SplitAfterDigits(da, comma, [RightBrace], db, comma, [RightBrace]);
        DecimalInjective(a.from, b.from);
      } else if a.to == Unbounded {
        SplitAfterDigits(da, comma, [RightBrace], db, comma, Decimal(b.to) + [RightBrace]);
      } else if b.to == Unbounded {
        SplitAfterDigits(da, comma, Decimal(a.to) + [RightBrace], db, comma, [RightBrace]);
      } else {
        var ta, tb := Decimal(a.to) + [RightBrace], Decimal(b.to) + [RightBrace];
        SplitAfterDigits(da, comma, ta, db, comma, tb);
        DecimalInjective(a.from, b.from);
        assert Decimal(a.to) == ta[..|ta| - 1] == tb[..|tb| - 1] == Decimal(b.to);
        DecimalInjective(a.to, b.to);
      }
    }
  }

  /** The bounds the multiplicity test table refuses: a negative lower
      bound, and an upper bound below the lower one. */
  lemma RefusedExamples()
    ensures Make(-1, -1).Failure? && Make(-1, 0).Failure? && Make(-1, -2).Failure? && Make(3, -2).Failure?
  {
  }

  /** The named constants of the test table render as `*`, `?`, `+` and
      nothing. */
  lemma SymbolExamples()
    ensures Pattern(Multiplicity(0, -1)) == Lit("*") && Pattern(Multiplicity(0, 1)) == Lit("?")
    ensures Pattern(Multiplicity(1, -1)) == Lit("+") && Pattern(Multiplicity(1, 1)) == []
  {
  }

  /** The bounded quantifiers of the test table are braced with both
      bounds, or with one when they coincide: `{1,2}`, `{2,4}` and `{3}`. */
  lemma BracedExamples()
    ensures Pattern(Multiplicity(1, 2)) == [LeftBrace, '1' as int, Comma, '2' as int, RightBrace]
    ensures Pattern(Multiplicity(2, 4)) == [LeftBrace, '2' as int, Comma, '4' as int, RightBrace]
    ensures Pattern(Multiplicity(3, 3)) == [LeftBrace, '3' as int, RightBrace]
  {
    assert Decimal(1) == ['1' as int] && Decimal(2) == ['2' as int];
    assert Decimal(3) == ['3' as int] && Decimal(4) == ['4' as int];
  }

  /** An unbounded quantifier other than `*` and `+` is braced with a
      trailing comma. */
  lemma OpenBracedExample()
    ensures Pattern(Multiplicity(2, -1)) == [LeftBrace, '2' as int, Comma, RightBrace]
  {
    assert Decimal(2) == ['2' as int];
  }


}
