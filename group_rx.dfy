/** `GroupRx`: a quantified group of sub-expressions, and the `*` operators
    of `CharSequenceRx` that build one. Every `IRx` kind appears here as a
    case of `Rx`. */
module RxGroup {
  import opened Wrappers
  import opened Utf16
  import RxMultiplicity
  import RxChar
  import RxCharSequence
  import RxCharClass

  /** The expressions that have a `Pattern`. */
  datatype Rx =
    | Quantifier(multiplicity: RxMultiplicity.Multiplicity)
    | Single(single: RxCharClass.SingleCharRx)
    | Sequence(sequence: RxCharSequence.CharSequenceRx)
    | Group(group: GroupRx)

  datatype GroupRx = GroupRx(multiplicity: RxMultiplicity.Multiplicity, items: seq<Rx>)

  /** The constructor: ArgumentNullException for a null array,
      ArgumentException for an empty one. */
  function Make(m: RxMultiplicity.Multiplicity, items: Option<seq<Rx>>): (r: Result<GroupRx>)
    ensures items.None? <==> r == Failure(ArgumentNullException)
    ensures items == Some([]) <==> r == Failure(ArgumentException)
    ensures r.Success? ==> r.value.multiplicity == m && Some(r.value.items) == items && |r.value.items| > 0
  {
    match items
    case None => Failure(ArgumentNullException)
    case Some(xs) => if |xs| == 0 then Failure(ArgumentException) else Success(GroupRx(m, xs))
  }

  /** `Pattern` of every kind of expression; groups render as intended
      (see `Pattern` and `PatternAsWritten`). */
  function RxPattern(x: Rx): Result<Str> {
    match x
    case Quantifier(m) => Success(RxMultiplicity.Pattern(m))
    case Single(s) => RxCharClass.SinglePattern(s)
    case Sequence(s) => Success(RxCharSequence.Pattern(s))
    case Group(g) => Pattern(g)
  }

  /** The items' patterns concatenated in order; the first item that
      refuses to render decides the exception. */
  function ItemsPattern(items: seq<Rx>): Result<Str> {
    if items == [] then Success([])
    else
      match RxPattern(items[0])
      case Failure(e) => Failure(e)
      case Success(head) =>
        match ItemsPattern(items[1..])
        case Failure(e) => Failure(e)
        case Success(rest) => Success(head + rest)
  }

  /** The group's pattern as evidently intended: a single item followed by
      the quantifier, several items parenthesised and then quantified. */
  function Pattern(g: GroupRx): Result<Str> {
    if |g.items| == 1 then
      match RxPattern(g.items[0])
      case Failure(e) => Failure(e)
      case Success(p) => Success(p + RxMultiplicity.Pattern(g.multiplicity))
    else
      match ItemsPattern(g.items)
      case Failure(e) => Failure(e)
      case Success(p) => Success(['(' as int] + p + [')' as int] + RxMultiplicity.Pattern(g.multiplicity))
  }

  /** The group's pattern as the code computes it: with several items the
      format string `({0}){1}` receives one argument for two placeholders,
      so once the items have rendered, formatting throws FormatException.
      Nested groups render as written too. */
  function PatternAsWritten(g: GroupRx): Result<Str> {
    if |g.items| == 1 then
      match RxPatternAsWritten(g.items[0])
      case Failure(e) => Failure(e)
      case Success(p) => Success(p + RxMultiplicity.Pattern(g.multiplicity))
    else
      match ItemsPatternAsWritten(g.items)
      case Failure(e) => Failure(e)
      case Success(_) => Failure(FormatException)
  }

  /** `Pattern` of every kind of expression as the code computes it: a
      nested group goes through `PatternAsWritten`. */
  function RxPatternAsWritten(x: Rx): Result<Str> {
    match x
    case Quantifier(m) => Success(RxMultiplicity.Pattern(m))
    case Single(s) => RxCharClass.SinglePattern(s)
    case Sequence(s) => Success(RxCharSequence.Pattern(s))
    case Group(g) => PatternAsWritten(g)
  }

  /** The items' patterns as the code computes them, concatenated in order. */
  function ItemsPatternAsWritten(items: seq<Rx>): Result<Str> {
    if items == [] then Success([])
    else
      match RxPatternAsWritten(items[0])
      case Failure(e) => Failure(e)
      case Success(head) =>
        match ItemsPatternAsWritten(items[1..])
        case Failure(e) => Failure(e)
        case Success(rest) => Success(head + rest)
  }

  /** The defect: no group of two or more items ever renders as written. */
  lemma AsWrittenMultiItemFails(g: GroupRx)
    requires |g.items| >= 2
    ensures PatternAsWritten(g).Failure?
    ensures ItemsPatternAsWritten(g.items).Success? ==> PatternAsWritten(g) == Failure(FormatException)
  {
  }

  /** A group of several items fails as written even when it is nested as
      the only item of another group: the outer group renders the inner
      one, which throws, where `(\\s)+` is intended. */
  lemma NestedGroupWitness()
    ensures PatternAsWritten(GroupRx(RxMultiplicity.Once, [Group(GroupRx(RxMultiplicity.OneOrMore,
      [Single(RxCharClass.Char(RxChar.CharRx('\\' as int))), Single(RxCharClass.Char(RxChar.CharRx('s' as int)))]))]))
      == Failure(FormatException)
    ensures Pattern(GroupRx(RxMultiplicity.Once, [Group(GroupRx(RxMultiplicity.OneOrMore,
      [Single(RxCharClass.Char(RxChar.CharRx('\\' as int))), Single(RxCharClass.Char(RxChar.CharRx('s' as int)))]))]))
      == Success(Lit("(\\\\s)+"))
  {
    FormatExceptionWitness();
    assert RxMultiplicity.Pattern(RxMultiplicity.Once) == [];
    assert Lit("(\\\\s)+") + [] == Lit("(\\\\s)+");
  }

  /** The tests' group of `\` and `s` with `+`: the code throws where
      `(\\s)+` is expected, and the intended rendering produces it. */
  lemma FormatExceptionWitness()
    ensures PatternAsWritten(GroupRx(RxMultiplicity.OneOrMore,
      [Single(RxCharClass.Char(RxChar.CharRx('\\' as int))), Single(RxCharClass.Char(RxChar.CharRx('s' as int)))]))
      == Failure(FormatException)
    ensures Pattern(GroupRx(RxMultiplicity.OneOrMore,
      [Single(RxCharClass.Char(RxChar.CharRx('\\' as int))), Single(RxCharClass.Char(RxChar.CharRx('s' as int)))]))
      == Success(Lit("(\\\\s)+"))
  {
    EscapedSpaceItems();
    assert RxMultiplicity.Pattern(RxMultiplicity.OneOrMore) == Lit("+");
    assert Lit("(\\\\s)+") == ['(' as int] + Lit("\\\\s") + [')' as int] + Lit("+");
  }

  /** The items of the witness render as an escaped backslash and `s`. */
  lemma EscapedSpaceItems()
    ensures ItemsPattern([Single(RxCharClass.Char(RxChar.CharRx('\\' as int))),
                          Single(RxCharClass.Char(RxChar.CharRx('s' as int)))]) == Success(Lit("\\\\s"))
    ensures ItemsPatternAsWritten([Single(RxCharClass.Char(RxChar.CharRx('\\' as int))),
                                   Single(RxCharClass.Char(RxChar.CharRx('s' as int)))]) == Success(Lit("\\\\s"))
  {
    var bs := Single(RxCharClass.Char(RxChar.CharRx('\\' as int)));
    var s := Single(RxCharClass.Char(RxChar.CharRx('s' as int)));
    assert [bs, s][1..] == [s] && [s][1..] == [];
    assert RxChar.Pattern(RxChar.CharRx('\\' as int)) == Lit("\\\\");
    assert RxChar.Pattern(RxChar.CharRx('s' as int)) == Lit("s");
    assert RxPattern(bs) == Success(Lit("\\\\"));
    assert RxPattern(s) == Success(Lit("s"));
    assert ItemsPattern([s]) == Success(Lit("s") + []);
    assert RxPatternAsWritten(bs) == Success(Lit("\\\\"));
    assert RxPatternAsWritten(s) == Success(Lit("s"));
    assert ItemsPatternAsWritten([s]) == Success(Lit("s") + []);
    assert Lit("\\\\s") == Lit("\\\\") + Lit("s");
  }


  /** The intended rendering agrees with the code wherever the code
      produces a pattern, fails only when an item fails (with that item's
      exception), and otherwise wraps the items' concatenation. */
  lemma {:induction false} PatternExtendsAsWritten(g: GroupRx)
    requires |g.items| > 0
    ensures PatternAsWritten(g).Success? ==> Pattern(g) == PatternAsWritten(g)
    ensures Pattern(g).Success? <==> ItemsPattern(g.items).Success?
    ensures Pattern(g).Failure? ==> Pattern(g) == ItemsPattern(g.items)
    ensures |g.items| >= 2 && ItemsPattern(g.items).Success? ==>
      Pattern(g).value == ['(' as int] + ItemsPattern(g.items).value + [')' as int] + RxMultiplicity.Pattern(g.multiplicity)
  {
    GroupAgrees(g);
    if |g.items| == 1 {
      assert g.items[1..] == [];
    }
  }

  /** Wherever the code renders a group, the intended rendering agrees. */
  lemma {:induction false} GroupAgrees(g: GroupRx)
    ensures PatternAsWritten(g).Success? ==> Pattern(g) == PatternAsWritten(g)
    decreases g, 2
  {
    if |g.items| == 1 {
      RxAgrees(g.items[0]);
    } else {
      ItemsAgree(g.items);
    }
  }

  /** Wherever the code renders an expression, the intended rendering agrees. */
  lemma {:induction false} RxAgrees(x: Rx)
    ensures RxPatternAsWritten(x).Success? ==> RxPattern(x) == RxPatternAsWritten(x)
    decreases x, 1
  {
    match x
    case Group(g) => GroupAgrees(g);
    case _ =>
  }

  /** Wherever the code renders a list of items, the intended rendering agrees. */
  lemma {:induction false} ItemsAgree(items: seq<Rx>)
    ensures ItemsPatternAsWritten(items).Success? ==> ItemsPattern(items) == ItemsPatternAsWritten(items)
    decreases items, 0
  {
    if items != [] {
      RxAgrees(items[0]);
      ItemsAgree(items[1..]);
    }
  }

  /** `CharSequenceRx * Multiplicity`: a one-item group. */
  function Times(s: RxCharSequence.CharSequenceRx, m: RxMultiplicity.Multiplicity): (r: GroupRx)
    ensures Make(m, Some([Sequence(s)])) == Success(r)
  {
    GroupRx(m, [Sequence(s)])
  }

  /** `CharSequenceRx * int`: a one-item group repeated exactly `times`
      times; a negative count fails in `Multiplicity`'s constructor. */
  function TimesCount(s: RxCharSequence.CharSequenceRx, times: Int32): (r: Result<GroupRx>)
    ensures r.Success? <==> times >= 0
    ensures r.Failure? ==> r.error == ArgumentException
    ensures r.Success? ==> r.value == Times(s, RxMultiplicity.Multiplicity(times, times))
  {
    match RxMultiplicity.Exactly(times)
    case Failure(e) => Failure(e)
    case Success(m) => Success(Times(s, m))
  }

  /** A repeated sequence renders as the sequence's own pattern followed by
      the quantifier, without parentheses. */
  lemma TimesPattern(s: RxCharSequence.CharSequenceRx, m: RxMultiplicity.Multiplicity)
    ensures Pattern(Times(s, m)) == Success(RxCharSequence.Pattern(s) + RxMultiplicity.Pattern(m))
    ensures PatternAsWritten(Times(s, m)) == Pattern(Times(s, m))
  {
  }
}
