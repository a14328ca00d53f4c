/** `CharClassRx`: a bracketed character class whose elements are single
    characters, ranges or nested classes. */
module RxCharClass {
  import opened Wrappers
  import opened Utf16
  import RxChar
  import RxCharRange
  import RxCharSequence

  /** The three kinds of `ISingleCharRx`. */
  datatype SingleCharRx =
    | Char(ch: RxChar.CharRx)
    | Range(range: RxCharRange.CharRangeRx)
    | Class(cls: CharClassRx)

  /** The element constructor keeps the array it is given. */
  datatype CharClassRx = CharClassRx(chars: seq<SingleCharRx>)

  /** The `int[]` constructor: each code point becomes a `CharRx` element;
      a null array makes the LINQ `Select` throw ArgumentNullException. */
  function FromCodePoints(cps: Option<seq<Int32>>): (r: Result<CharClassRx>)
    ensures cps.None? <==> r == Failure(ArgumentNullException)
    ensures cps.Some? ==> r.Success? && |r.value.chars| == |cps.value|
    ensures cps.Some? ==> forall i :: 0 <= i < |cps.value| ==>
      r.value.chars[i] == Char(RxChar.CharRx(cps.value[i]))
  {
    match cps
    case None => Failure(ArgumentNullException)
    case Some(s) => Success(CharClassRx(seq(|s|, i requires 0 <= i < |s| => Char(RxChar.CharRx(s[i])))))
  }

  /** The class body: a nested class contributes its own body, every other
      element its `Pattern` (which a range refuses), in order; the first
      refusal is what the whole class raises. */
  function PatternWithoutBrackets(c: CharClassRx): Result<Str>
  {
    ElementsPattern(c.chars)
  }

  /** What one element contributes to the body of the class around it. */
  function ElementPattern(x: SingleCharRx): Result<Str> {
    match x
    case Char(ch) => Success(RxChar.Pattern(ch))
    case Range(r) => RxCharRange.Pattern(r)
    case Class(cls) => PatternWithoutBrackets(cls)
  }

  function ElementsPattern(items: seq<SingleCharRx>): Result<Str>
  {
    if items == [] then Success([])
    else
      var head := ElementPattern(items[0]);
      if head.Failure? then Failure(head.error)
      else
        match ElementsPattern(items[1..])
        case Failure(e) => Failure(e)
        case Success(rest) => Success(head.value + rest)
  }

  /** `Pattern`: the body between square brackets. It is the bracketed
      sequence pattern of the class's flattened characters, and refused
      exactly when a range occurs anywhere inside. */
  function Pattern(c: CharClassRx): (r: Result<Str>)
    ensures Flatten(c).None? <==> r == Failure(InvalidOperationException)
    ensures Flatten(c).Some? ==>
      r == Success(['[' as int] + RxCharSequence.Concat(Flatten(c).value) + [']' as int])
  {
    BodyIsFlattenedSequence(c);
    match PatternWithoutBrackets(c)
    case Failure(e) => Failure(e)
    case Success(body) => Success(['[' as int] + body + [']' as int])
  }

  /** `Pattern` of any single-character element on its own: a character's
      pattern, the refusal of a range, a class with its brackets. */
  function SinglePattern(x: SingleCharRx): (r: Result<Str>)
    ensures r.Success? <==> FlattenElement(x).Some?
    ensures r.Failure? ==> r.error == InvalidOperationException
  {
    match x
    case Char(ch) => Success(RxChar.Pattern(ch))
    case Range(r) => RxCharRange.Pattern(r)
    case Class(cls) => Pattern(cls)
  }

  /** The characters of a class with nested classes spliced in, or None if
      a range occurs anywhere inside it. */
  function Flatten(c: CharClassRx): Option<seq<RxChar.CharRx>>
  {
    FlattenElements(c.chars)
  }

  function FlattenElement(x: SingleCharRx): Option<seq<RxChar.CharRx>> {
    match x
    case Char(ch) => Some([ch])
    case Range(_) => None
    case Class(cls) => Flatten(cls)
  }

  function FlattenElements(items: seq<SingleCharRx>): Option<seq<RxChar.CharRx>>
  {
    if items == [] then Some([])
    else
      var head := FlattenElement(items[0]);
      if head.None? then None
      else
        match FlattenElements(items[1..])
        case None => None
        case Some(rest) => Some(head.value + rest)
  }

  lemma {:induction false} ConcatAppend(a: seq<RxChar.CharRx>, b: seq<RxChar.CharRx>)
    ensures RxCharSequence.Concat(a + b) == RxCharSequence.Concat(a) + RxCharSequence.Concat(b)
  {
    if a != [] {
      assert (a + b)[0] == a[0];
      assert (a + b)[1..] == a[1..] + b;
      ConcatAppend(a[1..], b);
      var h := RxChar.Pattern(a[0]);
      calc {
        RxCharSequence.Concat(a + b);
        h + RxCharSequence.Concat(a[1..] + b);
        h + (RxCharSequence.Concat(a[1..]) + RxCharSequence.Concat(b));
        (h + RxCharSequence.Concat(a[1..])) + RxCharSequence.Concat(b);
      }
    } else {
      assert a + b == b;
    }
  }

  /** The body of a class is the pattern of its flattened characters as a
      sequence; it is refused (InvalidOperationException) exactly when a
      range occurs anywhere inside, however deeply nested. */
  lemma {:induction false} BodyIsFlattenedSequence(c: CharClassRx)
    ensures Flatten(c).Some? ==>
      PatternWithoutBrackets(c) == Success(RxCharSequence.Concat(Flatten(c).value))
    ensures Flatten(c).None? ==> PatternWithoutBrackets(c) == Failure(InvalidOperationException)
  {
    ElementsAreFlattened(c.chars);
  }

  lemma {:induction false} ElementsAreFlattened(items: seq<SingleCharRx>)
    ensures FlattenElements(items).Some? ==>
      ElementsPattern(items) == Success(RxCharSequence.Concat(FlattenElements(items).value))
    ensures FlattenElements(items).None? ==> ElementsPattern(items) == Failure(InvalidOperationException)
  {
    if items != [] {
      ElementsAreFlattened(items[1..]);
      ElementIsFlattened(items[0]);
      var head, rest := FlattenElement(items[0]), FlattenElements(items[1..]);
      if head.Some? && rest.Some? {
        ConcatAppend(head.value, rest.value);
      }
    }
  }

  lemma {:induction false} ElementIsFlattened(x: SingleCharRx)
    ensures FlattenElement(x).Some? ==>
      ElementPattern(x) == Success(RxCharSequence.Concat(FlattenElement(x).value))
    ensures FlattenElement(x).None? ==> ElementPattern(x) == Failure(InvalidOperationException)
  {
    match x
    case Char(ch) =>
      assert [ch][1..] == [];
      assert RxCharSequence.Concat([ch]) == RxChar.Pattern(ch) + [];
      assert RxChar.Pattern(ch) + [] == RxChar.Pattern(ch);
    case Range(_) =>
    case Class(cls) =>
      BodyIsFlattenedSequence(cls);
  }

  /** Reads a class pattern back: the text between the outer brackets, read
      as a run of character patterns. */
  function ReadClass(p: Str): Option<seq<int>> {
    if |p| >= 2 && p[0] == '[' as int && p[|p| - 1] == ']' as int then
      RxCharSequence.ReadChars(p[1..|p| - 1])
    else None
  }

  /** A range-free class renders, and its pattern determines the characters
      it was built from, nested classes spliced in order. */
  lemma ReadPattern(c: CharClassRx)
    requires Flatten(c).Some?
    ensures Pattern(c).Success?
    ensures ReadClass(Pattern(c).value) == Some(RxCharSequence.DenotedAll(Flatten(c).value))
  {
    BodyIsFlattenedSequence(c);
    var body := RxCharSequence.Concat(Flatten(c).value);
    var p := ['[' as int] + body + [']' as int];
    assert p[1..|p| - 1] == body;
    RxCharSequence.ReadPattern(Flatten(c).value);
  }

  /** A class with a range in it always refuses to render. */
  lemma RangeRefused(c: CharClassRx, i: nat)
    requires i < |c.chars| && c.chars[i].Range?
    ensures Pattern(c) == Failure(InvalidOperationException)
  {
    FlattenRangeNone(c.chars, i);
    BodyIsFlattenedSequence(c);
  }

  lemma {:induction false} FlattenRangeNone(items: seq<SingleCharRx>, i: nat)
    requires i < |items| && items[i].Range?
    ensures FlattenElements(items).None?
  {
    if i > 0 {
      FlattenRangeNone(items[1..], i - 1);
    }
  }

  /** The tests' class of a, b and c renders as `[abc]`. */
  lemma PatternExampleAbc()
    ensures Pattern(CharClassRx([Char(RxChar.CharRx('a' as int)), Char(RxChar.CharRx('b' as int)),
      Char(RxChar.CharRx('c' as int))])) == Success(Lit("[abc]"))
  {
    var a, b, c := Char(RxChar.CharRx('a' as int)), Char(RxChar.CharRx('b' as int)), Char(RxChar.CharRx('c' as int));
    assert [a, b, c][1..] == [b, c] && [b, c][1..] == [c] && [c][1..] == [];
    assert ElementsPattern([c]) == Success(Lit("c"));
    assert ElementsPattern([b, c]) == Success(Lit("bc"));
    assert ElementsPattern([a, b, c]) == Success(Lit("abc"));
    assert Lit("[abc]") == ['[' as int] + Lit("abc") + [']' as int];
  }

  /** A class holding only the nested class of `\` and `s` renders as
      `[\\s]`: the nested class loses its brackets. */
  lemma PatternExampleNested()
    ensures Pattern(CharClassRx([Class(CharClassRx([Char(RxChar.CharRx('\\' as int)),
      Char(RxChar.CharRx('s' as int))]))])) == Success(Lit("[\\\\s]"))
  {
    var bs, s := Char(RxChar.CharRx('\\' as int)), Char(RxChar.CharRx('s' as int));
    assert [bs, s][1..] == [s] && [s][1..] == [];
    assert ElementsPattern([s]) == Success(Lit("s"));
    assert RxChar.Pattern(RxChar.CharRx('\\' as int)) == Lit("\\\\");
    assert Lit("\\\\s") == Lit("\\\\") + Lit("s");
    assert ElementsPattern([bs, s]) == Success(Lit("\\\\s"));
    var nested := Class(CharClassRx([bs, s]));
    assert [nested][1..] == [];
    assert ElementPattern(nested) == Success(Lit("\\\\s"));
    assert ElementsPattern([nested]) == Success(Lit("\\\\s") + []);
    assert Lit("\\\\s") + [] == Lit("\\\\s");
    assert PatternWithoutBrackets(CharClassRx([nested])) == Success(Lit("\\\\s"));
    assert Lit("[\\\\s]") == ['[' as int] + Lit("\\\\s") + [']' as int];
  }
}
