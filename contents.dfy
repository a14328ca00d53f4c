/** The text a parse-tree node gives for its content: `ContentToString`,
    shared word for word by the driver's `Token` and the lexical `Item`. */
module Contents {
  import opened Utf16

  /** A content object as `ContentToString` tells objects apart. */
  datatype Obj =
    | Null
      /** A `string`. */
    | Text(s: Str)
      /** Any other `IEnumerable`, such as the child array of a reduction. */
    | Many(elements: seq<Obj>)
      /** Any other object, given by what its `ToString` returns; a token or
          item element shows the text of its own content. */
    | Other(text: Str)

  const Space: CodeUnit := ' ' as int
  const Open: CodeUnit := '[' as int
  const Close: CodeUnit := ']' as int

  /** `string.Join(" ", parts)`. */
  function Join(parts: seq<Str>): Str {
    if parts == [] then []
    else if |parts| == 1 then parts[0]
    else parts[0] + [Space] + Join(parts[1..])
  }

  /** Null gives the empty string, a string itself, any other enumerable
      its elements' texts joined by spaces inside square brackets, and
      anything else its own `ToString`. */
  function ContentToString(o: Obj): Str {
    match o
    case Null => []
    case Text(s) => s
    case Many(es) => [Open] + Join(Texts(es)) + [Close]
    case Other(t) => t
  }

  /** The elements' texts, in order. */
  function Texts(es: seq<Obj>): (r: seq<Str>)
    ensures |r| == |es|
  {
    if es == [] then [] else [ContentToString(es[0])] + Texts(es[1..])
  }

  /** Cuts a text at every space: the inverse of `Join` on space-free parts. */
  function Split(s: Str): (r: seq<Str>)
    ensures |r| >= 1
  {
    if s == [] then [[]]
    else
      var rest := Split(s[1..]);
      if s[0] == Space then [[]] + rest else [[s[0]] + rest[0]] + rest[1..]
  }

  predicate SpaceFree(s: Str) {
    forall i :: 0 <= i < |s| ==> s[i] != Space
  }

  lemma {:induction false} SplitSpaceFree(x: Str, tail: seq<Str>, y: Str)
    requires SpaceFree(x)
    requires Split(y) == [[]] + tail
    ensures Split(x + y) == [x] + tail
  {
    if x != [] {
      assert (x + y)[1..] == x[1..] + y;
      SplitSpaceFree(x[1..], tail, y);
      assert [x[0]] + x[1..] == x;
    } else {
      assert x + y == y;
    }
  }

  lemma {:induction false} SplitWhole(x: Str)
    requires SpaceFree(x)
    ensures Split(x) == [x]
  {
    if x != [] {
      SplitWhole(x[1..]);
      assert [x[0]] + x[1..] == x;
    }
  }

  /** Joining space-free parts and cutting at spaces gives the parts back. */
  lemma {:induction false} SplitJoin(parts: seq<Str>)
    requires parts != []
    requires forall i :: 0 <= i < |parts| ==> SpaceFree(parts[i])
    ensures Split(Join(parts)) == parts
  {
    if |parts| == 1 {
      SplitWhole(parts[0]);
    } else {
      SplitJoin(parts[1..]);
      var y := [Space] + Join(parts[1..]);
      assert y[1..] == Join(parts[1..]);
      assert Split(y) == [[]] + parts[1..];
      assert parts[0] + [Space] + Join(parts[1..]) == parts[0] + y;
      SplitSpaceFree(parts[0], parts[1..], y);
      assert [parts[0]] + parts[1..] == parts;
    }
  }

  /** A list content reads back: strip the brackets, cut at the spaces, and
      the elements' texts reappear in order, provided none has a space. */
  lemma ListRoundTrip(es: seq<Obj>)
    requires es != []
    requires forall i :: 0 <= i < |es| ==> SpaceFree(Texts(es)[i])
    ensures var t := ContentToString(Many(es));
      |t| >= 2 && t[0] == Open && t[|t| - 1] == Close &&
      Split(t[1..|t| - 1]) == Texts(es)
  {
    var t := ContentToString(Many(es));
    assert t[1..|t| - 1] == Join(Texts(es));
    SplitJoin(Texts(es));
  }

  /** The empty list renders as `[]`. */
  lemma EmptyListExample()
    ensures ContentToString(Many([])) == Lit("[]")
  {
  }

  /** A list of the strings `a` and `b` renders as `[a b]`. */
  lemma PairExample()
    ensures ContentToString(Many([Text(Lit("a")), Text(Lit("b"))])) == Lit("[a b]")
  {
    var a, b := Text(Lit("a")), Text(Lit("b"));
    assert [a, b][1..] == [b];
    assert Texts([b]) == [Lit("b")];
    assert Texts([a, b]) == [Lit("a"), Lit("b")];
  }

  /** A null element renders as an empty slot: `[ b]`. */
  lemma NullElementExample()
    ensures ContentToString(Many([Null, Text(Lit("b"))])) == Lit("[ b]")
  {
    var b := Text(Lit("b"));
    assert [Null, b][1..] == [b];
    assert Texts([b]) == [Lit("b")];
    assert Texts([Null, b]) == [[], Lit("b")];
  }
}
