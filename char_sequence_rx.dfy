/** `CharSequenceRx`: a literal run of characters, built from code points,
    from `CharRx` values or by decoding a UTF-16 string. */
module RxCharSequence {
  import opened Wrappers
  import opened Utf16
  import RxChar

  datatype CharSequenceRx = CharSequenceRx(chars: seq<RxChar.CharRx>)

  const Empty := CharSequenceRx([])

  /** The `int[]` constructor: one `CharRx` per code point, in order; a null
      array gives the empty sequence. */
  function FromCodePoints(cps: Option<seq<Int32>>): (r: CharSequenceRx)
    ensures cps.None? ==> r == Empty
    ensures cps.Some? ==> |r.chars| == |cps.value|
    ensures cps.Some? ==> forall i :: 0 <= i < |cps.value| ==> r.chars[i].codePoint == cps.value[i]
  {
    match cps
    case None => Empty
    case Some(s) => CharSequenceRx(seq(|s|, i requires 0 <= i < |s| => RxChar.CharRx(s[i])))
  }

  /** The `CharRx[]` constructor: the array as given, null as empty. */
  function FromChars(chars: Option<seq<RxChar.CharRx>>): (r: CharSequenceRx)
    ensures r.chars == if chars.Some? then chars.value else []
  {
    if chars.Some? then CharSequenceRx(chars.value) else Empty
  }

  /** `CharRx + CharRx`: the two-element sequence. */
  function Plus(a: RxChar.CharRx, b: RxChar.CharRx): (r: CharSequenceRx)
    ensures |r.chars| == 2 && r.chars[0] == a && r.chars[1] == b
  {
    CharSequenceRx([a, b])
  }

  /** `Equals`: the same length and pairwise equal elements. */
  function Equals(a: CharSequenceRx, b: CharSequenceRx): (r: bool)
    ensures r <==> a == b
  {
    |a.chars| == |b.chars| &&
    forall i :: 0 <= i < |a.chars| ==> RxChar.Equals(a.chars[i], b.chars[i])
  }

  /** What the string constructor produces: the code points of the string
      (null reads as empty), or the ArgumentException a lone surrogate
      raises. */
  function OfString(sequence: Option<Str>): Result<CharSequenceRx> {
    if sequence.None? then Success(Empty)
    else
      match Decode(sequence.value)
      case Failure(e) => Failure(e)
      case Success(cps) =>
        DecodeIsScalar(sequence.value);
        Success(CharSequenceRx(seq(|cps|, i requires 0 <= i < |cps| => RxChar.CharRx(cps[i]))))
  }

  lemma {:induction false} DecodeIsScalar(s: Str)
    ensures Decode(s).Success? ==> forall i :: 0 <= i < |Decode(s).value| ==> IsScalar(Decode(s).value[i])
    decreases |s|
  {
    if s != [] && ConvertToUtf32(s, 0).Success? {
      var c := ConvertToUtf32(s, 0).value;
      DecodeIsScalar(s[if c > 0xFFFF then 2 else 1..]);
    }
  }

  /** Prepends `acc` to a successful decoding; a failure stays a failure. */
  function Prepend(acc: seq<int>, r: Result<seq<int>>): Result<seq<int>> {
    if r.Failure? then r else Success(acc + r.value)
  }

  /** The string constructor: walks the code units, taking one code point
      at a time and skipping the second unit of a surrogate pair. */
  method FromString(sequence: Option<Str>) returns (r: Result<CharSequenceRx>)
    ensures r == OfString(sequence)
  {
    var s := if sequence.Some? then sequence.value else [];
    var length := |s|;
    var chars: seq<RxChar.CharRx> := [];
    ghost var cps: seq<int> := [];
    var i := 0;
    assert s[i..] == s;
    assert Decode(s) == Prepend(cps, Decode(s[i..])) by {
      if Decode(s).Success? {
        assert cps + Decode(s).value == Decode(s).value;
      }
    }
    while i < length
      invariant 0 <= i <= length
      invariant |chars| == |cps|
      invariant forall k :: 0 <= k < |cps| ==> IsScalar(cps[k]) && chars[k].codePoint == cps[k]
      invariant Decode(s) == Prepend(cps, Decode(s[i..]))
    {
      var c := ConvertToUtf32(s, i);
      if c.Failure? {
        DecodeAt(s, i);
        return Failure(c.error);
      }
      DecodeAt(s, i);
      PrependAssoc(cps, [c.value], Decode(s[i + (if c.value > 0xFFFF then 2 else 1)..]));
      i := i + 1;
      chars := chars + [RxChar.CharRx(c.value)];
      cps := cps + [c.value];
      if c.value > 0xFFFF {
        i := i + 1;
      }
    }
    assert s[i..] == [];
    assert cps + [] == cps;
    assert chars == seq(|cps|, k requires 0 <= k < |cps| => RxChar.CharRx(cps[k]));
    r := Success(CharSequenceRx(chars));
  }

  /** One step of the constructor's loop agrees with one step of `Decode`. */
  lemma DecodeAt(s: Str, i: nat)
    requires i < |s|
    ensures ConvertToUtf32(s[i..], 0) == ConvertToUtf32(s, i)
    ensures ConvertToUtf32(s, i).Failure? ==> Decode(s[i..]) == Failure(ConvertToUtf32(s, i).error)
    ensures ConvertToUtf32(s, i).Success? ==>
      var c := ConvertToUtf32(s, i).value;
      var w := if c > 0xFFFF then 2 else 1;
      i + w <= |s| &&
      Decode(s[i..]) == Prepend([c], Decode(s[i + w..]))
  {
    var t := s[i..];
    assert t[0] == s[i];
    if i + 1 < |s| {
      assert t[1] == s[i + 1];
    }
    if ConvertToUtf32(s, i).Success? {
      var c := ConvertToUtf32(s, i).value;
      var w := if c > 0xFFFF then 2 else 1;
      assert t[w..] == s[i + w..];
    }
  }

  lemma PrependAssoc(a: seq<int>, b: seq<int>, r: Result<seq<int>>)
    ensures Prepend(a, Prepend(b, r)) == Prepend(a + b, r)
  {
    if r.Success? {
      assert a + (b + r.value) == (a + b) + r.value;
    }
  }

  /** A string that encodes scalar values yields one `CharRx` per value, a
      surrogate pair standing for a single element. */
  lemma OfEncodedString(cps: seq<int>)
    requires forall i :: 0 <= i < |cps| ==> IsScalar(cps[i])
    ensures OfString(Some(Encode(cps))).Success?
    ensures OfString(Some(Encode(cps))).value.chars ==
      seq(|cps|, i requires 0 <= i < |cps| => RxChar.CharRx(cps[i]))
  {
    DecodeEncode(cps);
  }

  /** `Pattern`: the elements' patterns one after another. */
  function Pattern(s: CharSequenceRx): (r: Str)
    ensures |s.chars| <= |r| <= 10 * |s.chars|
  {
    Concat(s.chars)
  }

  /** Each character contributes between one and ten code units. */
  function Concat(chars: seq<RxChar.CharRx>): (r: Str)
    ensures |chars| <= |r| <= 10 * |chars|
  {
    if chars == [] then [] else RxChar.Pattern(chars[0]) + Concat(chars[1..])
  }

  /** Reads a concatenation of character patterns back into the characters
      they match. */
  function ReadChars(p: Str): Option<seq<int>>
    decreases |p|
  {
    if p == [] then Some([])
    else
      match RxChar.Unescape(p)
      case None => None
      case Some((c, n)) =>
        match ReadChars(p[n..])
        case None => None
        case Some(rest) => Some([c] + rest)
  }

  function DenotedAll(chars: seq<RxChar.CharRx>): (r: seq<int>)
    ensures |r| == |chars|
    ensures forall i :: 0 <= i < |chars| ==> r[i] == RxChar.Denoted(chars[i])
  {
    if chars == [] then [] else [RxChar.Denoted(chars[0])] + DenotedAll(chars[1..])
  }

  /** A sequence's pattern reads back as the characters of the sequence,
      one per element: the element patterns never run into each other. */
  lemma {:induction false} ReadPattern(chars: seq<RxChar.CharRx>)
    ensures ReadChars(Concat(chars)) == Some(DenotedAll(chars))
  {
    if chars != [] {
      var head := RxChar.Pattern(chars[0]);
      var tail := Concat(chars[1..]);
      RxChar.UnescapePattern(chars[0], tail);
      assert (head + tail)[|head|..] == tail;
      ReadPattern(chars[1..]);
    }
  }

  /** The tests' `.[` sequence renders as `\.\[`, and the empty sequence
      as the empty pattern. */
  lemma PatternExamples()
    ensures Pattern(Plus(RxChar.CharRx('.' as int), RxChar.CharRx('[' as int))) == Lit("\\.\\[")
    ensures Pattern(FromChars(None)) == []
  {
    var dot, br := RxChar.CharRx('.' as int), RxChar.CharRx('[' as int);
    assert [dot, br][1..] == [br] && [br][1..] == [];
    assert RxChar.Pattern(dot) == Lit("\\.") && RxChar.Pattern(br) == Lit("\\[");
    assert Concat([br]) == Lit("\\[") + [];
    assert Lit("\\.\\[") == Lit("\\.") + Lit("\\[");
  }
}
