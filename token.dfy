/** The driver's parse-tree node `Token`: a symbol id, a content that is
    either an input object or the array of child tokens of a reduction, and
    a mutable state (the automaton state it was shifted in, or -1). */
module Tokens {
  import Contents
  import Utf16

  /** A token's content: an object from the input (null included), or the
      children of a reduction, as the driver stores them. */
  datatype Content =
    | Value(obj: Contents.Obj)
    | Children(tokens: seq<Token>)

  /** The tokens a content holds: the children of a reduction, or none. */
  function TokensOf(c: Content): seq<Token> {
    if c.Children? then c.tokens else []
  }

  class Token {
    const id: int
    const content: Content
    var state: int

    /** One more than the deepest child: what recursion over the tree
        decreases. */
    ghost const depth: nat

    /** Every child is shallower and well formed itself. */
    ghost predicate Valid()
      decreases depth
    {
      forall i :: 0 <= i < |TokensOf(content)| ==>
        TokensOf(content)[i].depth < depth && TokensOf(content)[i].Valid()
    }

    /** The constructor: the content as given, state -1. */
    constructor (id: int, content: Content)
      requires forall t :: t in TokensOf(content) ==> t.Valid()
      ensures Valid() && this.id == id && this.content == content && state == -1
    {
      this.id := id;
      this.content := content;
      this.depth := MaxDepth(TokensOf(content)) + 1;
      this.state := -1;
    }

    /** `ToString`: `ContentToString` of the content. A child token is an
        object that is neither a string nor enumerable, so it shows its own
        `ToString`. Null gives the empty string, a string gives itself and
        the children of a reduction give their texts, space-separated
        between square brackets. */
    function ToString(): (s: Utf16.Str)
      requires Valid()
      ensures content == Value(Contents.Null) ==> s == []
      ensures content.Value? && content.obj.Text? ==> s == content.obj.s
      ensures content.Children? ==>
        s == [Contents.Open] + Contents.Join(TextsOf(TokensOf(content), depth)) + [Contents.Close]
    {
      if content.Children? then
        TextsOfOthers(TokensOf(content), depth);
        assert ObjOf(this) == Contents.Many(OthersOf(TokensOf(content), depth));
        Text(this)
      else
        assert ObjOf(this) == content.obj;
        Text(this)
    }

    /** `Equals` and `GetHashCode`: equal exactly when the ids are, and
        equal tokens hash alike. */
    static function Equals(a: Token, b: Token): (r: bool)
      ensures r <==> a.id == b.id
      ensures r ==> Hash(a) == Hash(b)
    {
      a.id == b.id
    }

    static function Hash(a: Token): int {
      a.id
    }
  }

  /** `ContentToString` of a token's content. */
  function Text(t: Token): Utf16.Str
    requires t.Valid()
    decreases t.depth, 2
  {
    Contents.ContentToString(ObjOf(t))
  }

  /** A token's content as `ContentToString` sees it: a child array is an
      enumerable of objects whose text is their own `ToString`. */
  function ObjOf(t: Token): Contents.Obj
    requires t.Valid()
    decreases t.depth, 1
  {
    match t.content
    case Value(o) => o
    case Children(ts) =>
      assert ts == TokensOf(t.content);
      Contents.Many(OthersOf(ts, t.depth))
  }

  /** Child tokens as the objects of an enumerable, in order. */
  function OthersOf(ts: seq<Token>, ghost bound: nat): (r: seq<Contents.Obj>)
    requires forall i :: 0 <= i < |ts| ==> ts[i].Valid() && ts[i].depth < bound
    decreases bound, 0, |ts|
    ensures |r| == |ts|
  {
    if ts == [] then [] else [Contents.Other(Text(ts[0]))] + OthersOf(ts[1..], bound)
  }

  /** The texts of child tokens, in order. */
  function TextsOf(ts: seq<Token>, ghost bound: nat): (r: seq<Utf16.Str>)
    requires forall i :: 0 <= i < |ts| ==> ts[i].Valid() && ts[i].depth < bound
    decreases |ts|
    ensures |r| == |ts|
    ensures forall i :: 0 <= i < |ts| ==> r[i] == Text(ts[i])
  {
    if ts == [] then [] else [Text(ts[0])] + TextsOf(ts[1..], bound)
  }

  lemma {:induction false} TextsOfOthers(ts: seq<Token>, bound: nat)
    requires forall i :: 0 <= i < |ts| ==> ts[i].Valid() && ts[i].depth < bound
    ensures Contents.Texts(OthersOf(ts, bound)) == TextsOf(ts, bound)
    decreases |ts|
  {
    if ts != [] {
      TextsOfOthers(ts[1..], bound);
      assert OthersOf(ts, bound)[1..] == OthersOf(ts[1..], bound);
    }
  }

  ghost function MaxDepth(ts: seq<Token>): (d: nat)
    ensures forall t :: t in ts ==> t.depth <= d
  {
    if ts == [] then 0
    else
      var rest := MaxDepth(ts[1..]);
      assert forall t :: t in ts ==> t == ts[0] || t in ts[1..];
      if ts[0].depth > rest then ts[0].depth else rest
  }

  /** The input objects at the leaves of a token, left to right: the
      content of a value token, or the leaves of each child in turn. */
  ghost function Leaves(t: Token): seq<Contents.Obj>
    requires t.Valid()
    decreases t.depth, 1
  {
    match t.content
    case Value(o) => [o]
    case Children(ts) =>
      assert ts == TokensOf(t.content);
      LeavesOf(ts, t.depth)
  }

  /** The leaves of a row of tokens, each shallower than `bound`. */
  ghost function LeavesOf(ts: seq<Token>, bound: nat): seq<Contents.Obj>
    requires forall i :: 0 <= i < |ts| ==> ts[i].Valid() && ts[i].depth < bound
    decreases bound, 0, |ts|
  {
    if ts == [] then [] else LeavesOf(ts[..|ts| - 1], bound) + Leaves(ts[|ts| - 1])
  }

  /** The leaves of the concatenation of two rows: those of the first,
      then those of the second. */
  lemma {:induction false} LeavesOfAppend(a: seq<Token>, b: seq<Token>, bound: nat)
    requires forall i :: 0 <= i < |a| ==> a[i].Valid() && a[i].depth < bound
    requires forall i :: 0 <= i < |b| ==> b[i].Valid() && b[i].depth < bound
    ensures LeavesOf(a + b, bound) == LeavesOf(a, bound) + LeavesOf(b, bound)
    decreases |b|
  {
    if b == [] {
      assert a + b == a;
    } else {
      var b', last := b[..|b| - 1], b[|b| - 1];
      LeavesOfAppend(a, b', bound);
      assert (a + b)[..|a + b| - 1] == a + b';
      assert (a + b)[|a + b| - 1] == last;
      calc {
        LeavesOf(a + b, bound);
        LeavesOf(a + b', bound) + Leaves(last);
        LeavesOf(a, bound) + LeavesOf(b', bound) + Leaves(last);
        LeavesOf(a, bound) + LeavesOf(b, bound);
      }
    }
  }

  /** The bound only has to exceed every token's depth. */
  lemma {:induction false} LeavesOfBound(ts: seq<Token>, b1: nat, b2: nat)
    requires forall i :: 0 <= i < |ts| ==> ts[i].Valid() && ts[i].depth < b1 && ts[i].depth < b2
    ensures LeavesOf(ts, b1) == LeavesOf(ts, b2)
    decreases |ts|
  {
    if ts != [] {
      LeavesOfBound(ts[..|ts| - 1], b1, b2);
    }
  }

  /** The leaves of a row of well-formed tokens, left to right. */
  ghost function Frontier(ts: seq<Token>): seq<Contents.Obj>
    requires forall t :: t in ts ==> t.Valid()
  {
    LeavesOf(ts, MaxDepth(ts) + 1)
  }

  /** Any bound above the rows' depths gives their frontier. */
  lemma FrontierAt(ts: seq<Token>, bound: nat)
    requires forall i :: 0 <= i < |ts| ==> ts[i].Valid() && ts[i].depth < bound
    ensures forall t :: t in ts ==> t.Valid()
    ensures Frontier(ts) == LeavesOf(ts, bound)
  {
    assert forall t :: t in ts ==> exists i :: 0 <= i < |ts| && ts[i] == t;
    LeavesOfBound(ts, bound, MaxDepth(ts) + 1);
  }

  /** The frontier of two rows side by side is the first's, then the
      second's. */
  lemma FrontierAppend(a: seq<Token>, b: seq<Token>)
    requires forall t :: t in a ==> t.Valid()
    requires forall t :: t in b ==> t.Valid()
    ensures Frontier(a + b) == Frontier(a) + Frontier(b)
  {
    var ab := a + b;
    assert forall i :: 0 <= i < |ab| ==> ab[i] in ab && (ab[i] in a || ab[i] in b);
    var bound := MaxDepth(ab) + 1;
    FrontierAt(ab, bound);
    FrontierAt(a, bound);
    FrontierAt(b, bound);
    LeavesOfAppend(a, b, bound);
  }

  /** A row of one token has that token's leaves. */
  lemma FrontierSingle(t: Token)
    requires t.Valid()
    ensures Frontier([t]) == Leaves(t)
  {
    var b := MaxDepth([t]) + 1;
    assert [t][..0] == [];
    assert LeavesOf([t], b) == LeavesOf([], b) + Leaves(t);
  }

  /** A node whose content is a row of children has the children's
      frontier as its leaves. */
  lemma LeavesOfNode(r: Token)
    requires r.Valid() && r.content.Children?
    ensures forall t :: t in r.content.tokens ==> t.Valid()
    ensures Leaves(r) == Frontier(r.content.tokens)
  {
    assert TokensOf(r.content) == r.content.tokens;
    LeavesOfBound(r.content.tokens, r.depth, MaxDepth(r.content.tokens) + 1);
  }

  /** Two tokens with the same content have the same leaves. */
  lemma LeavesOfSameContent(r: Token, t: Token)
    requires r.Valid() && t.Valid() && r.content == t.content
    ensures Leaves(r) == Leaves(t)
  {
    if r.content.Children? {
      assert TokensOf(r.content) == r.content.tokens == TokensOf(t.content);
      LeavesOfBound(r.content.tokens, r.depth, t.depth);
    }
  }

  /** `EOF`: the end-of-input token, id -1 with the string `$`. One is made
      per use: a shared static object is not part of this model. */
  method NewEOF() returns (e: Token)
    ensures e.Valid() && fresh(e)
    ensures e.id == -1 && e.content == Value(Contents.Text(Utf16.Lit("$"))) && e.state == -1
    ensures e.ToString() == Utf16.Lit("$")
  {
    e := new Token(-1, Value(Contents.Text(Utf16.Lit("$"))));
  }
}
