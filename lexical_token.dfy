/** The older, uncached lexical parse-tree node `Token` and its category.
    A node's content is empty, a reduction over lexical items, another
    token, or a leaf value; its error flag is recomputed on every read. */
module LexicalTokens {
  import opened Wrappers
  import Items
  import Contents
  import Utf16

  /** What a token's content is. */
  datatype ContentType = Empty | Reduction | Nested | Leaf

  /** A token category: an id and a display name, equal by id alone. */
  datatype TokenCategory = TokenCategory(id: int, name: Utf16.Str) {
    /** `ToString`: the id in decimal, a colon, a space and the name. */
    function ToString(): (s: Utf16.Str)
      ensures s == Utf16.Decimal(id) + Utf16.Lit(": ") + name
      ensures Utf16.ParseDecimal(s[..|Utf16.Decimal(id)|]) == id
    {
      var d := Utf16.Decimal(id);
      Utf16.DecimalRoundTrip(id);
      assert (d + Utf16.Lit(": ") + name)[..|d|] == d;
      d + Utf16.Lit(": ") + name
    }

    function Hash(): int {
      id
    }
  }

  /** `TokenCategory.Equals`: equal exactly when the ids are, and equal
      categories hash alike. */
  function CategoryEquals(a: TokenCategory, b: TokenCategory): (r: bool)
    ensures r <==> a.id == b.id
    ensures r ==> a.Hash() == b.Hash()
  {
    a.id == b.id
  }

  /** A token's content: a reduction over lexical items, another token, or
      any other object, null included. */
  datatype Content =
    | Reduced(reduction: Items.Reduction)
    | NestedToken(token: Token)
    | Plain(obj: Contents.Obj)

  /** `DetermineContentType`: null is empty, a token nested, a reduction a
      reduction, and anything else a leaf. */
  function DetermineContentType(c: Content): (t: ContentType)
    ensures t == ContentType.Empty <==> c == Plain(Contents.Null)
    ensures t == ContentType.Nested <==> c.NestedToken?
    ensures t == ContentType.Reduction <==> c.Reduced?
    ensures t == ContentType.Leaf <==> c.Plain? && c.obj != Contents.Null
  {
    match c
    case Plain(Null) => ContentType.Empty
    case NestedToken(_) => ContentType.Nested
    case Reduced(_) => ContentType.Reduction
    case Plain(_) => ContentType.Leaf
  }

  /** The lexical items a token's error flag asks: those of a reduction. */
  function ItemsOf(c: Content): seq<Items.Item> {
    if c.Reduced? then c.reduction.children else []
  }

  /** The objects below a token with this content. */
  ghost function Below(c: Content): set<object> {
    match c
    case NestedToken(t) => t.Repr
    case Reduced(r) => Items.ReprOf(r.children)
    case Plain(_) => {}
  }

  class Token {
    const id: int
    const content: Content
    const contentType: ContentType
    var state: int

    /** This token, every token nested below it, and every item below a
        reduction. */
    ghost const Repr: set<object>
    ghost const depth: nat

    /** The nested token and the items of a reduction sit strictly below:
        shallower, well formed, and inside this token's footprint. */
    ghost predicate Valid()
      decreases depth
    {
      this in Repr &&
      contentType == DetermineContentType(content) &&
      (content.NestedToken? ==>
        var t := content.token;
        t in Repr && t.Repr <= Repr && this !in t.Repr && t.depth < depth && t.Valid()) &&
      (content.Reduced? ==>
        forall c :: c in content.reduction.children ==> c.Valid() && c.Repr <= Repr)
    }

    /** What the getter computes: `true` for a negative state, otherwise
        what lies below says. */
    ghost function Computed(): bool
      requires Valid()
      reads Repr
      decreases depth, 1
    {
      state < 0 || BelowComputed()
    }

    /** The flag from below: the nested token's, or whether some item of
        the reduction answers `true`; a leaf or an empty token has none. */
    ghost function BelowComputed(): bool
      requires Valid()
      reads Repr - {this}
      decreases depth, 0
    {
      match content
      case NestedToken(t) => t.Computed()
      case Reduced(r) => exists i :: 0 <= i < |r.children| && r.children[i].Cached()
      case Plain(_) => false
    }

    /** What the getter yields when the items answer with their getter as
        written: `true` for a negative state, otherwise what lies below
        yields, an item's exception included. */
    ghost function ComputedAsWritten(): Result<bool>
      requires Valid()
      reads Repr
      decreases depth, 1
    {
      if state < 0 then Success(true) else BelowAsWritten()
    }

    /** The outcome from below as written: the nested token's, or the first
        outcome other than `false` among the items of the reduction. */
    ghost function BelowAsWritten(): Result<bool>
      requires Valid()
      reads Repr - {this}
      decreases depth, 0
    {
      match content
      case NestedToken(t) => t.ComputedAsWritten()
      case Reduced(r) => Items.ListOutcome(r.children, 0)
      case Plain(_) => Success(false)
    }

    /** The constructor: a reduction with an item in error starts in state
        -1, every other token in state `id`. */
    constructor (id: int, content: Content)
      requires content.NestedToken? ==> content.token.Valid()
      requires content.Reduced? ==> forall c :: c in content.reduction.children ==> c.Valid()
      modifies Items.ReprOf(ItemsOf(content))
      ensures Valid() && Repr == {this} + Below(content) && this.id == id && this.content == content
      ensures state == if content.Reduced? &&
          (exists i :: 0 <= i < |content.reduction.children| && old(content.reduction.children[i].Cached()))
        then -1 else id
    {
      var anyError := false;
      var ch := ItemsOf(content);
      ghost var below := Items.ReprOf(ch);
      Items.ReprOfValid(ch);
      if content.Reduced? {
        anyError := Items.AnyError(ch, below, Items.MaxDepth(ch) + 1);
      }
      this.id := id;
      this.content := content;
      this.contentType := DetermineContentType(content);
      Repr := {this} + Below(content);
      depth := if content.NestedToken? then content.token.depth + 1 else 0;
      state := if anyError then -1 else id;
    }

    /** The `IsError` getter: `true` for a negative state; otherwise the
        nested token's flag or whether some item is in error, and a token
        found in error is assigned state -1. It answers what `Computed`
        foretold and leaves that answer unchanged for every later read. */
    method IsError() returns (r: bool)
      requires Valid()
      modifies Repr
      decreases depth, 1
      ensures r == old(Computed())
      ensures Computed() == old(Computed())
      ensures old(state) < 0 ==> unchanged(Repr)
      ensures old(state) >= 0 ==> state == if r then -1 else old(state)
    {
      if state < 0 {
        return true;
      }
      r := AskBelow();
      if r {
        state := -1;
      }
    }

    /** The `switch` of the getter: asks the nested token, or asks the items
        of a reduction in order until one answers `true`. It answers what
        lies below says and leaves that answer as it was. */
    method AskBelow() returns (r: bool)
      requires Valid()
      modifies Repr - {this}
      decreases depth, 0
      ensures r == old(BelowComputed())
      ensures BelowComputed() == old(BelowComputed())
    {
      match content {
        case NestedToken(t) =>
          r := t.IsError();
        case Reduced(red) =>
          var ch := red.children;
          ghost var below := Items.ReprOf(ch);
          Items.ReprOfValid(ch);
          r := Items.AnyError(ch, below, Items.MaxDepth(ch) + 1);
        case Plain(_) =>
          r := false;
      }
    }

    /** The constructor's field assignments once the state it settles on
        is known: what `NewTokenAsWritten` ends with when no item threw. */
    constructor Settled(id: int, content: Content, state: int)
      requires content.NestedToken? ==> content.token.Valid()
      requires content.Reduced? ==> forall c :: c in content.reduction.children ==> c.Valid()
      ensures Valid() && Repr == {this} + Below(content)
      ensures this.id == id && this.content == content && this.state == state
    {
      Items.ReprOfValid(ItemsOf(content));
      this.id := id;
      this.content := content;
      this.contentType := DetermineContentType(content);
      Repr := {this} + Below(content);
      depth := if content.NestedToken? then content.token.depth + 1 else 0;
      this.state := state;
    }

    /** The `IsError` getter with the items asked through their getter as
        written, as the code does: `true` for a negative state; otherwise
        the nested token's outcome or the first item outcome other than
        `false`, where an item's exception leaves the getter. A token found
        in error is assigned state -1; one whose item threw keeps its
        state. */
    method IsErrorAsWritten() returns (r: Result<bool>)
      requires Valid()
      modifies Repr
      decreases depth, 1
      ensures r == old(ComputedAsWritten())
      ensures old(state) < 0 ==> unchanged(Repr)
      ensures old(state) >= 0 ==> state == if r == Success(true) then -1 else old(state)
    {
      if state < 0 {
        return Success(true);
      }
      r := AskBelowAsWritten();
      if r == Success(true) {
        state := -1;
      }
    }

    /** The `switch` of the getter as the code runs it: the nested token's
        getter, or the items' getter as written in order. */
    method AskBelowAsWritten() returns (r: Result<bool>)
      requires Valid()
      modifies Repr - {this}
      decreases depth, 0
      ensures r == old(BelowAsWritten())
    {
      match content {
        case NestedToken(t) =>
          r := t.IsErrorAsWritten();
        case Reduced(red) =>
          r := Items.AskAsWritten(red.children);
        case Plain(_) =>
          r := Success(false);
      }
    }

    /** `Equals` and `GetHashCode`: equal exactly when the ids are, and
        equal tokens hash alike. */
    static function Equals(a: Token, b: Token): (r: bool)
      ensures r <==> a.id == b.id
      ensures r ==> Hash(a) == Hash(b)
    {
      a.id == b.id
    }

    static function Hash(a: Token): int {
      a.id
    }
  }

  /** The constructor as written: a reduction asks its items with their
      getter as written, and an exception an item throws leaves the
      constructor, so that no token is made. Otherwise the token starts in
      state -1 when an item answered `true`, and in state `id` when none
      did or the content is not a reduction. */
  method NewTokenAsWritten(id: int, content: Content) returns (r: Result<Token>)
    requires content.NestedToken? ==> content.token.Valid()
    requires content.Reduced? ==> forall c :: c in content.reduction.children ==> c.Valid()
    modifies Items.ReprOf(ItemsOf(content))
    ensures r.Failure? <==> content.Reduced? && old(Items.ListOutcome(ItemsOf(content), 0)).Failure?
    ensures r.Failure? ==> r.error == old(Items.ListOutcome(ItemsOf(content), 0)).error
    ensures r.Success? ==> fresh(r.value) && r.value.Valid() && r.value.id == id && r.value.content == content
    ensures r.Success? ==>
      r.value.state == if content.Reduced? && old(Items.ListOutcome(ItemsOf(content), 0)) == Success(true) then -1 else id
    ensures !content.Reduced? ==> unchanged(Items.ReprOf(ItemsOf(content)))
  {
    var outcome := Success(false);
    if content.Reduced? {
      outcome := Items.AskAsWritten(ItemsOf(content));
    }
    if outcome.Failure? {
      return Failure(outcome.error);
    }
    var t := new Token.Settled(id, content, if outcome.value then -1 else id);
    r := Success(t);
  }

  /** A reduction over an item `p` nesting an item created in error: the
      constructor as written throws, because asking `p` makes it read the
      memo its own state assignment emptied. */
  method ConstructorThrowsWitness() returns (r: Result<Token>)
    ensures r == Failure(InvalidOperationException)
  {
    var c := Items.ErrorLeaf();
    var p := Items.Wrap(c, 5);
    assert p.AnyOutcome(0) == Success(true) by {
      assert c.AsWritten() == Success(true);
    }
    assert Items.ListOutcome([p], 0) == Failure(InvalidOperationException);
    r := NewTokenAsWritten(7, Reduced(Items.Reduction.Reduction(0, [p])));
  }

  /** A token made over an item `p` whose nested item turns to error only
      afterwards: the token starts in state 8, and with `p`'s memo emptied
      by its own state assignment the getter as written throws. */
  method ReducedOverLateError() returns (t: Token, p: Items.Item)
    ensures t.Valid() && fresh(t.Repr) && t.state == 8 && t.content.Reduced?
    ensures t.content.reduction.children == [p] && p.Valid() && p.inError.None? && p.state == 5
    ensures p.Children() != [] && p.Children()[0].state == -1 && p.Children()[0].inError.None?
  {
    var c := new Items.Item(3, Items.Plain(Contents.Text(Utf16.Lit("x"))));
    assert Items.ReprOf([]) == {};
    p := Items.Wrap(c, 5);
    assert Items.ReprOf([p]) == p.Repr;
    assert !p.Cached() by {
      assert !c.Cached() && p.Children() == [c];
    }
    t := new Token(8, Reduced(Items.Reduction.Reduction(0, [p])));
    assert t.Repr == {t, p, c};
    p.SetState(5);
    c.SetState(-1);
  }

  /** On that token the getter as written throws. */
  method GetterThrowsWitness() returns (r: Result<bool>)
    ensures r == Failure(InvalidOperationException)
  {
    var t, p := ReducedOverLateError();
    var c := p.Children()[0];
    assert p.AnyOutcome(0) == Success(true) by {
      assert c.AsWritten() == Success(true);
    }
    assert Items.ListOutcome([p], 0) == Failure(InvalidOperationException);
    r := t.IsErrorAsWritten();
  }

  /** On the same token the corrected getter answers `true`. */
  method CorrectedGetterWitness() returns (r: bool)
    ensures r
  {
    var t, p := ReducedOverLateError();
    var c := p.Children()[0];
    assert p.Cached() by {
      assert c.Cached();
    }
    assert t.content.reduction.children[0] == p;
    r := t.IsError();
  }

  /** `EOF`: the end-of-input token, id -1 with the string `$`. */
  method NewEOF() returns (e: Token)
    ensures e.Valid() && fresh(e)
    ensures e.id == -1 && e.content == Plain(Contents.Text(Utf16.Lit("$"))) && e.state == -1
    ensures e.contentType == ContentType.Leaf
  {
    e := new Token(-1, Plain(Contents.Text(Utf16.Lit("$"))));
  }
}
