/** The lexical parse-tree node `Item`: an id, a content that is a reduction,
    another item or a plain value, a mutable state (negative for a node in
    error) and a memo of its error flag that assigning the state clears. */
module Items {
  import opened Wrappers
  import Contents
  import Utf16

  /** What a node's content is. */
  datatype ContentType = Reduction | Nested | Scalar

  /** A reduced production: its index in the production table and the
      items it was reduced from, kept as given. */
  datatype Reduction = Reduction(production: int, children: seq<Item>)

  /** A node's content: a `Reduction`, another `Item`, or any other object
      (null included) as `ContentToString` sees it. */
  datatype Content =
    | Reduced(reduction: Reduction)
    | Child(item: Item)
    | Plain(obj: Contents.Obj)

  /** `DetermineContentType`: a reduction, a nested item, or a scalar for
      null and every other object. */
  function DetermineContentType(c: Content): (t: ContentType)
    ensures t == ContentType.Reduction <==> c.Reduced?
    ensures t == ContentType.Nested <==> c.Child?
    ensures t == ContentType.Scalar <==> c.Plain?
  {
    match c
    case Reduced(_) => ContentType.Reduction
    case Child(_) => ContentType.Nested
    case Plain(_) => ContentType.Scalar
  }

  /** The items a node's error flag is computed from: the children of a
      reduction, the nested item, or none for a scalar. */
  function ChildrenOf(c: Content): seq<Item> {
    match c
    case Reduced(r) => r.children
    case Child(i) => [i]
    case Plain(_) => []
  }

  class Item {
    const id: int
    const content: Content
    const contentType: ContentType
    var state: int
    /** The memo `_inError`: None when nothing is cached. */
    var inError: Option<bool>

    /** This node and every node below it. */
    ghost const Repr: set<Item>
    /** One more than the deepest child: what recursion over the tree
        decreases. */
    ghost const depth: nat

    function Children(): seq<Item> {
      ChildrenOf(content)
    }

    /** The node sits on a finite acyclic tree (children may be shared):
        every node below it is shallower and well formed itself. */
    ghost predicate Valid()
      decreases depth
    {
      this in Repr &&
      contentType == DetermineContentType(content) &&
      (forall c :: c in Children() ==> c in Repr && c != this && c.Repr <= Repr) &&
      (forall m :: m in Repr ==> m.Repr <= Repr) &&
      (forall m :: m in Repr && m != this ==> m.depth < depth && m.Valid())
    }

    /** The error flag the design promises: the node's own state is
        negative, or some child is in error. */
    ghost function Flag(): bool
      requires Valid()
      reads Repr
      decreases depth
    {
      state < 0 || exists i :: 0 <= i < |Children()| && Children()[i].Flag()
    }

    /** The flag as the memo sees it: a cached value wins, otherwise the
        flag is computed from the state and the children's memos. */
    ghost function Cached(): bool
      requires Valid()
      reads Repr
      decreases depth
    {
      if inError.Some? then inError.value
      else state < 0 || exists i :: 0 <= i < |Children()| && Children()[i].Cached()
    }

    /** Every memo agrees with the flag it caches. */
    ghost predicate Sound()
      requires Valid()
      reads Repr
    {
      forall m :: m in Repr ==> m.inError.Some? ==> m.inError.value == m.Flag()
    }

    /** No memo holds `true`: the only memo values the getter as written
        ever leaves behind. */
    ghost predicate NoTrueCache()
      reads Repr
    {
      forall m :: m in Repr ==> m.inError != Some(true)
    }

    /** What the getter as written yields on the current heap: the memo if
        there is one, `true` for a negative state, and otherwise the
        outcome of asking the children in order, where a child in error
        makes the node assign its own state (clearing the memo it just
        filled) and then read the emptied memo. */
    ghost function AsWritten(): Result<bool>
      requires Valid()
      reads Repr
      decreases depth, 1, 0
    {
      if inError.Some? then Success(inError.value)
      else if state < 0 then Success(true)
      else
        if AnyOutcome(0) == Success(true) then Failure(InvalidOperationException) else AnyOutcome(0)
    }

    /** `Any(p => p.IsError)` from child `k` on, with the getter as written:
        the first outcome other than `false`, an exception included. */
    ghost function AnyOutcome(k: nat): Result<bool>
      requires Valid() && k <= |Children()|
      reads Repr - {this}
      decreases depth, 0, |Children()| - k
    {
      if k == |Children()| then Success(false)
      else
        var c := Children()[k];
        NotBelow(this, c);
        if c.AsWritten() == Success(false) then AnyOutcome(k + 1) else c.AsWritten()
    }

    /** The constructor: a reduction with a child whose memo answers `true`
        starts in state -1, every other node in state `id`, with nothing
        cached; only a reduction asks its children. */
    constructor (id: int, content: Content)
      requires forall c :: c in ChildrenOf(content) ==> c.Valid()
      modifies ReprOf(ChildrenOf(content))
      ensures Valid() && Repr == {this} + ReprOf(ChildrenOf(content))
      ensures this.id == id && this.content == content && inError.None?
      ensures state == if content.Reduced? &&
          (exists i :: 0 <= i < |ChildrenOf(content)| && old(ChildrenOf(content)[i].Cached())) then -1 else id
      ensures !content.Reduced? ==> unchanged(ReprOf(ChildrenOf(content)))
    {
      var ch := ChildrenOf(content);
      ghost var below := ReprOf(ch);
      ReprOfValid(ch);
      var anyError := false;
      if content.Reduced? {
        anyError := AnyError(ch, below, MaxDepth(ch) + 1);
      }
      this.id := id;
      this.content := content;
      this.contentType := DetermineContentType(content);
      Repr := {this} + below;
      depth := MaxDepth(ch) + 1;
      state := if anyError then -1 else id;
      inError := None;
      new;
      NewValid(this);
    }

    /** The constructor's field assignments once the state it settles on
        is known: what `NewItemAsWritten` ends with when no child threw. */
    constructor Settled(id: int, content: Content, state: int)
      requires forall c :: c in ChildrenOf(content) ==> c.Valid()
      ensures Valid() && Repr == {this} + ReprOf(ChildrenOf(content))
      ensures this.id == id && this.content == content && this.state == state && inError.None?
    {
      var ch := ChildrenOf(content);
      ReprOfValid(ch);
      this.id := id;
      this.content := content;
      this.contentType := DetermineContentType(content);
      Repr := {this} + ReprOf(ch);
      depth := MaxDepth(ch) + 1;
      this.state := state;
      inError := None;
      new;
      NewValid(this);
    }

    /** The `State` setter: stores the value and empties the memo. */
    method SetState(value: int)
      modifies this
      ensures state == value && inError.None?
    {
      state := value;
      inError := None;
    }

    /** The `IsError` getter with its evident intent restored: after a
        child in error has made the node assign state -1, it answers `true`
        instead of reading the memo the assignment emptied. It answers what
        the memo promises, leaves every memo's answer as it was, and with
        consistent memos answers the error flag. */
    method IsError() returns (r: bool)
      requires Valid()
      modifies Repr
      decreases depth, 1
      ensures r == old(Cached())
      ensures forall m :: m in Repr ==> m.Cached() == old(m.Cached())
      ensures old(inError).Some? || old(state) < 0 ==> unchanged(Repr)
      ensures old(inError).None? && old(state) >= 0 ==>
        if r then state == -1 && inError.None? else state == old(state) && inError == Some(false)
      ensures old(Sound()) ==> r == old(Flag())
    {
      if Sound() {
        SoundCachedIsFlag(this);
      }
      if inError.Some? {
        return inError.value;
      }
      if state < 0 {
        return true;
      }
      inError := Some(false);
      var below := Repr - {this};
      forall m | m in below
        ensures this !in m.Repr && m.Cached() == old(m.Cached())
      {
        NotBelow(this, m);
      }
      label Asked:
      var flag := AnyError(Children(), below, depth);
      label Answered:
      if flag {
        inError := Some(true);
        SetState(-1);
      }
      r := flag;
      forall m | m in below
        ensures m.Cached() == old(m.Cached())
      {
        assert m.Cached() == old@Answered(m.Cached());
        assert m.state == old@Answered(m.state) && m.inError == old@Answered(m.inError);
        assert old@Asked(m.Cached()) == old(m.Cached());
        assert old@Asked(m.state) == old(m.state) && old@Asked(m.inError) == old(m.inError);
      }
    }

    /** The `IsError` getter as written. It answers the memo when there is
        one and `true` for a negative state; otherwise it fills the memo
        with `false` and asks the children, and a child in error makes it
        assign state -1, which empties the memo, and read the empty memo:
        it throws instead of answering `true`. A child's exception leaves
        the memo at `false`, where later reads find it. */
    method IsErrorAsWritten() returns (r: Result<bool>)
      requires Valid()
      modifies Repr
      decreases depth, 1
      ensures r == old(AsWritten())
      ensures r.Success? ==> forall m :: m in Repr ==> m.AsWritten() == old(m.AsWritten())
      ensures old(inError).Some? || old(state) < 0 ==> unchanged(Repr)
      ensures old(inError).None? && old(state) >= 0 ==>
        if old(AnyOutcome(0)) == Success(true) then state == -1 && inError.None?
        else state == old(state) && inError == Some(false)
      ensures old(NoTrueCache()) ==> NoTrueCache()
      ensures old(NoTrueCache()) ==>
        forall m :: m in Repr ==> m.state == old(m.state) || (m.state < 0 && old(m.Flag()))
    {
      if inError.Some? {
        return Success(inError.value);
      }
      if state < 0 {
        return Success(true);
      }
      if NoTrueCache() {
        ChildTrueIsFlag(this);
      }
      var below := Repr - {this};
      forall m | m in below
        ensures this !in m.Repr
      {
        NotBelow(this, m);
      }
      inError := Some(false);
      AnyOutcomeIsListOutcome(this, 0);
      var outcome := AnyErrorAsWritten(Children(), below, depth);
      if outcome == Success(true) {
        inError := Some(true);
        SetState(-1);
        r := Failure(InvalidOperationException);
      } else {
        r := outcome;
        if r.Success? {
          assert !r.value && r == Success(false);
          forall m | m in Repr
            ensures m.AsWritten() == old(m.AsWritten())
          {
            if m != this {
              assert m in below;
            }
          }
        }
      }
    }

    /** `ToString`: the text of the content. A string gives itself and null
        the empty string; a nested item gives its own text, and a reduction,
        which is not enumerable, the name of its type. */
    function ToString(): (s: Utf16.Str)
      requires Valid()
      decreases depth
      ensures content == Plain(Contents.Null) ==> s == []
      ensures content.Plain? && content.obj.Text? ==> s == content.obj.s
    {
      match content
      case Plain(o) => Contents.ContentToString(o)
      case Child(i) => i.ToString()
      case Reduced(_) => Utf16.Lit("CodeProject.Syntax.LALR.Reduction")
    }

    /** `Equals` and `GetHashCode`: two items are equal exactly when their
        ids are, whatever their contents and states, and equal items hash
        alike. */
    static function Equals(a: Item, b: Item): (r: bool)
      ensures r <==> a.id == b.id
      ensures r ==> Hash(a) == Hash(b)
    {
      a.id == b.id
    }

    static function Hash(a: Item): int {
      a.id
    }
  }

  /** The nodes on or below the given items. */
  ghost function ReprOf(ch: seq<Item>): set<Item> {
    set c, m | c in ch && m in c.Repr :: m
  }

  ghost function MaxDepth(ch: seq<Item>): (d: nat)
    ensures forall c :: c in ch ==> c.depth <= d
  {
    if ch == [] then 0
    else
      var rest := MaxDepth(ch[1..]);
      assert forall c :: c in ch ==> c == ch[0] || c in ch[1..];
      if ch[0].depth > rest then ch[0].depth else rest
  }

  lemma ReprOfValid(ch: seq<Item>)
    requires forall c :: c in ch ==> c.Valid()
    ensures forall m :: m in ReprOf(ch) ==> m.Valid() && m.depth <= MaxDepth(ch)
  {
    forall m | m in ReprOf(ch)
      ensures m.Valid() && m.depth <= MaxDepth(ch)
    {
      var c :| c in ch && m in c.Repr;
    }
  }

  /** A node made from well-formed children, with the footprint and depth
      the constructor gives it, is well formed. */
  lemma NewValid(n: Item)
    requires forall c :: c in n.Children() ==> c.Valid()
    requires n.contentType == DetermineContentType(n.content)
    requires n.Repr == {n} + ReprOf(n.Children()) && n !in ReprOf(n.Children())
    requires n.depth == MaxDepth(n.Children()) + 1
    ensures n.Valid()
  {
    ReprOfValid(n.Children());
  }

  /** A node below another never has the upper one below it. */
  lemma NotBelow(n: Item, m: Item)
    requires n.Valid() && m in n.Repr && m != n
    ensures n !in m.Repr
  {
    assert m.Valid();
  }

  /** With consistent memos, the memo's answer is the error flag (stated
      for the earlier of two heaps, so that it serves callers whose memos
      have changed since). */
  twostate lemma {:induction false} SoundCachedIsFlag(n: Item)
    requires n.Valid() && old(n.Sound())
    ensures old(n.Cached()) == old(n.Flag())
    decreases n.depth
  {
    if old(n.inError).None? {
      forall i | 0 <= i < |n.Children()|
        ensures old(n.Children()[i].Cached()) == old(n.Children()[i].Flag())
      {
        assert n.Children()[i] in n.Repr;
        SoundCachedIsFlag(n.Children()[i]);
      }
    }
  }

  /** A node's memo answer survives a change of the heap if every node
      below it either kept its fields or kept its memo answer. */
  twostate lemma {:induction false} CachedFrame(n: Item)
    requires n.Valid()
    requires forall m :: m in n.Repr ==>
      (old(m.state) == m.state && old(m.inError) == m.inError) || old(m.Cached()) == m.Cached()
    ensures old(n.Cached()) == n.Cached()
    decreases n.depth
  {
    if old(n.state) == n.state && old(n.inError) == n.inError {
      forall i | 0 <= i < |n.Children()|
        ensures old(n.Children()[i].Cached()) == n.Children()[i].Cached()
      {
        CachedFrame(n.Children()[i]);
      }
    }
  }

  /** The same for the outcome of the getter as written. */
  twostate lemma {:induction false} AsWrittenFrame(n: Item)
    requires n.Valid()
    requires forall m :: m in n.Repr ==>
      (old(m.state) == m.state && old(m.inError) == m.inError) || old(m.AsWritten()) == m.AsWritten()
    ensures old(n.AsWritten()) == n.AsWritten()
    decreases n.depth
  {
    if old(n.state) == n.state && old(n.inError) == n.inError {
      forall i | 0 <= i < |n.Children()|
        ensures old(n.Children()[i].AsWritten()) == n.Children()[i].AsWritten()
      {
        AsWrittenFrame(n.Children()[i]);
      }
      var j := |n.Children()|;
      while j > 0
        invariant 0 <= j <= |n.Children()|
        invariant old(n.AnyOutcome(j)) == n.AnyOutcome(j)
      {
        j := j - 1;
      }
    }
  }

  /** The error flag survives a change of the heap in which states only
      turned negative on nodes that were already in error. */
  twostate lemma {:induction false} FlagFrame(n: Item)
    requires n.Valid()
    requires forall m :: m in n.Repr ==> old(m.state) == m.state || (m.state < 0 && old(m.Flag()))
    ensures old(n.Flag()) == n.Flag()
    decreases n.depth
  {
    if old(n.state) == n.state {
      forall i | 0 <= i < |n.Children()|
        ensures old(n.Children()[i].Flag()) == n.Children()[i].Flag()
      {
        FlagFrame(n.Children()[i]);
      }
    }
  }

  /** Under memos that never hold `true`, a node whose children's `Any`
      answered `true` is in error. */
  lemma ChildTrueIsFlag(n: Item)
    requires n.Valid() && n.NoTrueCache()
    ensures forall k :: 0 <= k <= |n.Children()| && n.AnyOutcome(k) == Success(true) ==> n.Flag()
  {
    forall k | 0 <= k <= |n.Children()| && n.AnyOutcome(k) == Success(true)
      ensures n.Flag()
    {
      AnyTrueIsFlag(n, k);
    }
  }

  lemma {:induction false} AnyTrueIsFlag(n: Item, k: nat)
    requires n.Valid() && n.NoTrueCache() && k <= |n.Children()|
    requires n.AnyOutcome(k) == Success(true)
    ensures exists i :: k <= i < |n.Children()| && n.Children()[i].state < 0
    ensures n.Flag()
    decreases |n.Children()| - k
  {
    var c := n.Children()[k];
    if c.AsWritten() == Success(false) {
      AnyTrueIsFlag(n, k + 1);
    } else {
      assert c.inError != Some(true);
      assert c.state < 0;
      assert c.Flag();
    }
  }

  /** `Any(p => p.IsError)` over a list of items, using the corrected
      getter: whether some item's memo answers `true`, asking the items in
      order and stopping at the first that does. Every node below keeps its
      memo answer. */
  method AnyError(ch: seq<Item>, ghost below: set<Item>, ghost bound: nat) returns (r: bool)
    requires forall c :: c in ch ==> c.Valid() && c.Repr <= below && c.depth < bound
    requires forall m :: m in below ==> m.Valid() && m.Repr <= below
    modifies below
    decreases bound, 0
    ensures r == exists i :: 0 <= i < |ch| && old(ch[i].Cached())
    ensures forall m :: m in below ==> m.Cached() == old(m.Cached())
    ensures forall i :: 0 <= i < |ch| ==> ch[i].Cached() == old(ch[i].Cached())
  {
    var k := 0;
    r := false;
    while k < |ch| && !r
      invariant 0 <= k <= |ch|
      invariant r ==> k > 0 && old(ch[k - 1].Cached())
      invariant !r ==> forall i :: 0 <= i < k ==> !old(ch[i].Cached())
      invariant forall m :: m in below ==> m.Cached() == old(m.Cached())
    {
      var c := ch[k];
      label L:
      var b := c.IsError();
      forall m | m in below
        ensures m.Cached() == old(m.Cached())
      {
        CachedFrame@L(m);
      }
      r := b;
      k := k + 1;
    }
    forall i | 0 <= i < |ch|
      ensures ch[i].Cached() == old(ch[i].Cached())
    {
      assert ch[i] in ch[i].Repr;
    }
  }

  /** `Any(p => p.IsError)` over a list of items with the getter as
      written, on the current heap: the first outcome other than `false`,
      an exception included, or `false` when every item answers `false`. */
  ghost function ListOutcome(ch: seq<Item>, k: nat): Result<bool>
    requires k <= |ch| && forall c :: c in ch ==> c.Valid()
    reads ReprOf(ch)
    decreases |ch| - k
  {
    if k == |ch| then Success(false)
    else
      var c := ch[k];
      assert c in ch && c.Valid();
      if c.AsWritten() == Success(false) then ListOutcome(ch, k + 1) else c.AsWritten()
  }

  /** A node's own scan over its children is the list scan. */
  lemma {:induction false} AnyOutcomeIsListOutcome(n: Item, k: nat)
    requires n.Valid() && k <= |n.Children()|
    ensures n.AnyOutcome(k) == ListOutcome(n.Children(), k)
    decreases |n.Children()| - k
  {
    if k < |n.Children()| {
      AnyOutcomeIsListOutcome(n, k + 1);
    }
  }

  /** `Any(p => p.IsError)` over a list of items with the getter as
      written: it asks the items in order and stops at the first outcome
      other than `false`, which is the outcome `ListOutcome` foretells.
      While every item answers `false` every outcome below stays as it was;
      under memos that never hold `true` none comes to hold it, and a state
      only turns negative on a node already in error. */
  method AnyErrorAsWritten(ch: seq<Item>, ghost below: set<Item>, ghost bound: nat) returns (outcome: Result<bool>)
    requires forall c :: c in ch ==> c.Valid() && c.Repr <= below && c.depth < bound
    requires forall m :: m in below ==> m.Valid() && m.Repr <= below
    modifies below
    decreases bound, 0
    ensures outcome == old(ListOutcome(ch, 0))
    ensures outcome == Success(false) ==>
      forall m :: m in below ==> m.AsWritten() == old(m.AsWritten())
    ensures (forall m :: m in below ==> old(m.inError) != Some(true)) ==>
      forall m :: m in below ==> m.inError != Some(true)
    ensures (forall m :: m in below ==> old(m.inError) != Some(true)) ==>
      forall m :: m in below ==> m.state == old(m.state) || (m.state < 0 && old(m.Flag()))
  {
    var k := 0;
    outcome := Success(false);
    ghost var noTrue := forall m :: m in below ==> old(m.inError) != Some(true);
    while k < |ch| && outcome == Success(false)
      invariant 0 <= k <= |ch|
      invariant outcome == Success(false) ==> old(ListOutcome(ch, 0)) == old(ListOutcome(ch, k))
      invariant outcome != Success(false) ==> old(ListOutcome(ch, 0)) == outcome
      invariant outcome == Success(false) ==>
        forall m :: m in below ==> m.AsWritten() == old(m.AsWritten())
      invariant noTrue ==>
        (forall m :: m in below ==> m.inError != Some(true)) &&
        (forall m :: m in below ==> m.state == old(m.state) || (m.state < 0 && old(m.Flag())))
    {
      var c := ch[k];
      if noTrue {
        forall m | m in below
          ensures m.Flag() == old(m.Flag())
        {
          FlagFrame(m);
        }
      }
      assert old(ListOutcome(ch, k)) ==
        if old(c.AsWritten()) == Success(false) then old(ListOutcome(ch, k + 1)) else old(c.AsWritten());
      label L:
      var o := c.IsErrorAsWritten();
      assert o == old(c.AsWritten());
      if o == Success(false) {
        forall m | m in below
          ensures m.AsWritten() == old(m.AsWritten())
        {
          AsWrittenFrame@L(m);
        }
      }
      if noTrue {
        forall m | m in below
          ensures m.inError != Some(true)
          ensures m.state == old(m.state) || (m.state < 0 && old(m.Flag()))
        {
        }
      }
      outcome := o;
      k := k + 1;
    }
  }

  /** The constructor as written: a reduction asks its children with the
      getter as written, and an exception a child throws leaves the
      constructor, so that no node is made. Otherwise the node starts in
      state -1 when a child answered `true`, and in state `id` when none
      did or the content is not a reduction. */
  method NewItemAsWritten(id: int, content: Content) returns (r: Result<Item>)
    requires forall c :: c in ChildrenOf(content) ==> c.Valid()
    modifies ReprOf(ChildrenOf(content))
    ensures r.Failure? <==> content.Reduced? && old(ListOutcome(ChildrenOf(content), 0)).Failure?
    ensures r.Failure? ==> r.error == old(ListOutcome(ChildrenOf(content), 0)).error
    ensures r.Success? ==> fresh(r.value) && r.value.Valid() && r.value.Repr == {r.value} + ReprOf(ChildrenOf(content))
    ensures r.Success? ==> r.value.id == id && r.value.content == content && r.value.inError.None?
    ensures r.Success? ==>
      r.value.state == if content.Reduced? && old(ListOutcome(ChildrenOf(content), 0)) == Success(true) then -1 else id
    ensures !content.Reduced? ==> unchanged(ReprOf(ChildrenOf(content)))
  {
    var outcome := Success(false);
    if content.Reduced? {
      outcome := AskAsWritten(ChildrenOf(content));
    }
    if outcome.Failure? {
      return Failure(outcome.error);
    }
    var n := new Item.Settled(id, content, if outcome.value then -1 else id);
    r := Success(n);
  }

  /** `AnyErrorAsWritten` over the whole footprint of the items. */
  method AskAsWritten(ch: seq<Item>) returns (outcome: Result<bool>)
    requires forall c :: c in ch ==> c.Valid()
    modifies ReprOf(ch)
    ensures outcome == old(ListOutcome(ch, 0))
  {
    ReprOfValid(ch);
    outcome := AnyErrorAsWritten(ch, ReprOf(ch), MaxDepth(ch) + 1);
  }

  /** A reduction over a parent `p` of an item `c` created in error: the
      constructor as written throws, because asking `p` makes it read the
      memo its own state assignment emptied. */
  method ConstructorThrowsWitness() returns (r: Result<Item>)
    ensures r == Failure(InvalidOperationException)
  {
    var c := ErrorLeaf();
    var p := Wrap(c, 5);
    assert p.AnyOutcome(0) == Success(true) by {
      assert c.AsWritten() == Success(true);
    }
    assert ListOutcome([p], 0) == Failure(InvalidOperationException);
    r := NewItemAsWritten(7, Reduced(Reduction.Reduction(0, [p])));
  }

  /** On the same tree the corrected constructor starts the node in state
      -1. */
  method CorrectedConstructorWitness() returns (state: int)
    ensures state == -1
  {
    var c := ErrorLeaf();
    var p := Wrap(c, 5);
    assert p.Cached() by {
      assert c.Cached() && p.Children()[0] == c;
    }
    var n := new Item(7, Reduced(Reduction.Reduction(0, [p])));
    assert ChildrenOf(n.content)[0] == p;
    state := n.state;
  }

  /** `EOF`: the end-of-input item, id -1 with the string `$`, in error
      from the start. One is made per use: a shared static object is not
      part of this model. */
  method NewEOF() returns (e: Item)
    ensures e.Valid() && fresh(e) && e.Repr == {e}
    ensures e.id == -1 && e.content == Plain(Contents.Text(Utf16.Lit("$")))
    ensures e.state == -1 && e.inError.None? && e.ToString() == Utf16.Lit("$")
  {
    e := new Item(-1, Plain(Contents.Text(Utf16.Lit("$"))));
    assert ReprOf([]) == {};
  }

  /** A leaf created in error: a plain string content with a negative id. */
  method ErrorLeaf() returns (c: Item)
    ensures c.Valid() && fresh(c) && c.Repr == {c} && c.Children() == []
    ensures c.inError.None? && c.state == -1
  {
    c := new Item(-1, Plain(Contents.Text(Utf16.Lit("x"))));
    assert ReprOf([]) == {};
  }

  /** A node nesting `c`, created with a non-negative id. */
  method Wrap(c: Item, id: nat) returns (p: Item)
    requires c.Valid()
    modifies c.Repr
    ensures p.Valid() && fresh(p) && p.Repr == {p} + c.Repr && p.Children() == [c]
    ensures p.inError.None? && p.state == id && unchanged(c.Repr)
  {
    p := new Item(id, Child(c));
    assert ReprOf([c]) == c.Repr;
  }

  /** A grandparent `g` of an item `c` created in error, through a parent
      `p`, with nothing cached: the getter as written will throw on it. */
  method MaskedErrorTree() returns (g: Item)
    ensures g.Valid() && fresh(g.Repr)
    ensures g.inError.None? && g.state >= 0 && g.Flag() && g.NoTrueCache()
    ensures g.AnyOutcome(0) == Failure(InvalidOperationException)
  {
    var c := ErrorLeaf();
    var p := Wrap(c, 5);
    g := Wrap(p, 6);
    assert g.Repr == {g, p, c};
    assert c.AsWritten() == Success(true) && c.Flag();
    assert p.Children()[0].Flag();
    assert p.AnyOutcome(0) == Success(true) && p.Flag();
    assert g.Children()[0].Flag();
    assert p.AsWritten() == Failure(InvalidOperationException);
  }

  /** On that tree the first read throws (the parent reads the memo its own
      state assignment emptied), and the second answers the `false` the
      grandparent cached, although the grandparent is in error. */
  method MaskedErrorWitness() returns (first: Result<bool>, second: Result<bool>, ghost flagged: bool)
    ensures first == Failure(InvalidOperationException)
    ensures second == Success(false) && flagged
  {
    var g := MaskedErrorTree();
    label Before:
    first := g.IsErrorAsWritten();
    FlagFrame@Before(g);
    second := g.IsErrorAsWritten();
    flagged := g.Flag();
  }

  /** The corrected getter on the same tree answers `true`. */
  method CorrectedErrorWitness() returns (r: bool)
    ensures r
  {
    var c := ErrorLeaf();
    var p := Wrap(c, 5);
    var g := Wrap(p, 6);
    assert c.Cached();
    assert p.Children()[0].Cached();
    assert p.Cached();
    assert g.Children()[0].Cached();
    r := g.IsError();
  }
}
