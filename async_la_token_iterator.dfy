/** `AsyncLATokenIterator`: the lexical grammar's one-token lookahead over an
    asynchronous item source, each await taken as a plain call. */
module AsyncLookaheadIterators {
  import opened Wrappers
  import opened Sources
  import Items
  import Contents
  import Utf16

  class AsyncLATokenIterator {
    const inputSource: Source<Items.Item>
    /** `Item.EOF`, what `LookAheadAsync` reads past the end. */
    const eof: Items.Item
    /** `_lookAhead`: empty or the item read ahead. */
    var lookAhead: Option<Items.Item>

    /** A buffered item is the one the source last moved onto, or EOF once
        the source is past the end. */
    ghost predicate Valid()
      reads this, inputSource
    {
      inputSource.Valid() &&
      (lookAhead.Some? ==> 1 <= inputSource.position && lookAhead.value == ItemAt(inputSource.position - 1))
    }

    /** The `i`-th item of the input, or EOF past its end. */
    ghost function ItemAt(i: nat): Items.Item
      reads this
    {
      if i < |inputSource.items| then inputSource.items[i] else eof
    }

    /** The source's position less the buffered item. */
    ghost function Cursor(): nat
      reads this, inputSource
      requires Valid()
    {
      if lookAhead.Some? then inputSource.position - 1 else inputSource.position
    }

    /** The item `LookAheadAsync` shows next. */
    ghost function Next(): Items.Item
      reads this, inputSource
      requires Valid()
    {
      ItemAt(Cursor())
    }

    constructor (inputSource: Source<Items.Item>)
      requires inputSource.Valid()
      ensures Valid() && this.inputSource == inputSource && lookAhead.None?
      ensures eof.id == -1 && eof.content == Items.Plain(Contents.Text(Utf16.Lit("$")))
    {
      this.inputSource := inputSource;
      var e := Items.NewEOF();
      eof := e;
      lookAhead := None;
    }

    /** `LookAheadAsync`: the buffered item; with an empty slot, the source
        advances once and its current item, or EOF when it is exhausted,
        fills the slot. Reading again shows the same item without moving. */
    method LookAheadAsync() returns (t: Items.Item)
      requires Valid()
      modifies this`lookAhead, inputSource`position
      ensures Valid()
      ensures t == old(Next()) && Next() == old(Next()) && lookAhead == Some(t)
      ensures old(lookAhead).Some? ==> t == old(lookAhead).value && inputSource.position == old(inputSource.position)
      ensures old(lookAhead).None? ==> inputSource.position == Advanced(old(inputSource.position), |inputSource.items|)
    {
      if lookAhead.Some? {
        t := lookAhead.value;
      } else {
        var moved := inputSource.MoveNext();
        if moved {
          var c := CurrentAsync();
          t := c.value;
        } else {
          t := eof;
        }
        lookAhead := Some(t);
      }
    }

    /** `CurrentAsync`: the source's current item. */
    method CurrentAsync() returns (r: Option<Items.Item>)
      requires inputSource.Valid()
      ensures r.Some? <==> 1 <= inputSource.position <= |inputSource.items|
      ensures r.Some? ==> r.value == inputSource.items[inputSource.position - 1]
    {
      r := inputSource.Current();
    }

    /** `MoveNextAsync`: a buffered item is consumed without touching the
        source (true, even for a buffered EOF); otherwise the source moves. */
    method MoveNextAsync() returns (b: bool)
      requires Valid()
      modifies this`lookAhead, inputSource`position
      ensures Valid() && lookAhead.None?
      ensures old(lookAhead).Some? ==> b && inputSource.position == old(inputSource.position)
      ensures old(lookAhead).None? ==>
        (b <==> old(inputSource.position) < |inputSource.items|) &&
        inputSource.position == Advanced(old(inputSource.position), |inputSource.items|)
    {
      if lookAhead.Some? {
        lookAhead := None;
        b := true;
      } else {
        b := inputSource.MoveNext();
      }
    }

    /** `Reset`: the slot is emptied, then the source resets or refuses. */
    method Reset() returns (r: Result<()>)
      requires Valid()
      modifies this`lookAhead, inputSource`position
      ensures Valid() && lookAhead.None?
      ensures inputSource.supportsResetting ==> r.Success? && inputSource.position == 0
      ensures !inputSource.supportsResetting ==>
        r == Failure(inputSource.resetRefusal) && inputSource.position == old(inputSource.position)
    {
      lookAhead := None;
      r := inputSource.Reset();
    }

    /** `SupportsResetting`: the source's. */
    function SupportsResetting(): (b: bool)
      ensures b == inputSource.supportsResetting
    {
      inputSource.supportsResetting
    }

    /** `Dispose`: the slot is emptied and the source disposed. */
    method Dispose()
      requires Valid()
      modifies this`lookAhead, inputSource`disposed
      ensures Valid() && lookAhead.None? && inputSource.disposed
    {
      lookAhead := None;
      inputSource.Dispose();
    }
  }

  /** Moving, reading the current item and looking ahead in turn over a
      list: the `i`-th move succeeds, the current item is the `i`-th and
      the lookahead is the next one, or EOF after the last. */
  method Iterate(items: seq<Items.Item>) returns (moved: seq<bool>, currents: seq<Option<Items.Item>>,
                                                   lookaheads: seq<Items.Item>, eof: Items.Item)
    ensures |moved| == |currents| == |lookaheads| == |items|
    ensures forall i :: 0 <= i < |items| ==> moved[i] && currents[i] == Some(items[i])
    ensures forall i :: 0 <= i < |items| ==>
      lookaheads[i] == if i + 1 < |items| then items[i + 1] else eof
    ensures eof.id == -1
  {
    var source := new Source(items, true, InvalidOperationException);
    var it := new AsyncLATokenIterator(source);
    eof := it.eof;
    moved, currents, lookaheads := [], [], [];
    var i := 0;
    while i < |items|
      invariant 0 <= i <= |items|
      invariant it.Valid() && it.inputSource == source && source.items == items && it.eof == eof
      invariant i == 0 ==> it.lookAhead.None? && source.position == 0
      invariant i > 0 ==> it.lookAhead.Some? && source.position == i + 1
      invariant |moved| == |currents| == |lookaheads| == i
      invariant forall k :: 0 <= k < i ==> moved[k] && currents[k] == Some(items[k])
      invariant forall k :: 0 <= k < i ==>
        lookaheads[k] == if k + 1 < |items| then items[k + 1] else eof
    {
      var m := it.MoveNextAsync();
      var c := it.CurrentAsync();
      var la := it.LookAheadAsync();
      moved, currents, lookaheads := moved + [m], currents + [c], lookaheads + [la];
      i := i + 1;
    }
  }

  /** Reading a resettable source to the end and resetting it: a further
      move succeeds exactly when the list is not empty. An unresettable
      source refuses with `InvalidOperationException`. */
  method DrainAndReset(items: seq<Items.Item>, resettable: bool) returns (r: Result<bool>)
    ensures resettable ==> r == Success(items != [])
    ensures !resettable ==> r == Failure(InvalidOperationException)
  {
    var source := new Source(items, resettable, InvalidOperationException);
    var it := new AsyncLATokenIterator(source);
    var more := it.MoveNextAsync();
    while more
      invariant it.Valid() && it.inputSource == source && source.items == items
      invariant it.lookAhead.None? && source.supportsResetting == resettable
      invariant source.resetRefusal == InvalidOperationException
      invariant more ==> source.position <= |items|
      decreases |items| + 1 - source.position, more
    {
      more := it.MoveNextAsync();
    }
    var reset := it.Reset();
    if reset.Failure? {
      return Failure(reset.error);
    }
    var again := it.MoveNextAsync();
    r := Success(again);
  }
}
