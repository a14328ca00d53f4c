/** The sources the lookahead iterators wrap: an enumerator over a list
    (`IEnumerator<T>`, or the asynchronous `IAsyncIterator<T>` with its awaits
    taken as plain calls). */
module Sources {
  import opened Wrappers

  /** Advancing moves from "before the first item" (0) through "on item
      `i`" (`i + 1`) to "past the end" (`n + 1`), where it stays. */
  function Advanced(position: nat, n: nat): (p: nat)
    requires position <= n + 1
    ensures p <= n + 1
    ensures position <= n ==> p == position + 1
    ensures position == n + 1 ==> p == position
  {
    if position <= n then position + 1 else position
  }

  /** An enumerator over a fixed list of items. */
  class Source<T> {
    const items: seq<T>
    /** `SupportsResetting`; when it is false, `Reset` throws `resetRefusal`. */
    const supportsResetting: bool
    const resetRefusal: Exception
    var position: nat
    var disposed: bool

    ghost predicate Valid()
      reads this
    {
      position <= |items| + 1
    }

    constructor (items: seq<T>, supportsResetting: bool, resetRefusal: Exception)
      ensures Valid() && position == 0 && !disposed
      ensures this.items == items && this.supportsResetting == supportsResetting
      ensures this.resetRefusal == resetRefusal
    {
      this.items := items;
      this.supportsResetting := supportsResetting;
      this.resetRefusal := resetRefusal;
      position := 0;
      disposed := false;
    }

    /** `MoveNext`: true exactly when there was another item to move onto. */
    method MoveNext() returns (b: bool)
      requires Valid()
      modifies this`position
      ensures Valid()
      ensures b <==> old(position) < |items|
      ensures position == Advanced(old(position), |items|)
    {
      b := position < |items|;
      if position <= |items| {
        position := position + 1;
      }
    }

    /** `Current`: the item moved onto last, none before the first or past
        the end. */
    function Current(): (r: Option<T>)
      reads this
      ensures r.Some? <==> 1 <= position <= |items|
      ensures r.Some? ==> r.value == items[position - 1]
    {
      if 1 <= position <= |items| then Some(items[position - 1]) else None
    }

    /** `Reset`: back to the start when supported, otherwise a refusal that
        leaves the position alone. */
    method Reset() returns (r: Result<()>)
      modifies this`position
      ensures supportsResetting ==> r.Success? && position == 0
      ensures !supportsResetting ==> r == Failure(resetRefusal) && position == old(position)
    {
      if supportsResetting {
        position := 0;
        r := Success(());
      } else {
        r := Failure(resetRefusal);
      }
    }

    method Dispose()
      modifies this`disposed
      ensures disposed
    {
      disposed := true;
    }
  }
}
