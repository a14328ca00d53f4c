/** `LATokenIterator`: the driver's one-token lookahead over an enumerator of
    tokens. A slot buffers the token `LookAhead` has read ahead; `MoveNext`
    consumes the slot before it touches the enumerator again. */
module LookaheadIterators {
  import opened Wrappers
  import opened Sources
  import Tokens
  import Contents
  import Utf16

  class LATokenIterator {
    const tokens: Source<Tokens.Token>
    /** `Token.EOF`, what `LookAhead` reads past the end. */
    const eof: Tokens.Token
    /** `_lookAhead`: empty or the token read ahead. */
    var lookAhead: Option<Tokens.Token>

    /** A buffered token is the one the enumerator last moved onto, or the
        end-of-input token once the enumerator is past the end. */
    ghost predicate Valid()
      reads this, tokens
    {
      tokens.Valid() &&
      (lookAhead.Some? ==> 1 <= tokens.position && lookAhead.value == TokenAt(tokens.position - 1))
    }

    /** The `i`-th token of the input, or EOF past its end. */
    ghost function TokenAt(i: nat): Tokens.Token
      reads this
    {
      if i < |tokens.items| then tokens.items[i] else eof
    }

    /** How many tokens of the input the iterator's user has moved past or
        not yet been shown as lookahead: the enumerator's position, less
        the buffered token. */
    ghost function Cursor(): nat
      reads this, tokens
      requires Valid()
    {
      if lookAhead.Some? then tokens.position - 1 else tokens.position
    }

    /** The token `LookAhead` shows next. */
    ghost function Next(): Tokens.Token
      reads this, tokens
      requires Valid()
    {
      TokenAt(Cursor())
    }

    constructor (tokens: Source<Tokens.Token>)
      requires tokens.Valid()
      ensures Valid() && this.tokens == tokens && lookAhead.None?
      ensures eof.id == -1 && eof.content == Tokens.Value(Contents.Text(Utf16.Lit("$")))
      ensures fresh(eof) && eof.Valid()
    {
      this.tokens := tokens;
      var e := Tokens.NewEOF();
      eof := e;
      lookAhead := None;
    }

    /** `LookAhead`: the buffered token; with an empty slot, the enumerator
        advances once and its current token, or EOF past the end, fills the
        slot. Reading again shows the same token without moving. */
    method LookAhead() returns (t: Tokens.Token)
      requires Valid()
      modifies this`lookAhead, tokens`position
      ensures Valid()
      ensures t == old(Next()) && Next() == old(Next()) && lookAhead == Some(t)
      ensures old(lookAhead).Some? ==> t == old(lookAhead).value && tokens.position == old(tokens.position)
      ensures old(lookAhead).None? ==> tokens.position == Advanced(old(tokens.position), |tokens.items|)
      ensures old(Cursor()) <= |tokens.items| ==> Cursor() == old(Cursor())
    {
      if lookAhead.Some? {
        t := lookAhead.value;
      } else {
        var moved := tokens.MoveNext();
        if moved {
          t := tokens.Current().value;
        } else {
          t := eof;
        }
        lookAhead := Some(t);
      }
    }

    /** `MoveNext`: a buffered token is consumed without touching the
        enumerator (true, even for a buffered EOF); otherwise the
        enumerator moves. */
    method MoveNext() returns (b: bool)
      requires Valid()
      modifies this`lookAhead, tokens`position
      ensures Valid() && lookAhead.None?
      ensures old(lookAhead).Some? ==> b && tokens.position == old(tokens.position)
      ensures old(lookAhead).None? ==>
        (b <==> old(tokens.position) < |tokens.items|) &&
        tokens.position == Advanced(old(tokens.position), |tokens.items|)
      ensures Cursor() == Advanced(old(Cursor()), |tokens.items|) || old(Cursor()) == |tokens.items| + 1
    {
      if lookAhead.Some? {
        lookAhead := None;
        b := true;
      } else {
        b := tokens.MoveNext();
      }
    }

    /** `Current`: the enumerator's current token. */
    function Current(): (r: Option<Tokens.Token>)
      reads this, tokens
      requires Valid()
      ensures r.Some? <==> 1 <= tokens.position <= |tokens.items|
      ensures r.Some? ==> r.value == tokens.items[tokens.position - 1]
    {
      tokens.Current()
    }

    /** `Reset`: the slot is emptied, then the enumerator resets (or refuses). */
    method Reset() returns (r: Result<()>)
      requires Valid()
      modifies this`lookAhead, tokens`position
      ensures Valid() && lookAhead.None?
      ensures tokens.supportsResetting ==> r.Success? && tokens.position == 0
      ensures !tokens.supportsResetting ==>
        r == Failure(tokens.resetRefusal) && tokens.position == old(tokens.position)
    {
      lookAhead := None;
      r := tokens.Reset();
    }

    /** `Dispose`: the slot is emptied and the enumerator disposed. */
    method Dispose()
      requires Valid()
      modifies this`lookAhead, tokens`disposed
      ensures Valid() && lookAhead.None? && tokens.disposed
    {
      lookAhead := None;
      tokens.Dispose();
    }
  }
}
