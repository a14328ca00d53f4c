/** The LALR(1) parser generator and its table-driven driver. Building a
    parser runs its phases in order: the production table, the symbol
    partition, the LR(0) automaton, the FIRST sets, the kernels, the
    spontaneous lookaheads and propagation edges, the lookahead fixpoint and
    the parse table. Items, item sets and states are interned into lists
    that only grow, so an id keeps naming the same value. */
module Parsers {
  import opened Wrappers
  import opened Grammars
  import opened LRItems
  import opened ParseTables
  import opened ParserSpecs
  import opened LalrSpecs
  import Collections
  import Tokens
  import Sources
  import LookaheadIterators
  import Contents
  import Utf16

  /** Where a turn of the driver's loop leaves the parse: still running, or
      returning the accepted root or the lookahead the table rejects. */
  datatype Outcome =
    | Continue
    | Accepted(root: Tokens.Token)
    | Rejected(lookahead: Tokens.Token)

  /** Every token the driver's iterator can show is well formed, and its
      end-of-input token has id -1. */
  ghost predicate InputValid(it: LookaheadIterators.LATokenIterator) {
    (forall t :: t in it.tokens.items ==> t.Valid()) && it.eof.Valid() && it.eof.id == -1
  }

  /** The shift-reduce invariant: the end of input has not been consumed and
      the leaves of the stack, bottom to top, are the input tokens consumed
      so far. */
  ghost predicate Yields(stack: seq<Tokens.Token>, it: LookaheadIterators.LATokenIterator)
    reads it, it.tokens
    requires it.Valid()
  {
    (forall t :: t in stack ==> t.Valid()) && InputValid(it) && it.Cursor() <= |it.tokens.items| &&
    Tokens.Frontier(stack) == Tokens.Frontier(it.tokens.items[..it.Cursor()])
  }

  class Parser {
    const grammar: Grammar
    var productions: seq<Production>
    var productionPrecedence: seq<int>
    var productionDerivation: seq<Derivation>
    var terminals: set<int>
    var nonterminals: set<int>
    var lr0Items: seq<LR0Item>
    var lr1Items: seq<LR1Item>
    var lr0States: seq<set<int>>
    var lr0Kernels: seq<set<int>>
    var lalrStates: seq<set<int>>
    var lrGotos: seq<seq<int>>
    var gotoPrecedence: seq<seq<int>>
    var firstSets: seq<set<int>>
    var lalrPropogations: seq<map<int, seq<LALRPropogation>>>
    const parseTable: ParseTable

    /** The number of symbols: the length of the symbol table. */
    function SymbolCount(): nat {
      |grammar.symbolNames|
    }

    /** The interned LR(0) items are distinct items of the productions. */
    ghost predicate ItemsOk()
      reads this`lr0Items, this`productions
    {
      Collections.NoDup(lr0Items) &&
      forall i :: 0 <= i < |lr0Items| ==> ValidLR0(productions, lr0Items[i])
    }

    /** The interned LR(1) items are distinct, each over an interned LR(0)
        item with a symbol or -1 as lookahead. */
    ghost predicate Lr1Ok()
      reads this`lr1Items, this`lr0Items
    {
      Collections.NoDup(lr1Items) &&
      forall j :: 0 <= j < |lr1Items| ==>
        0 <= lr1Items[j].lr0ItemId < |lr0Items| && -1 <= lr1Items[j].lookAhead < SymbolCount()
    }

    /** There is a FIRST set per symbol, holding symbols and -1 only. */
    ghost predicate FirstOk()
      reads this`firstSets
    {
      |firstSets| == SymbolCount() &&
      forall x, b :: 0 <= x < |firstSets| && b in firstSets[x] ==> -1 <= b < SymbolCount()
    }

    /** The interned LR(0) states are distinct sets of interned items. */
    ghost predicate StatesOk()
      reads this`lr0States, this`lr0Items
    {
      Collections.NoDup(lr0States) &&
      forall s, i :: 0 <= s < |lr0States| && i in lr0States[s] ==> 0 <= i < |lr0Items|
    }

    /** Each symbol is a terminal when no production has it on the left,
        and a nonterminal otherwise (what `InitSymbols` establishes). */
    ghost predicate SymbolsOk()
      reads this`terminals, this`nonterminals, this`productions
    {
      (forall s :: s in terminals <==> 0 <= s < SymbolCount() && IsTerminal(productions, s)) &&
      (forall s :: s in nonterminals <==> 0 <= s < SymbolCount() && !IsTerminal(productions, s))
    }

    /** The FIRST sets' invariant, over this parser's symbols. */
    ghost predicate FirstInv()
      reads this`firstSets, this`terminals, this`productions
    {
      FirstInvOf(firstSets, terminals, productions, SymbolCount())
    }

    /** The constructor: every list and set empty, no table yet. */
    constructor (grammar: Grammar)
      ensures this.grammar == grammar
      ensures productions == [] && productionPrecedence == [] && productionDerivation == []
      ensures terminals == {} && nonterminals == {}
      ensures lr0Items == [] && lr1Items == [] && lr0States == [] && lr0Kernels == [] && lalrStates == []
      ensures lrGotos == [] && gotoPrecedence == [] && lalrPropogations == []
      ensures |firstSets| == |grammar.symbolNames| && forall x :: 0 <= x < |firstSets| ==> firstSets[x] == {}
      ensures fresh(parseTable) && parseTable.actions == null
    {
      this.grammar := grammar;
      lrGotos := [];
      gotoPrecedence := [];
      lr0Items := [];
      lr1Items := [];
      lr0States := [];
      lr0Kernels := [];
      lalrStates := [];
      terminals := {};
      nonterminals := {};
      lalrPropogations := [];
      productions := [];
      productionDerivation := [];
      productionPrecedence := [];
      firstSets := seq(|grammar.symbolNames|, _ => {});
      parseTable := new ParseTable();
    }

    /** `PopulateProductions`: the productions of the groups in order, group
        `k` giving each of its productions precedence `-k` and its
        derivation. */
    method PopulateProductions()
      requires productions == [] && productionPrecedence == [] && productionDerivation == []
      modifies this`productions, this`productionPrecedence, this`productionDerivation
      ensures productions == AllProductions(grammar.precedenceGroups)
      ensures productionPrecedence == Precedences(grammar.precedenceGroups)
      ensures productionDerivation == Derivations(grammar.precedenceGroups)
    {
      var groups := grammar.precedenceGroups;
      var precedence := 0;
      var k := 0;
      while k < |groups|
        invariant 0 <= k <= |groups| && precedence == -k
        invariant productions == AllProductions(groups[..k])
        invariant productionPrecedence == Precedences(groups[..k])
        invariant productionDerivation == Derivations(groups[..k])
      {
        var group := groups[k];
        var j := 0;
        while j < |group.productions|
          invariant 0 <= j <= |group.productions|
          invariant productions == AllProductions(groups[..k]) + group.productions[..j]
          invariant productionPrecedence == Precedences(groups[..k]) + seq(j, _ => precedence)
          invariant productionDerivation == Derivations(groups[..k]) + seq(j, _ => group.derivation)
        {
          productions := productions + [group.productions[j]];
          productionPrecedence := productionPrecedence + [precedence];
          productionDerivation := productionDerivation + [group.derivation];
          assert group.productions[..j + 1] == group.productions[..j] + [group.productions[j]];
          assert seq(j + 1, _ => precedence) == seq(j, _ => precedence) + [precedence];
          assert seq(j + 1, _ => group.derivation) == seq(j, _ => group.derivation) + [group.derivation];
          j := j + 1;
        }
        assert groups[..k + 1][..k] == groups[..k];
        assert group.productions[..j] == group.productions;
        precedence := precedence - 1;
        k := k + 1;
      }
      assert groups[..k] == groups;
    }

    /** `InitSymbols`: each symbol of the table is a terminal when no
        production has it on the left, a nonterminal otherwise. */
    method InitSymbols()
      requires terminals == {} && nonterminals == {}
      modifies this`terminals, this`nonterminals
      ensures forall s :: s in terminals <==> 0 <= s < SymbolCount() && IsTerminal(productions, s)
      ensures forall s :: s in nonterminals <==> 0 <= s < SymbolCount() && !IsTerminal(productions, s)
      ensures terminals !! nonterminals && terminals + nonterminals == Collections.Below(SymbolCount())
    {
      var symbol := 0;
      while symbol < SymbolCount()
        invariant 0 <= symbol <= SymbolCount()
        invariant forall s :: s in terminals <==> 0 <= s < symbol && IsTerminal(productions, s)
        invariant forall s :: s in nonterminals <==> 0 <= s < symbol && !IsTerminal(productions, s)
      {
        if IsTerminal(productions, symbol) {
          terminals := terminals + {symbol};
        } else {
          nonterminals := nonterminals + {symbol};
        }
        symbol := symbol + 1;
      }
      assert terminals + nonterminals == Collections.Below(SymbolCount()) by {
        forall s ensures s in terminals + nonterminals <==> s in Collections.Below(SymbolCount()) {
        }
      }
    }

    /** `GetLR0ItemID`: the first id naming `item`; an item not yet listed is
        appended. Listed items never change. */
    method GetLR0ItemID(item: LR0Item) returns (id: int)
      modifies this`lr0Items
      ensures 0 <= id < |lr0Items| && lr0Items[id] == item
      ensures forall j :: 0 <= j < id ==> lr0Items[j] != item
      ensures item in old(lr0Items) ==> lr0Items == old(lr0Items)
      ensures item !in old(lr0Items) ==> lr0Items == old(lr0Items) + [item]
      ensures old(ItemsOk()) && ValidLR0(productions, item) ==> ItemsOk()
      ensures old(Lr1Ok()) ==> Lr1Ok()
    {
      id := 0;
      while id < |lr0Items|
        invariant 0 <= id <= |lr0Items|
        invariant forall j :: 0 <= j < id ==> lr0Items[j] != item
      {
        if lr0Items[id] == item {
          return;
        }
        id := id + 1;
      }
      lr0Items := lr0Items + [item];
    }

    /** `GetLR1ItemID`: the same for LR(1) items. */
    method GetLR1ItemID(item: LR1Item) returns (id: int)
      modifies this`lr1Items
      ensures 0 <= id < |lr1Items| && lr1Items[id] == item
      ensures forall j :: 0 <= j < id ==> lr1Items[j] != item
      ensures item in old(lr1Items) ==> lr1Items == old(lr1Items)
      ensures item !in old(lr1Items) ==> lr1Items == old(lr1Items) + [item]
      ensures old(Lr1Ok()) && 0 <= item.lr0ItemId < |lr0Items| && -1 <= item.lookAhead < SymbolCount() ==> Lr1Ok()
    {
      id := 0;
      while id < |lr1Items|
        invariant 0 <= id <= |lr1Items|
        invariant forall j :: 0 <= j < id ==> lr1Items[j] != item
      {
        if lr1Items[id] == item {
          return;
        }
        id := id + 1;
      }
      lr1Items := lr1Items + [item];
    }

    /** `GetLR0StateID`: the first state with the same items; a new state is
        appended, and only then is `added` true. */
    method GetLR0StateID(state: set<int>) returns (id: int, added: bool)
      modifies this`lr0States
      ensures 0 <= id < |lr0States| && lr0States[id] == state
      ensures forall j :: 0 <= j < id ==> lr0States[j] != state
      ensures added <==> state !in old(lr0States)
      ensures !added ==> lr0States == old(lr0States)
      ensures added ==> lr0States == old(lr0States) + [state] && id == |old(lr0States)|
      ensures old(StatesOk()) && (forall i :: i in state ==> 0 <= i < |lr0Items|) ==> StatesOk()
    {
      id := 0;
      while id < |lr0States|
        invariant 0 <= id <= |lr0States|
        invariant forall j :: 0 <= j < id ==> lr0States[j] != state
      {
        if lr0States[id] == state {
          return id, false;
        }
        id := id + 1;
      }
      lr0States := lr0States + [state];
      added := true;
    }

    /** The inner loop of `LR0Closure` for one item taken off the open list:
        every production of the symbol after its dot, with the dot at the
        start, is queued unless already open or closed. */
    method QueueSubstitutions(item: LR0Item, open: seq<int>, closed: set<int>) returns (open': seq<int>)
      requires ItemsOk() && ValidLR0(productions, item)
      requires Collections.NoDup(open)
      requires forall k :: 0 <= k < |open| ==> 0 <= open[k] < |lr0Items| && open[k] !in closed
      modifies this`lr0Items
      ensures ItemsOk() && old(lr0Items) <= lr0Items
      ensures open <= open' && Collections.NoDup(open')
      ensures forall k :: 0 <= k < |open'| ==> 0 <= open'[k] < |lr0Items| && open'[k] !in closed
      ensures forall k :: |open| <= k < |open'| ==> lr0Items[open'[k]].position == 0
      ensures item.position < |productions[item.production].right| ==>
        forall p :: 0 <= p < |productions| && productions[p].left == productions[item.production].right[item.position] ==>
          Has(lr0Items, closed + Collections.Elems(open'), LR0Item(p, 0))
    {
      open' := open;
      var nProduction := 0;
      while nProduction < |productions|
        invariant 0 <= nProduction <= |productions|
        invariant ItemsOk() && old(lr0Items) <= lr0Items
        invariant open <= open' && Collections.NoDup(open')
        invariant forall k :: 0 <= k < |open'| ==> 0 <= open'[k] < |lr0Items| && open'[k] !in closed
        invariant forall k :: |open| <= k < |open'| ==> lr0Items[open'[k]].position == 0
        invariant item.position < |productions[item.production].right| ==>
          forall p :: 0 <= p < nProduction && productions[p].left == productions[item.production].right[item.position] ==>
            Has(lr0Items, closed + Collections.Elems(open'), LR0Item(p, 0))
      {
        if item.position < |productions[item.production].right| &&
           productions[nProduction].left == productions[item.production].right[item.position] {
          assert ValidLR0(productions, LR0Item(nProduction, 0));
          var nNewItemID := GetLR0ItemID(LR0Item(nProduction, 0));
          if nNewItemID !in open' && nNewItemID !in closed {
            open' := open' + [nNewItemID];
          }
          assert nNewItemID in closed + Collections.Elems(open');
        }
        nProduction := nProduction + 1;
      }
    }

    /** Where `LR0Closure`'s loop stands: the open list holds distinct items,
        none closed; everything seen so far was given or has the dot at the
        start; the items given are all seen; and each closed item has its
        substitutions among the items seen. */
    ghost predicate Worklist(items: set<int>, closed: set<int>, open: seq<int>)
      reads this`lr0Items, this`productions
    {
      Collections.NoDup(open) &&
      (forall k :: 0 <= k < |open| ==>
         0 <= open[k] < |lr0Items| && open[k] !in closed && (open[k] in items || lr0Items[open[k]].position == 0)) &&
      (forall i :: i in closed ==> 0 <= i < |lr0Items| && (i in items || lr0Items[i].position == 0)) &&
      items <= closed + Collections.Elems(open) &&
      forall i :: i in closed ==> Expanded(productions, lr0Items, closed + Collections.Elems(open), i)
    }

    /** One turn of `LR0Closure`'s loop: the first open item is closed and
        its substitutions queued. */
    method CloseFirst(items: set<int>, closed: set<int>, open: seq<int>) returns (closed': set<int>, open': seq<int>)
      requires ItemsOk() && Worklist(items, closed, open) && |open| > 0
      modifies this`lr0Items
      ensures ItemsOk() && old(lr0Items) <= lr0Items && Worklist(items, closed', open')
      ensures closed' == closed + {open[0]} && open[0] !in closed
    {
      ghost var before := lr0Items;
      ghost var seen := closed + Collections.Elems(open);
      var nItem := open[0];
      var item := lr0Items[nItem];
      var rest := open[1..];
      closed' := closed + {nItem};
      open' := QueueSubstitutions(item, rest, closed');
      ghost var seen' := closed' + Collections.Elems(open');
      Collections.PopFrontElems(open, open');
      forall i | i in closed'
        ensures Expanded(productions, lr0Items, seen', i)
      {
        if i != nItem {
          ExpandedGrows(productions, before, lr0Items, seen, seen', i);
        }
      }
    }

    /** `LR0Closure`: the items given and every item reachable from them by
        substitution. The result holds the items given, is closed, and
        adds only items with the dot at the start. */
    method LR0Closure(items: set<int>) returns (closed: set<int>)
      requires ItemsOk()
      requires forall i :: i in items ==> 0 <= i < |lr0Items|
      modifies this`lr0Items
      ensures ItemsOk() && old(lr0Items) <= lr0Items
      ensures items <= closed
      ensures Closed(productions, lr0Items, closed)
      ensures forall i :: i in closed ==> i in items || lr0Items[i].position == 0
    {
      var open := Collections.Enumerate(items);
      closed := {};
      WorklistStart(items, open);
      ghost var bound := |LR0Universe(productions)|;
      while |open| > 0
        invariant ItemsOk() && old(lr0Items) <= lr0Items && Worklist(items, closed, open)
        decreases bound - |closed|
      {
        ghost var c0, x := closed, open[0];
        closed, open := CloseFirst(items, closed, open);
        ClosedBound(items, c0, x, closed, open);
      }
      assert closed + Collections.Elems(open) == closed;
    }

    /** A worklist starts with every item open and none closed. */
    lemma WorklistStart(items: set<int>, open: seq<int>)
      requires Collections.NoDup(open) && (forall x :: x in open <==> x in items)
      requires forall i :: i in items ==> 0 <= i < |lr0Items|
      ensures Worklist(items, {}, open)
    {
      assert forall k :: 0 <= k < |open| ==> open[k] in open;
      forall i | i in items ensures i in Collections.Elems(open) {
        assert i in open;
      }
    }

    /** A worklist's closed set holds distinct valid items, so no more than
        the productions have. */
    lemma ClosedBound(items: set<int>, c0: set<int>, x: int, closed: set<int>, open: seq<int>)
      requires ItemsOk() && Worklist(items, closed, open) && closed == c0 + {x} && x !in c0
      ensures |c0| < |closed| <= |LR0Universe(productions)|
    {
      ItemCount(productions, lr0Items);
      Collections.BoundedSetSize(closed, |lr0Items|);
    }

    /** `First(tokens, t)`: FIRST of the string `tokens` followed by `t`. */
    method First(tokens: seq<int>, nTerminal: int) returns (first: set<int>)
      requires FirstOk() && -1 <= nTerminal < SymbolCount()
      requires forall i :: 0 <= i < |tokens| ==> 0 <= tokens[i] < |firstSets|
      ensures first == FirstOf(firstSets, tokens, nTerminal)
      ensures forall b :: b in first ==> -1 <= b < SymbolCount()
    {
      first := {};
      var i := 0;
      while i < |tokens|
        invariant 0 <= i <= |tokens|
        invariant first + FirstOf(firstSets, tokens[i..], nTerminal) == FirstOf(firstSets, tokens, nTerminal)
        invariant forall b :: b in first ==> -1 <= b < SymbolCount()
      {
        var nToken := tokens[i];
        assert tokens[i..][1..] == tokens[i + 1..];
        var lookAhead := -1 in firstSets[nToken];
        first := first + (firstSets[nToken] - {-1});
        if !lookAhead {
          return;
        }
        i := i + 1;
      }
      first := first + {nTerminal};
    }

    /** Where `LR1Closure`'s loop stands, as `Worklist` for LR(1) items. */
    ghost predicate Worklist1(items: set<int>, closed: set<int>, open: seq<int>)
      reads this`lr1Items, this`lr0Items, this`productions, this`nonterminals, this`firstSets
    {
      Collections.NoDup(open) &&
      (forall k :: 0 <= k < |open| ==> 0 <= open[k] < |lr1Items| && open[k] !in closed) &&
      (forall j :: j in closed ==> 0 <= j < |lr1Items|) &&
      items <= closed + Collections.Elems(open) &&
      forall j :: j in closed ==>
        Expanded1(productions, nonterminals, firstSets, lr0Items, lr1Items, closed + Collections.Elems(open), j)
    }

    /** The innermost loop of `LR1Closure`: production `p` with the dot at its
        start is queued once per lookahead in `first`, unless already open
        or closed. */
    method QueueLookaheads(p: int, first: set<int>, open: seq<int>, closed: set<int>) returns (open': seq<int>)
      requires ItemsOk() && Lr1Ok() && 0 <= p < |productions|
      requires forall b :: b in first ==> -1 <= b < SymbolCount()
      requires Collections.NoDup(open)
      requires forall k :: 0 <= k < |open| ==> 0 <= open[k] < |lr1Items| && open[k] !in closed
      modifies this`lr0Items, this`lr1Items
      ensures ItemsOk() && Lr1Ok() && old(lr0Items) <= lr0Items && old(lr1Items) <= lr1Items
      ensures open <= open' && Collections.NoDup(open')
      ensures forall k :: 0 <= k < |open'| ==> 0 <= open'[k] < |lr1Items| && open'[k] !in closed
      ensures forall b :: b in first ==> Has1(lr0Items, lr1Items, closed + Collections.Elems(open'), p, b)
    {
      var q := Collections.Enumerate(first);
      open' := open;
      var k := 0;
      while k < |q|
        invariant 0 <= k <= |q|
        invariant ItemsOk() && Lr1Ok() && old(lr0Items) <= lr0Items && old(lr1Items) <= lr1Items
        invariant open <= open' && Collections.NoDup(open')
        invariant forall m :: 0 <= m < |open'| ==> 0 <= open'[m] < |lr1Items| && open'[m] !in closed
        invariant forall m :: 0 <= m < k ==> Has1(lr0Items, lr1Items, closed + Collections.Elems(open'), p, q[m])
      {
        assert q[k] in first;
        assert ValidLR0(productions, LR0Item(p, 0));
        var nNewLR0ItemID := GetLR0ItemID(LR0Item(p, 0));
        var nNewLR1ItemID := GetLR1ItemID(LR1Item(nNewLR0ItemID, q[k]));
        if nNewLR1ItemID !in open' && nNewLR1ItemID !in closed {
          open' := open' + [nNewLR1ItemID];
        }
        assert nNewLR1ItemID in closed + Collections.Elems(open');
        k := k + 1;
      }
      forall b | b in first
        ensures Has1(lr0Items, lr1Items, closed + Collections.Elems(open'), p, b)
      {
        assert b in q;
      }
    }

    /** The body of `LR1Closure`'s loop for item `j` taken off the open
        list: when its dot stands before a nonterminal, each production of
        that nonterminal is queued with every lookahead in FIRST of the rest
        of the right-hand side followed by the item's own lookahead. */
    method QueueLR1Substitutions(j: int, open: seq<int>, closed: set<int>) returns (open': seq<int>)
      requires ItemsOk() && Lr1Ok() && FirstOk() && WellFormed(productions, SymbolCount())
      requires 0 <= j < |lr1Items|
      requires Collections.NoDup(open)
      requires forall k :: 0 <= k < |open| ==> 0 <= open[k] < |lr1Items| && open[k] !in closed
      modifies this`lr0Items, this`lr1Items
      ensures ItemsOk() && Lr1Ok() && old(lr0Items) <= lr0Items && old(lr1Items) <= lr1Items
      ensures open <= open' && Collections.NoDup(open')
      ensures forall k :: 0 <= k < |open'| ==> 0 <= open'[k] < |lr1Items| && open'[k] !in closed
      ensures Expanded1(productions, nonterminals, firstSets, lr0Items, lr1Items, closed + Collections.Elems(open'), j)
    {
      open' := open;
      var lr1Item := lr1Items[j];
      var lr0Item := lr0Items[lr1Item.lr0ItemId];
      var right := productions[lr0Item.production].right;
      if lr0Item.position < |right| {
        var nToken := right[lr0Item.position];
        if nToken in nonterminals {
          var argFirst := right[lr0Item.position + 1..];
          var first := First(argFirst, lr1Item.lookAhead);
          var nProduction := 0;
          while nProduction < |productions|
            invariant 0 <= nProduction <= |productions|
            invariant ItemsOk() && Lr1Ok() && old(lr0Items) <= lr0Items && old(lr1Items) <= lr1Items
            invariant open <= open' && Collections.NoDup(open')
            invariant forall k :: 0 <= k < |open'| ==> 0 <= open'[k] < |lr1Items| && open'[k] !in closed
            invariant forall p, b :: 0 <= p < nProduction && productions[p].left == nToken && b in first ==>
              Has1(lr0Items, lr1Items, closed + Collections.Elems(open'), p, b)
          {
            if productions[nProduction].left == nToken {
              ghost var items0, items1, seen := lr0Items, lr1Items, closed + Collections.Elems(open');
              var next := QueueLookaheads(nProduction, first, open', closed);
              ghost var seen' := closed + Collections.Elems(next);
              assert seen <= seen' by {
                forall x | x in open' ensures x in next {
                  var k :| 0 <= k < |open'| && open'[k] == x;
                  assert next[k] == x;
                }
              }
              forall p, b | 0 <= p < nProduction && productions[p].left == nToken && b in first
                ensures Has1(lr0Items, lr1Items, seen', p, b)
              {
                Has1Grows(items0, lr0Items, items1, lr1Items, seen, seen', p, b);
              }
              open' := next;
            }
            nProduction := nProduction + 1;
          }
        }
      }
    }

    /** One turn of `LR1Closure`'s loop: the first open item is closed and
        its substitutions queued. */
    method CloseFirst1(items: set<int>, closed: set<int>, open: seq<int>) returns (closed': set<int>, open': seq<int>)
      requires ItemsOk() && Lr1Ok() && FirstOk() && WellFormed(productions, SymbolCount())
      requires Worklist1(items, closed, open) && |open| > 0
      modifies this`lr0Items, this`lr1Items
      ensures ItemsOk() && Lr1Ok() && old(lr0Items) <= lr0Items && old(lr1Items) <= lr1Items
      ensures Worklist1(items, closed', open')
      ensures closed' == closed + {open[0]} && open[0] !in closed
    {
      ghost var items0, items1 := lr0Items, lr1Items;
      ghost var seen := closed + Collections.Elems(open);
      var nLR1Item := open[0];
      var rest := open[1..];
      closed' := closed + {nLR1Item};
      open' := QueueLR1Substitutions(nLR1Item, rest, closed');
      ghost var seen' := closed' + Collections.Elems(open');
      Collections.PopFrontElems(open, open');
      forall i | i in closed'
        ensures Expanded1(productions, nonterminals, firstSets, lr0Items, lr1Items, seen', i)
      {
        if i != nLR1Item {
          Expanded1Grows(productions, nonterminals, firstSets, items0, lr0Items, items1, lr1Items, seen, seen', i);
        }
      }
    }

    /** `LR1Closure`: the LR(1) items given and every LR(1) item reachable
        from them by substitution. The result holds the items given and is
        closed. */
    method LR1Closure(items: set<int>) returns (closed: set<int>)
      requires ItemsOk() && Lr1Ok() && FirstOk() && WellFormed(productions, SymbolCount())
      requires forall j :: j in items ==> 0 <= j < |lr1Items|
      modifies this`lr0Items, this`lr1Items
      ensures ItemsOk() && Lr1Ok() && old(lr0Items) <= lr0Items && old(lr1Items) <= lr1Items
      ensures items <= closed && forall j :: j in closed ==> 0 <= j < |lr1Items|
      ensures Closed1(productions, nonterminals, firstSets, lr0Items, lr1Items, closed)
    {
      var open := Collections.Enumerate(items);
      assert forall k :: 0 <= k < |open| ==> open[k] in open;
      closed := {};
      ghost var bound := |LR1Universe(|LR0Universe(productions)|, SymbolCount())|;
      while |open| > 0
        invariant ItemsOk() && Lr1Ok() && old(lr0Items) <= lr0Items && old(lr1Items) <= lr1Items
        invariant Worklist1(items, closed, open)
        decreases bound - |closed|
      {
        closed, open := CloseFirst1(items, closed, open);
        ItemCount(productions, lr0Items);
        LR1ItemCount(lr1Items, |LR0Universe(productions)|, SymbolCount());
        Collections.BoundedSetSize(closed, |lr1Items|);
      }
      assert closed + Collections.Elems(open) == closed;
    }

    /** The loop of `GotoLR0`: the advances of the items of `state` with
        their dot before `nTokenID`, and the greatest precedence of their
        productions. */
    method GotoKernel(state: set<int>, nTokenID: int, precIn: int) returns (gotoLR0: set<int>, prec: int)
      requires ItemsOk() && forall i :: i in state ==> 0 <= i < |lr0Items|
      requires |productionPrecedence| == |productions|
      modifies this`lr0Items
      ensures ItemsOk()
      ensures KernelOf(productions, productionPrecedence, old(lr0Items), lr0Items, state, nTokenID, gotoLR0, precIn, prec)
    {
      var q := Collections.Enumerate(state);
      assert forall m :: 0 <= m < |q| ==> q[m] in state;
      gotoLR0 := {};
      prec := precIn;
      ghost var visited: set<int> := {};
      var k := 0;
      while k < |q|
        invariant 0 <= k <= |q|
        invariant ItemsOk()
        invariant visited <= state && forall m :: 0 <= m < k ==> q[m] in visited
        invariant KernelOf(productions, productionPrecedence, old(lr0Items), lr0Items, visited, nTokenID, gotoLR0, precIn, prec)
      {
        var item := lr0Items[q[k]];
        assert item == old(lr0Items)[q[k]];
        ghost var before := lr0Items;
        if item.position < |productions[item.production].right| && productions[item.production].right[item.position] == nTokenID {
          var nNewItemID := GetLR0ItemID(Advance(item));
          KernelMove(productions, productionPrecedence, old(lr0Items), before, lr0Items,
                     visited, nTokenID, gotoLR0, precIn, prec, q[k], nNewItemID);
          gotoLR0 := gotoLR0 + {nNewItemID};
          var nProductionPrecedence := productionPrecedence[item.production];
          if prec < nProductionPrecedence {
            prec := nProductionPrecedence;
          }
        } else {
          KernelSkip(productions, productionPrecedence, old(lr0Items), lr0Items,
                     visited, nTokenID, gotoLR0, precIn, prec, q[k]);
        }
        visited := visited + {q[k]};
        k := k + 1;
      }
      assert state <= visited;
    }

    /** The second half of `GotoLR0` for a kernel that is not empty: its
        closure, interned as a state. */
    method InternGoto(ghost base: seq<LR0Item>, state: set<int>, nTokenID: int, gotoLR0: set<int>,
                      ghost precIn: int, ghost prec: int) returns (g: int, added: bool)
      requires ItemsOk() && StatesOk() && gotoLR0 != {}
      requires KernelOf(productions, productionPrecedence, base, lr0Items, state, nTokenID, gotoLR0, precIn, prec)
      modifies this`lr0Items, this`lr0States
      ensures ItemsOk() && StatesOk() && old(lr0Items) <= lr0Items && old(lr0States) <= lr0States
      ensures 0 <= g < |lr0States| && IsGoto(productions, lr0Items, state, nTokenID, lr0States[g])
      ensures Moves(productions, lr0Items, state, nTokenID)
      ensures MaxPrecedence(productions, productionPrecedence, lr0Items, state, nTokenID, precIn, prec)
      ensures added <==> g == |old(lr0States)|
      ensures added ==> lr0States == old(lr0States) + [lr0States[g]]
      ensures !added ==> lr0States == old(lr0States)
    {
      var closure := LR0Closure(gotoLR0);
      assert forall i :: i in closure ==> 0 <= i < |lr0Items| by {
        assert Closed(productions, lr0Items, closure);
      }
      assert StatesOk() by {
        assert lr0States == old(lr0States);
        assert |old(lr0Items)| <= |lr0Items|;
      }
      g, added := GetLR0StateID(closure);
      KernelClosure(productions, productionPrecedence, base, old(lr0Items), lr0Items,
                    state, nTokenID, gotoLR0, precIn, prec, closure);
    }

    /** `GotoLR0`: the state reached from state `nState` over `nTokenID`,
        -1 when no item of the state has its dot before that symbol;
        `added` tells whether the state is new, and `prec` raises
        `precIn` to the precedence of every production moved over. */
    method GotoLR0(nState: int, nTokenID: int, precIn: int) returns (g: int, added: bool, prec: int)
      requires ItemsOk() && StatesOk() && 0 <= nState < |lr0States|
      requires |productionPrecedence| == |productions|
      modifies this`lr0Items, this`lr0States
      ensures ItemsOk() && StatesOk() && old(lr0Items) <= lr0Items && old(lr0States) <= lr0States
      ensures GotoOf(productions, productionPrecedence, lr0Items, lr0States, nState, nTokenID, precIn, g, prec)
      ensures added <==> g != -1 && g == |old(lr0States)|
      ensures added ==> lr0States == old(lr0States) + [lr0States[g]]
      ensures !added ==> lr0States == old(lr0States)
    {
      var state := lr0States[nState];
      var gotoLR0;
      gotoLR0, prec := GotoKernel(state, nTokenID, precIn);
      if gotoLR0 == {} {
        NoKernel(productions, productionPrecedence, old(lr0Items), lr0Items, state, nTokenID, precIn, prec);
        g, added := -1, false;
      } else {
        ghost var kernelItems := lr0Items;
        g, added := InternGoto(old(lr0Items), state, nTokenID, gotoLR0, precIn, prec);
        Collections.PrefixTrans(old(lr0Items), kernelItems, lr0Items);
        assert lr0States[nState] == state;
      }
    }

    /** The `for` loop of `GenerateLR0Items` for state `nState`: its goto
        and goto precedence on every symbol, each new state queued. */
    method FillRow(nState: int, open: seq<int>) returns (open': seq<int>)
      requires ItemsOk() && StatesOk() && |productionPrecedence| == |productions|
      requires 0 <= nState < |lr0States| && nState + 1 == |lrGotos| == |gotoPrecedence|
      requires GotoRows(productions, productionPrecedence, lr0Items, lr0States, lrGotos, gotoPrecedence, SymbolCount(), nState)
      requires |open| == |lr0States| - (nState + 1) && forall k :: 0 <= k < |open| ==> open[k] == nState + 1 + k
      modifies this`lr0Items, this`lr0States, this`lrGotos, this`gotoPrecedence
      ensures ItemsOk() && StatesOk() && old(lr0Items) <= lr0Items && old(lr0States) <= lr0States
      ensures nState + 1 == |lrGotos| == |gotoPrecedence|
      ensures GotoRows(productions, productionPrecedence, lr0Items, lr0States, lrGotos, gotoPrecedence, SymbolCount(), nState + 1)
      ensures |open'| == |lr0States| - (nState + 1) && forall k :: 0 <= k < |open'| ==> open'[k] == nState + 1 + k
    {
      var n := SymbolCount();
      var row := seq(n, _ => 0);
      var precRow := seq(n, _ => 0);
      open' := open;
      var nToken := 0;
      while nToken < n
        invariant 0 <= nToken <= n && |row| == n && |precRow| == n
        invariant ItemsOk() && StatesOk() && old(lr0Items) <= lr0Items && old(lr0States) <= lr0States
        invariant nState + 1 == |lrGotos| == |gotoPrecedence| && lrGotos == old(lrGotos) && gotoPrecedence == old(gotoPrecedence)
        invariant GotoRows(productions, productionPrecedence, lr0Items, lr0States, lrGotos, gotoPrecedence, n, nState)
        invariant GotoRow(productions, productionPrecedence, lr0Items, lr0States, lrGotos[nState := row], gotoPrecedence[nState := precRow], n, nState, nToken)
        invariant |open'| == |lr0States| - (nState + 1) && forall k :: 0 <= k < |open'| ==> open'[k] == nState + 1 + k
      {
        ghost var items0, states0 := lr0Items, lr0States;
        var nGoto, bAdded, nPrecedence := GotoLR0(nState, nToken, MinInt);
        GotoRowsGrow(productions, productionPrecedence, items0, lr0Items, states0, lr0States, lrGotos, gotoPrecedence, n, nState);
        GotoRowGrows(productions, productionPrecedence, items0, lr0Items, states0, lr0States,
                     lrGotos[nState := row], gotoPrecedence[nState := precRow], n, nState, nToken);
        row := row[nToken := nGoto];
        precRow := precRow[nToken := nPrecedence];
        if bAdded {
          open' := open' + [nGoto];
        }
        nToken := nToken + 1;
      }
      GotoRowsExtend(productions, productionPrecedence, lr0Items, lr0States, lrGotos, gotoPrecedence, n, nState, row, precRow);
      lrGotos := lrGotos[nState := row];
      gotoPrecedence := gotoPrecedence[nState := precRow];
    }

    /** State 0 is the closure of the first production's start item: it
        holds that item, is closed, and has every dot at the start. */
    ghost predicate StartStateOk()
      reads this`lr0States, this`lr0Items, this`productions
    {
      0 < |lr0States| &&
      Has(lr0Items, lr0States[0], LR0Item(0, 0)) && Closed(productions, lr0Items, lr0States[0]) &&
      forall i :: i in lr0States[0] ==> 0 <= i < |lr0Items| && lr0Items[i].position == 0
    }

    /** Where `GenerateLR0Items`'s loop stands: the rows of the states taken
        so far are complete, and the open list holds the states after them
        in order. */
    ghost predicate Automaton(open: seq<int>)
      reads this`lr0Items, this`productions, this`lr0States, this`lrGotos, this`gotoPrecedence, this`productionPrecedence
    {
      ItemsOk() && StatesOk() && StartStateOk() &&
      |lr0States| <= |Collections.Subsets(|LR0Universe(productions)|)| &&
      |lrGotos| == |gotoPrecedence| <= |lr0States| &&
      GotoRows(productions, productionPrecedence, lr0Items, lr0States, lrGotos, gotoPrecedence, SymbolCount(), |lrGotos|) &&
      |open| == |lr0States| - |lrGotos| && forall k :: 0 <= k < |open| ==> open[k] == |lrGotos| + k
    }

    /** One turn of `GenerateLR0Items`'s loop: the next state gets its row. */
    method ProcessState(open: seq<int>) returns (open': seq<int>)
      requires Automaton(open) && |open| > 0 && |productionPrecedence| == |productions|
      modifies this`lr0Items, this`lr0States, this`lrGotos, this`gotoPrecedence
      ensures Automaton(open') && old(lr0Items) <= lr0Items && |lrGotos| == old(|lrGotos|) + 1
    {
      var nState := open[0];
      open' := open[1..];
      assert nState == |lrGotos|;
      while |lrGotos| <= nState
        invariant |lrGotos| == |gotoPrecedence| <= nState + 1
        invariant lr0Items == old(lr0Items) && lr0States == old(lr0States)
        invariant GotoRows(productions, productionPrecedence, lr0Items, lr0States, lrGotos, gotoPrecedence, SymbolCount(), nState)
      {
        GotoRowsAppend(productions, productionPrecedence, lr0Items, lr0States, lrGotos, gotoPrecedence, SymbolCount(), nState,
                       seq(SymbolCount(), _ => 0), seq(SymbolCount(), _ => 0));
        lrGotos := lrGotos + [seq(SymbolCount(), _ => 0)];
        gotoPrecedence := gotoPrecedence + [seq(SymbolCount(), _ => 0)];
      }
      ghost var items0, states0 := lr0Items, lr0States;
      open' := FillRow(nState, open');
      StateCount(productions, lr0Items, lr0States);
      assert lr0States[0] == states0[0];
      assert forall i :: i in lr0States[0] ==> lr0Items[i] == items0[i];
      ExpandedClosedGrows(productions, items0, lr0Items, lr0States[0]);
    }

    /** `GenerateLR0Items`: the LR(0) automaton. State 0 is the closure of
        the first production's start item; states are taken in the order
        they are found, and each gets its row of gotos. With no productions
        the start item names no production: the first goto reads it and
        fails, unless there is no symbol at all, in which case the
        automaton is the single state of the start item with an empty row. */
    method GenerateLR0Items() returns (r: Result<()>)
      requires ItemsOk() && lr0States == [] && lrGotos == [] && gotoPrecedence == []
      requires |productionPrecedence| == |productions|
      modifies this`lr0Items, this`lr0States, this`lrGotos, this`gotoPrecedence
      ensures old(lr0Items) <= lr0Items
      ensures r.Failure? <==> productions == [] && SymbolCount() > 0
      ensures r.Failure? ==> r.error == ArgumentOutOfRangeException
      ensures r.Success? && productions == [] ==>
        |lr0States| == 1 && |lr0States[0]| == 1 && lrGotos == [[]] && gotoPrecedence == [[]] &&
        forall i :: i in lr0States[0] ==> 0 <= i < |lr0Items| && lr0Items[i] == LR0Item(0, 0)
      ensures r.Success? && productions != [] ==>
        ItemsOk() && StatesOk() && StartStateOk() && |lrGotos| == |gotoPrecedence| == |lr0States| &&
        GotoRows(productions, productionPrecedence, lr0Items, lr0States, lrGotos, gotoPrecedence, SymbolCount(), |lr0States|)
    {
      if |productions| == 0 {
        var start := GetLR0ItemID(LR0Item(0, 0));
        if SymbolCount() > 0 {
          // `GotoLR0` on state 0 and symbol 0 reads the start item's production
          return Failure(ArgumentOutOfRangeException);
        }
        // with no production the closure adds nothing, and with no symbol the row is empty
        lr0States := [{start}];
        lrGotos := [[]];
        gotoPrecedence := [[]];
        return Success(());
      }
      assert ValidLR0(productions, LR0Item(0, 0));
      var start := GetLR0ItemID(LR0Item(0, 0));
      var closure := LR0Closure({start});
      assert forall i :: i in closure ==> 0 <= i < |lr0Items| by {
        assert Closed(productions, lr0Items, closure);
      }
      var first, _ := GetLR0StateID(closure);
      var open := [first];
      StateCount(productions, lr0Items, lr0States);
      while |open| > 0
        invariant Automaton(open) && old(lr0Items) <= lr0Items
        decreases |Collections.Subsets(|LR0Universe(productions)|)| - |lrGotos|
      {
        ghost var items0 := lr0Items;
        open := ProcessState(open);
        Collections.PrefixTrans(old(lr0Items), items0, lr0Items);
      }
      r := Success(());
    }

    /** The innermost loop of `ComputeFirstSets`: FIRST of `nToken`, less
        -1, is added to FIRST of `left`. `lookAhead` tells whether FIRST of
        `nToken` holds -1, and `added` whether an addition was new. When
        `nToken` is `left` the additions are all already there, so the set
        being enumerated does not change. */
    method AddFirst(left: int, nToken: int) returns (lookAhead: bool, added: bool)
      requires 0 <= left < |firstSets| && 0 <= nToken < |firstSets|
      modifies this`firstSets
      ensures firstSets == old(firstSets)[left := old(firstSets)[left] + (old(firstSets)[nToken] - {-1})]
      ensures lookAhead <==> -1 in old(firstSets)[nToken]
      ensures added <==> exists e :: e in old(firstSets)[nToken] && e != -1 && e !in old(firstSets)[left]
    {
      var q := Collections.Enumerate(firstSets[nToken]);
      ghost var from, into := firstSets[nToken], firstSets[left];
      ghost var got: set<int> := {};
      assert into + got == into;
      assert old(firstSets)[left := into + got] == old(firstSets) by {
        assert forall x :: 0 <= x < |firstSets| ==> old(firstSets)[left := into][x] == old(firstSets)[x];
      }
      lookAhead, added := false, false;
      var m := 0;
      while m < |q|
        invariant 0 <= m <= |q|
        invariant firstSets == old(firstSets)[left := into + got]
        invariant forall e :: e in got <==> exists i :: 0 <= i < m && q[i] != -1 && q[i] == e
        invariant lookAhead <==> exists i :: 0 <= i < m && q[i] == -1
        invariant added <==> exists i :: 0 <= i < m && q[i] != -1 && q[i] !in into
      {
        if q[m] == -1 {
          lookAhead := true;
        } else {
          if q[m] !in firstSets[left] {
            firstSets := firstSets[left := firstSets[left] + {q[m]}];
            added := true;
          }
          assert into + (got + {q[m]}) == firstSets[left];
          got := got + {q[m]};
        }
        m := m + 1;
      }
      assert got == from - {-1} by {
        forall e | e in from - {-1} ensures e in got {
          var i :| 0 <= i < |q| && q[i] == e;
        }
        forall e | e in got ensures e in from - {-1} {
          var i :| 0 <= i < |q| && q[i] != -1 && q[i] == e;
          assert q[i] in q;
        }
      }
      if -1 in from {
        var i :| 0 <= i < |q| && q[i] == -1;
      }
      if e :| e in from && e != -1 && e !in into {
        var i :| 0 <= i < |q| && q[i] == e;
      }
    }

    /** The body of `ComputeFirstSets`'s pass for production `p`: FIRST of
        each right-hand symbol, less -1, goes to FIRST of the left symbol,
        up to and including the first symbol whose FIRST lacks -1. Only
        the left symbol's set changes; `changed` tells whether it grew, and
        afterwards the production passes its FIRST on. */
    method PassProduction(p: int) returns (changed: bool)
      requires FirstInv() && SymbolsOk() && WellFormed(productions, SymbolCount()) && 0 <= p < |productions|
      modifies this`firstSets
      ensures FirstInv() && |firstSets| == |old(firstSets)|
      ensures forall x :: 0 <= x < |firstSets| ==> old(firstSets)[x] <= firstSets[x]
      ensures changed ==> Grew(old(firstSets), firstSets)
      ensures !changed ==> firstSets == old(firstSets)
      ensures Passed(productions, firstSets, p)
    {
      var left := productions[p].left;
      var right := productions[p].right;
      assert left !in terminals;
      changed := false;
      var k := 0;
      while k < |right|
        invariant 0 <= k <= |right|
        invariant FirstInv() && |firstSets| == |old(firstSets)|
        invariant forall x :: 0 <= x < |firstSets| && x != left ==> firstSets[x] == old(firstSets)[x]
        invariant old(firstSets)[left] <= firstSets[left]
        invariant changed ==> Grew(old(firstSets), firstSets)
        invariant !changed ==> firstSets == old(firstSets)
        invariant NullableBefore(firstSets, right, k)
        invariant forall j :: 0 <= j < k ==> Covers(firstSets, left, right[j])
      {
        var nToken := right[k];
        ghost var before := firstSets;
        var lookAhead, added := AddFirst(left, nToken);
        FirstInvAdd(before, firstSets, terminals, productions, SymbolCount(), left, nToken);
        CoversStep(before, firstSets, left, right, k);
        if added {
          ghost var e :| e in before[nToken] && e != -1 && e !in before[left];
          assert e in firstSets[left];
        } else {
          assert forall e :: e in before[nToken] - {-1} ==> e in before[left];
          assert firstSets[left] == before[left];
          assert firstSets == before;
        }
        changed := changed || added;
        if !lookAhead {
          PassedAt(productions, firstSets, p, k);
          return;
        }
        k := k + 1;
      }
      PassedAt(productions, firstSets, p, k);
    }

    /** One pass of `ComputeFirstSets`'s outer loop: every production in
        turn passes its FIRST on. Sets only grow; `did` tells whether one
        did, and a pass that changes nothing leaves every production
        passed: the sets are at their fixpoint. */
    method FirstPass() returns (did: bool)
      requires FirstInv() && SymbolsOk() && WellFormed(productions, SymbolCount())
      modifies this`firstSets
      ensures FirstInv()
      ensures forall x :: 0 <= x < |firstSets| ==> old(firstSets)[x] <= firstSets[x]
      ensures did ==> Grew(old(firstSets), firstSets)
      ensures !did ==> firstSets == old(firstSets) && FirstClosed(productions, firstSets)
    {
      did := false;
      var p := 0;
      while p < |productions|
        invariant 0 <= p <= |productions|
        invariant FirstInv()
        invariant forall x :: 0 <= x < |firstSets| ==> old(firstSets)[x] <= firstSets[x]
        invariant did ==> Grew(old(firstSets), firstSets)
        invariant !did ==> firstSets == old(firstSets) && forall q :: 0 <= q < p ==> Passed(productions, firstSets, q)
      {
        ghost var before := firstSets;
        var changed := PassProduction(p);
        if did || changed {
          GrewChain(old(firstSets), before, firstSets);
        }
        did := did || changed;
        p := p + 1;
      }
    }

    /** The start of `ComputeFirstSets`: a terminal's FIRST is itself and a
        nonterminal's starts empty. */
    method SeedFirstSets()
      requires SymbolsOk() && |firstSets| == SymbolCount()
      modifies this`firstSets
      ensures |firstSets| == SymbolCount()
      ensures forall x :: 0 <= x < |firstSets| ==> firstSets[x] == if x in terminals then {x} else {}
    {
      var n := SymbolCount();
      assert terminals + nonterminals == Collections.Below(n) by {
        forall s ensures s in terminals + nonterminals <==> s in Collections.Below(n) { }
      }
      assert terminals * nonterminals == {};
      var nCountTokens := |nonterminals| + |terminals|;
      assert nCountTokens == n;
      for nIdx := 0 to nCountTokens
        invariant |firstSets| == n
        invariant forall x :: 0 <= x < nIdx ==> firstSets[x] == if x in terminals then {x} else {}
      {
        var first: set<int> := {};
        if nIdx in terminals {
          first := first + {nIdx};
        }
        firstSets := firstSets[nIdx := first];
      }
    }

    /** The second step of `ComputeFirstSets`: -1 goes to the left symbol
        of each production with an empty right-hand side. */
    method SeedEmpty()
      requires SymbolsOk() && WellFormed(productions, SymbolCount()) && |firstSets| == SymbolCount()
      requires forall x :: 0 <= x < |firstSets| ==> firstSets[x] == if x in terminals then {x} else {}
      modifies this`firstSets
      ensures FirstInv()
    {
      var n := SymbolCount();
      for p := 0 to |productions|
        invariant |firstSets| == n
        invariant forall x :: 0 <= x < n ==> firstSets[x] - {-1} == if x in terminals then {x} else {}
        invariant forall x :: 0 <= x < n ==> (-1 in firstSets[x] <==> HasEmpty(productions[..p], x))
      {
        forall x | 0 <= x < n {
          HasEmptyNext(productions, p, x);
        }
        if |productions[p].right| == 0 {
          var left := productions[p].left;
          firstSets := firstSets[left := firstSets[left] + {-1}];
        }
      }
      assert productions[..|productions|] == productions;
      forall t | t in terminals ensures firstSets[t] == {t} {
        assert -1 !in firstSets[t];
      }
    }

    /** The FIRST sets hold -1 and symbols only. */
    lemma FirstBounded()
      requires FirstInv() && SymbolsOk()
      ensures forall x, b :: 0 <= x < |firstSets| && b in firstSets[x] ==> -1 <= b < SymbolCount()
    {
      forall x, b | 0 <= x < |firstSets| && b in firstSets[x] ensures -1 <= b < SymbolCount() {
        if b != -1 {
          assert b in terminals;
        }
      }
    }

    /** `ComputeFirstSets`: seed the sets, then repeat passes until one
        changes nothing. The sets end closed under every production. */
    method ComputeFirstSets()
      requires SymbolsOk() && WellFormed(productions, SymbolCount()) && |firstSets| == SymbolCount()
      modifies this`firstSets
      ensures FirstInv() && FirstClosed(productions, firstSets)
    {
      var n := SymbolCount();
      SeedFirstSets();
      SeedEmpty();
      var bDidSomething := true;
      while bDidSomething
        invariant FirstInv() && SymbolsOk() && n == SymbolCount()
        invariant !bDidSomething ==> FirstClosed(productions, firstSets)
        decreases |PairUniverse(n)| - |Pairs(firstSets)|, if bDidSomething then 1 else 0
      {
        ghost var before := firstSets;
        FirstBounded();
        PairsBound(before, n);
        bDidSomething := FirstPass();
        FirstBounded();
        PairsBound(firstSets, n);
        if bDidSomething {
          PairsGrow(before, firstSets);
        }
      }
    }

    /** `ConvertLR0ItemsToKernels`: one kernel per state, in state order:
        the state's items with the dot past the start, and those of a
        production of symbol 0 with the dot at the start — in every state,
        not only the first. */
    method ConvertLR0ItemsToKernels()
      requires ItemsOk() && StatesOk() && lr0Kernels == []
      modifies this`lr0Kernels
      ensures |lr0Kernels| == |lr0States|
      ensures forall s :: 0 <= s < |lr0States| ==> LalrKernel(productions, lr0Items, lr0States[s], lr0Kernels[s])
    {
      for s := 0 to |lr0States|
        invariant |lr0Kernels| == s
        invariant forall s' :: 0 <= s' < s ==> LalrKernel(productions, lr0Items, lr0States[s'], lr0Kernels[s'])
      {
        var q := Collections.Enumerate(lr0States[s]);
        assert forall k :: 0 <= k < |q| ==> q[k] in lr0States[s];
        var lr0Kernel: set<int> := {};
        for m := 0 to |q|
          invariant forall i :: i in lr0Kernel <==>
            i in q[..m] && i in lr0States[s] && 0 <= i < |lr0Items| && InKernel(productions, lr0Items[i])
        {
          var item := lr0Items[q[m]];
          if item.position != 0 {
            lr0Kernel := lr0Kernel + {q[m]};
          } else if productions[item.production].left == 0 {
            lr0Kernel := lr0Kernel + {q[m]};
          }
        }
        assert q[..|q|] == q;
        assert LalrKernel(productions, lr0Items, lr0States[s], lr0Kernel);
        lr0Kernels := lr0Kernels + [lr0Kernel];
      }
    }

    /** `AddPropogation`: the propagation table grows to cover the source
        state, and the edge to the target item and state is appended to the
        list of the source item in that state, a list created when the item
        had none. */
    method AddPropogation(nLR0SourceState: int, nLR0SourceItem: int, nLR0TargetState: int, nLR0TargetItem: int)
      requires 0 <= nLR0SourceState
      modifies this`lalrPropogations
      ensures lalrPropogations == WithEdge(old(lalrPropogations), nLR0SourceState, nLR0SourceItem,
                                           LALRPropogation(nLR0TargetItem, nLR0TargetState))
    {
      while |lalrPropogations| <= nLR0SourceState
        invariant |old(lalrPropogations)| <= |lalrPropogations| <= if nLR0SourceState < |old(lalrPropogations)| then |old(lalrPropogations)| else nLR0SourceState + 1
        invariant lalrPropogations[..|old(lalrPropogations)|] == old(lalrPropogations)
        invariant forall s :: |old(lalrPropogations)| <= s < |lalrPropogations| ==> lalrPropogations[s] == map[]
        decreases nLR0SourceState - |lalrPropogations|
      {
        lalrPropogations := lalrPropogations + [map[]];
      }
      ghost var old' := old(lalrPropogations);
      assert lalrPropogations == if nLR0SourceState < |old'| then old'
                                 else old' + seq(nLR0SourceState + 1 - |old'|, _ => map[]);
      var propogationsForState := lalrPropogations[nLR0SourceState];
      var propogationList: seq<LALRPropogation>;
      if nLR0SourceItem in propogationsForState {
        propogationList := propogationsForState[nLR0SourceItem];
      } else {
        propogationList := [];
      }
      propogationList := propogationList + [LALRPropogation(nLR0TargetItem, nLR0TargetState)];
      lalrPropogations := lalrPropogations[nLR0SourceState := propogationsForState[nLR0SourceItem := propogationList]];
    }

    /** What the lookahead phases keep true: the item lists and FIRST sets
        are sound; there is a goto row per LALR set, of a target (or -1) per
        symbol; a kernel per LALR set, of interned items; the LALR sets hold
        interned LR(1) items; and the propagation table covers no more
        states than there are, its edges naming interned items. */
    ghost predicate LalrOk()
      reads this`lr0Items, this`lr1Items, this`productions, this`firstSets, this`lrGotos, this`lr0Kernels, this`lalrStates, this`lalrPropogations
    {
      ItemsOk() && Lr1Ok() && FirstOk() && WellFormed(productions, SymbolCount()) &&
      LalrTables(lrGotos, lr0Kernels, lalrStates, lalrPropogations, |lr0Items|, |lr1Items|, SymbolCount())
    }

    /** The first half of `InitLALRTables`'s inner loop for LR(1) item `jp`
        of the closure of state `nLR0State`'s kernel: when the dot stands
        before a symbol, lookahead -1 records a propagation edge to the
        successor item in the goto state, and a symbol lookahead puts the
        successor with that lookahead in the goto state's set. A goto of -1
        there is an index out of range. */
    /** An item with lookahead -1 before symbol `nToken`: records the
        propagation edge to its successor in the goto state. */
    method SeedEdge(nLR0State: int, jp: int, nToken: int)
      requires LalrOk() && 0 <= nLR0State < |lalrStates| && 0 <= jp < |lr1Items|
      requires DotBefore(productions, lr0Items[lr1Items[jp].lr0ItemId], nToken) && lr1Items[jp].lookAhead == -1
      modifies this`lr0Items, this`lalrPropogations
      ensures LalrOk() && old(lr0Items) <= lr0Items && PropsGrown(old(lalrPropogations), lalrPropogations)
      ensures SeededNext(productions, lr0Items, lr1Items, lalrStates, lalrPropogations, lrGotos, nLR0State, jp)
    {
      var lr1Item := lr1Items[jp];
      var nLR0Successor := InternSuccessor(jp);
      var nSuccessorState := lrGotos[nLR0State][nToken];
      var e := LALRPropogation(nLR0Successor, nSuccessorState);
      WithEdgeFacts(lrGotos, lr0Kernels, lalrStates, lalrPropogations, |lr0Items|, |lr1Items|, SymbolCount(),
                    nLR0State, lr1Item.lr0ItemId, e);
      AddPropogation(nLR0State, lr1Item.lr0ItemId, nSuccessorState, nLR0Successor);
      SeededByEdge(productions, lr0Items, lr1Items, lalrStates, lalrPropogations, lrGotos, nLR0State, jp, nToken, nLR0Successor);
    }

    /** `GetLR0ItemID` of the successor of LR(1) item `jp`'s LR(0) item,
        the lookahead tables keeping their shape. */
    method InternSuccessor(jp: int) returns (k: int)
      requires LalrOk() && 0 <= jp < |lr1Items|
      requires lr0Items[lr1Items[jp].lr0ItemId].position < |productions[lr0Items[lr1Items[jp].lr0ItemId].production].right|
      modifies this`lr0Items
      ensures LalrOk() && old(lr0Items) <= lr0Items
      ensures 0 <= k < |lr0Items| && lr0Items[k] == Advance(lr0Items[lr1Items[jp].lr0ItemId])
    {
      var lr0Item := lr0Items[lr1Items[jp].lr0ItemId];
      k := GetLR0ItemID(Advance(lr0Item));
      LalrTablesGrow(lrGotos, lr0Kernels, lalrStates, lalrPropogations, old(|lr0Items|), |lr1Items|, |lr0Items|, |lr1Items|, SymbolCount());
    }

    /** `GetLR1ItemID` of a well-formed LR(1) item, the lookahead tables
        keeping their shape. */
    method InternLR1(item: LR1Item) returns (id: int)
      requires LalrOk() && 0 <= item.lr0ItemId < |lr0Items| && -1 <= item.lookAhead < SymbolCount()
      modifies this`lr1Items
      ensures LalrOk() && old(lr1Items) <= lr1Items
      ensures 0 <= id < |lr1Items| && lr1Items[id] == item
    {
      id := GetLR1ItemID(item);
      LalrTablesGrow(lrGotos, lr0Kernels, lalrStates, lalrPropogations, |lr0Items|, old(|lr1Items|), |lr0Items|, |lr1Items|, SymbolCount());
    }

    /** An item with a symbol lookahead before symbol `nToken`: adds its
        successor with the same lookahead to the goto state's LALR set. A
        missing goto is the indexing error the source raises. */
    method SeedSymbol(nLR0State: int, jp: int, nToken: int) returns (r: Result<()>)
      requires LalrOk() && 0 <= nLR0State < |lalrStates| && 0 <= jp < |lr1Items|
      requires DotBefore(productions, lr0Items[lr1Items[jp].lr0ItemId], nToken) && lr1Items[jp].lookAhead != -1
      modifies this`lr0Items, this`lr1Items, this`lalrStates
      ensures LalrOk() && old(lr0Items) <= lr0Items && old(lr1Items) <= lr1Items
      ensures StatesGrown(old(lalrStates), lalrStates)
      ensures r.Success? ==> SeededNext(productions, lr0Items, lr1Items, lalrStates, lalrPropogations, lrGotos, nLR0State, jp)
      ensures r.Failure? ==> r.error == ArgumentOutOfRangeException && lrGotos[nLR0State][nToken] < 0
    {
      var lr1Item := lr1Items[jp];
      var nLR0Successor := InternSuccessor(jp);
      var nSuccessorState := lrGotos[nLR0State][nToken];
      var lalrItem := LR1Item(nLR0Successor, lr1Item.lookAhead);
      var nLALRItemID := InternLR1(lalrItem);
      if nSuccessorState < 0 {
        return Failure(ArgumentOutOfRangeException);
      }
      LalrTablesAdd(lrGotos, lr0Kernels, lalrStates, lalrPropogations, |lr0Items|, |lr1Items|, SymbolCount(),
                    nSuccessorState, nLALRItemID);
      lalrStates := lalrStates[nSuccessorState := lalrStates[nSuccessorState] + {nLALRItemID}];
      assert Holds1(lr1Items, lalrStates[nSuccessorState], lalrItem);
      SeededBySymbol(productions, lr0Items, lr1Items, lalrStates, lalrPropogations, lrGotos, nLR0State, jp, nToken, nLR0Successor);
      r := Success(());
    }

    /** LR(1) item `jp` passes its lookahead on to its successor in the
        goto state, if it has one. */
    method SeedNext(nLR0State: int, jp: int) returns (r: Result<()>)
      requires LalrOk() && 0 <= nLR0State < |lalrStates| && 0 <= jp < |lr1Items|
      modifies this`lr0Items, this`lr1Items, this`lalrStates, this`lalrPropogations
      ensures LalrOk() && old(lr0Items) <= lr0Items && old(lr1Items) <= lr1Items
      ensures StatesGrown(old(lalrStates), lalrStates) && PropsGrown(old(lalrPropogations), lalrPropogations)
      ensures r.Success? ==> SeededNext(productions, lr0Items, lr1Items, lalrStates, lalrPropogations, lrGotos, nLR0State, jp)
      ensures r.Failure? ==>
        r.error == ArgumentOutOfRangeException && MissingGoto(productions, lr0Items, lr1Items, lrGotos, nLR0State, jp)
    {
      var lr1Item := lr1Items[jp];
      var lr0Item := lr0Items[lr1Item.lr0ItemId];
      if lr0Item.position < |productions[lr0Item.production].right| {
        var nToken := productions[lr0Item.production].right[lr0Item.position];
        if lr1Item.lookAhead == -1 {
          SeedEdge(nLR0State, jp, nToken);
        } else {
          r := SeedSymbol(nLR0State, jp, nToken);
          return;
        }
      } else {
        SeededAtEnd(productions, lr0Items, lr1Items, lalrStates, lalrPropogations, lrGotos, nLR0State, jp);
      }
      r := Success(());
    }

    /** The body of `InitLALRTables`'s inner loop for LR(1) item `jp` of the
        closure of state `nLR0State`'s kernel: a symbol lookahead, or any
        in the first state, puts the item in the state's LALR set; then the
        item passes its lookahead on. */
    method SeedItem(nLR0State: int, jp: int) returns (r: Result<()>)
      requires LalrOk() && 0 <= nLR0State < |lalrStates| && 0 <= jp < |lr1Items|
      modifies this`lr0Items, this`lr1Items, this`lalrStates, this`lalrPropogations
      ensures LalrOk() && old(lr0Items) <= lr0Items && old(lr1Items) <= lr1Items
      ensures StatesGrown(old(lalrStates), lalrStates) && PropsGrown(old(lalrPropogations), lalrPropogations)
      ensures r.Success? ==> Seeded(productions, lr0Items, lr1Items, lalrStates, lalrPropogations, lrGotos, nLR0State, jp)
      ensures r.Failure? ==>
        r.error == ArgumentOutOfRangeException && MissingGoto(productions, lr0Items, lr1Items, lrGotos, nLR0State, jp)
    {
      if lr1Items[jp].lookAhead != -1 || nLR0State == 0 {
        LalrTablesAdd(lrGotos, lr0Kernels, lalrStates, lalrPropogations, |lr0Items|, |lr1Items|, SymbolCount(), nLR0State, jp);
        lalrStates := lalrStates[nLR0State := lalrStates[nLR0State] + {jp}];
      }
      ghost var states0 := lalrStates;
      r := SeedNext(nLR0State, jp);
      assert states0[nLR0State] <= lalrStates[nLR0State];
    }

    /** The first loop of `InitLALRTables`'s body: each item of state
        `nLR0State`'s kernel, with lookahead -1, is interned into `j`. */
    method SeedKernel(nLR0State: int) returns (j: set<int>)
      requires LalrOk() && 0 <= nLR0State < |lr0Kernels|
      modifies this`lr1Items
      ensures LalrOk() && old(lr1Items) <= lr1Items
      ensures forall jp :: jp in j ==> 0 <= jp < |lr1Items|
      ensures forall i :: i in lr0Kernels[nLR0State] ==> Holds1(lr1Items, j, LR1Item(i, -1))
    {
      var kernel := Collections.Enumerate(lr0Kernels[nLR0State]);
      j := {};
      for m := 0 to |kernel|
        invariant LalrOk() && old(lr1Items) <= lr1Items
        invariant forall jp :: jp in j ==> 0 <= jp < |lr1Items|
        invariant forall k :: 0 <= k < m ==> Holds1(lr1Items, j, LR1Item(kernel[k], -1))
      {
        assert kernel[m] in lr0Kernels[nLR0State];
        ghost var items1 := lr1Items;
        var nLR1ItemID := GetLR1ItemID(LR1Item(kernel[m], -1));
        LalrTablesGrow(lrGotos, lr0Kernels, lalrStates, lalrPropogations, |lr0Items|, |items1|, |lr0Items|, |lr1Items|, SymbolCount());
        forall k | 0 <= k < m ensures Holds1(lr1Items, j + {nLR1ItemID}, LR1Item(kernel[k], -1)) {
          Holds1Grows(items1, lr1Items, j, j + {nLR1ItemID}, LR1Item(kernel[k], -1));
        }
        j := j + {nLR1ItemID};
      }
      forall i | i in lr0Kernels[nLR0State] ensures Holds1(lr1Items, j, LR1Item(i, -1)) {
        var k :| 0 <= k < |kernel| && kernel[k] == i;
      }
    }

    /** One turn of `SeedClosure`'s loop: item `q[m]` is seeded, and the
        items before it stay seeded. */
    method SeedAt(nLR0State: int, q: seq<int>, m: int) returns (r: Result<()>)
      requires LalrOk() && 0 <= nLR0State < |lalrStates| && 0 <= m < |q| && 0 <= q[m] < |lr1Items|
      requires forall k :: 0 <= k < m ==>
        Seeded(productions, lr0Items, lr1Items, lalrStates, lalrPropogations, lrGotos, nLR0State, q[k])
      modifies this`lr0Items, this`lr1Items, this`lalrStates, this`lalrPropogations
      ensures LalrOk() && old(lr0Items) <= lr0Items && old(lr1Items) <= lr1Items
      ensures StatesGrown(old(lalrStates), lalrStates) && PropsGrown(old(lalrPropogations), lalrPropogations)
      ensures r.Success? ==> forall k :: 0 <= k <= m ==>
        Seeded(productions, lr0Items, lr1Items, lalrStates, lalrPropogations, lrGotos, nLR0State, q[k])
      ensures r.Failure? ==>
        r.error == ArgumentOutOfRangeException && MissingGoto(productions, lr0Items, lr1Items, lrGotos, nLR0State, q[m])
    {
      ghost var a0, a1, s0, p0 := lr0Items, lr1Items, lalrStates, lalrPropogations;
      r := SeedItem(nLR0State, q[m]);
      if r.Success? {
        SeededPrefixGrows(productions, a0, lr0Items, a1, lr1Items, s0, lalrStates, p0, lalrPropogations, lrGotos,
                          nLR0State, q, m);
      }
    }

    /** The second loop of `InitLALRTables`'s body: every item of the
        closure `jPrime` of state `nLR0State`'s kernel is seeded in turn. The
        first item to index a missing goto stops the build. */
    method SeedClosure(nLR0State: int, jPrime: set<int>) returns (r: Result<()>)
      requires LalrOk() && 0 <= nLR0State < |lalrStates| && forall jp :: jp in jPrime ==> 0 <= jp < |lr1Items|
      modifies this`lr0Items, this`lr1Items, this`lalrStates, this`lalrPropogations
      ensures LalrOk() && old(lr0Items) <= lr0Items && old(lr1Items) <= lr1Items
      ensures StatesGrown(old(lalrStates), lalrStates) && PropsGrown(old(lalrPropogations), lalrPropogations)
      ensures r.Success? ==>
        forall jp :: jp in jPrime ==>
          Seeded(productions, lr0Items, lr1Items, lalrStates, lalrPropogations, lrGotos, nLR0State, jp)
      ensures r.Failure? ==>
        r.error == ArgumentOutOfRangeException &&
        exists jp :: jp in jPrime && MissingGoto(productions, lr0Items, lr1Items, lrGotos, nLR0State, jp)
    {
      var q := Collections.Enumerate(jPrime);
      r := Success(());
      for m := 0 to |q|
        invariant r.Success? && LalrOk() && old(lr0Items) <= lr0Items && old(lr1Items) <= lr1Items
        invariant StatesGrown(old(lalrStates), lalrStates) && PropsGrown(old(lalrPropogations), lalrPropogations)
        invariant forall k :: 0 <= k < m ==>
          Seeded(productions, lr0Items, lr1Items, lalrStates, lalrPropogations, lrGotos, nLR0State, q[k])
      {
        assert q[m] in jPrime;
        ghost var s0, p0 := lalrStates, lalrPropogations;
        r := SeedAt(nLR0State, q, m);
        StatesGrownTrans(old(lalrStates), s0, lalrStates);
        PropsGrownTrans(old(lalrPropogations), p0, lalrPropogations);
        if r.Failure? {
          assert q[m] in jPrime && MissingGoto(productions, lr0Items, lr1Items, lrGotos, nLR0State, q[m]);
          return;
        }
      }
      forall jp | jp in jPrime
        ensures Seeded(productions, lr0Items, lr1Items, lalrStates, lalrPropogations, lrGotos, nLR0State, jp)
      {
        var k :| 0 <= k < |q| && q[k] == jp;
      }
    }

    /** One turn of `InitLALRTables`'s outer loop: the kernel of state
        `nLR0State` with lookahead -1 is closed under LR(1) substitution,
        and every item of the closure is seeded. */
    method SeedState(nLR0State: int) returns (r: Result<()>, jPrime: set<int>)
      requires LalrOk() && 0 <= nLR0State < |lalrStates|
      modifies this`lr0Items, this`lr1Items, this`lalrStates, this`lalrPropogations
      ensures LalrOk() && old(lr0Items) <= lr0Items && old(lr1Items) <= lr1Items
      ensures StatesGrown(old(lalrStates), lalrStates) && PropsGrown(old(lalrPropogations), lalrPropogations)
      ensures r.Success? ==>
        StateSeeded(productions, nonterminals, firstSets, lr0Items, lr1Items, lalrStates, lalrPropogations, lrGotos,
                    lr0Kernels[nLR0State], nLR0State, jPrime)
      ensures r.Failure? ==>
        r.error == ArgumentOutOfRangeException &&
        exists jp :: jp in jPrime && MissingGoto(productions, lr0Items, lr1Items, lrGotos, nLR0State, jp)
    {
      var j := SeedKernel(nLR0State);
      ghost var items1 := lr1Items;
      jPrime := LR1Closure(j);
      LalrTablesGrow(lrGotos, lr0Kernels, lalrStates, lalrPropogations, old(|lr0Items|), |items1|,
                     |lr0Items|, |lr1Items|, SymbolCount());
      forall i | i in lr0Kernels[nLR0State] ensures Holds1(lr1Items, jPrime, LR1Item(i, -1)) {
        Holds1Grows(items1, lr1Items, j, jPrime, LR1Item(i, -1));
      }
      ghost var i0, i1 := lr0Items, lr1Items;
      r := SeedClosure(nLR0State, jPrime);
      if r.Success? {
        StateSeededIntro(productions, nonterminals, firstSets, i0, lr0Items, i1, lr1Items, lalrStates, lalrPropogations,
                         lrGotos, lr0Kernels[nLR0State], nLR0State, jPrime);
      }
    }

    /** `InitLALRTables`: one empty LALR set per LR(0) state; then each
        state's kernel, in state order, is closed with lookahead -1 and its
        closure seeded — spontaneous lookaheads into the LALR sets,
        propagation edges into the table. `closures` holds the closure of
        each state seeded. A symbol-lookahead item before a symbol with no
        goto stops the build with the indexing error the source raises. */
    method InitLALRTables() returns (r: Result<()>, ghost closures: seq<set<int>>)
      requires ItemsOk() && Lr1Ok() && FirstOk() && StatesOk() && WellFormed(productions, SymbolCount())
      requires |lrGotos| == |lr0States| &&
               GotoRows(productions, productionPrecedence, lr0Items, lr0States, lrGotos, gotoPrecedence, SymbolCount(), |lr0States|)
      requires |lr0Kernels| == |lr0States| &&
               forall s :: 0 <= s < |lr0States| ==> LalrKernel(productions, lr0Items, lr0States[s], lr0Kernels[s])
      requires lalrStates == [] && lalrPropogations == []
      modifies this`lr0Items, this`lr1Items, this`lalrStates, this`lalrPropogations
      ensures LalrOk() && old(lr0Items) <= lr0Items && old(lr1Items) <= lr1Items && |lalrStates| == |lr0States|
      ensures r.Success? ==>
        |closures| == |lalrStates| &&
        forall s :: 0 <= s < |lalrStates| ==>
          StateSeeded(productions, nonterminals, firstSets, lr0Items, lr1Items, lalrStates, lalrPropogations, lrGotos,
                      lr0Kernels[s], s, closures[s])
      ensures r.Failure? ==>
        r.error == ArgumentOutOfRangeException &&
        exists s, jp :: 0 <= s < |closures| && jp in closures[s] &&
          MissingGoto(productions, lr0Items, lr1Items, lrGotos, s, jp)
    {
      for i := 0 to |lr0States|
        invariant |lalrStates| == i && forall s :: 0 <= s < i ==> lalrStates[s] == {}
        invariant lr0Items == old(lr0Items) && lr1Items == old(lr1Items) && lalrPropogations == []
      {
        lalrStates := lalrStates + [{}];
      }
      LalrTablesInit(productions, productionPrecedence, lr0Items, lr0States, lrGotos, gotoPrecedence, lr0Kernels,
                     lalrStates, |lr1Items|, SymbolCount());
      closures := [];
      r := Success(());
      for nLR0State := 0 to |lr0Kernels|
        invariant r.Success? && LalrOk() && old(lr0Items) <= lr0Items && old(lr1Items) <= lr1Items
        invariant |lalrStates| == |lr0States| && |closures| == nLR0State
        invariant forall s :: 0 <= s < nLR0State ==>
          StateSeeded(productions, nonterminals, firstSets, lr0Items, lr1Items, lalrStates, lalrPropogations, lrGotos,
                      lr0Kernels[s], s, closures[s])
      {
        ghost var a0, a1, s0, p0 := lr0Items, lr1Items, lalrStates, lalrPropogations;
        var jPrime;
        r, jPrime := SeedState(nLR0State);
        closures := closures + [jPrime];
        if r.Failure? {
          assert closures[nLR0State] == jPrime;
          return;
        }
        forall s | 0 <= s < nLR0State
          ensures StateSeeded(productions, nonterminals, firstSets, lr0Items, lr1Items, lalrStates, lalrPropogations, lrGotos,
                              lr0Kernels[s], s, closures[s])
        {
          StateSeededGrows(productions, nonterminals, firstSets, a0, lr0Items, a1, lr1Items, s0, lalrStates, p0, lalrPropogations,
                           lrGotos, lr0Kernels[s], s, closures[s]);
        }
      }
    }

    /** The innermost loop of `CalculateLookAheads`: each edge recorded for
        the LR(0) item of LR(1) item `j` in state `nState` carries the
        item's lookahead to its target item in its target state. `changed`
        tells whether some addition was new, `selfAdded` whether one went
        into state `nState` itself. An edge to the missing goto -1 indexes
        the state list with -1 and stops the build. */
    method PropagateItem(nState: int, j: int) returns (r: Result<()>, changed: bool, selfAdded: bool)
      requires LalrOk() && 0 <= nState < |lalrPropogations| && 0 <= j < |lr1Items|
      requires lr1Items[j].lr0ItemId in lalrPropogations[nState]
      modifies this`lr1Items, this`lalrStates
      ensures LalrOk() && old(lr1Items) <= lr1Items && StatesGrown(old(lalrStates), lalrStates)
      ensures !changed ==> lalrStates == old(lalrStates)
      ensures changed ==> Grew(old(lalrStates), lalrStates)
      ensures selfAdded <==> lalrStates[nState] != old(lalrStates)[nState]
      ensures r.Success? ==>
        forall e :: e in lalrPropogations[nState][lr1Items[j].lr0ItemId] ==>
          EdgeCarried(lr1Items, lalrStates, e, lr1Items[j].lookAhead)
      ensures r.Failure? ==>
        r.error == ArgumentOutOfRangeException && DeadEdge(lr1Items, lalrPropogations, nState, j)
    {
      var lr1Item := lr1Items[j];
      var list := lalrPropogations[nState][lr1Item.lr0ItemId];
      changed, selfAdded := false, false;
      for k := 0 to |list|
        invariant LalrOk() && old(lr1Items) <= lr1Items && StatesGrown(old(lalrStates), lalrStates)
        invariant !changed ==> lalrStates == old(lalrStates)
        invariant changed ==> Grew(old(lalrStates), lalrStates)
        invariant selfAdded <==> lalrStates[nState] != old(lalrStates)[nState]
        invariant forall k' :: 0 <= k' < k ==> EdgeCarried(lr1Items, lalrStates, list[k'], lr1Item.lookAhead)
      {
        var lalrPropogation := list[k];
        var nGoto := lalrPropogation.lr0TargetState;
        if nGoto < 0 {
          assert lalrPropogation in list;
          return Failure(ArgumentOutOfRangeException), changed, selfAdded;
        }
        ghost var s0, i0 := lalrStates, lr1Items;
        var added := CarryEdge(lalrPropogation, lr1Item.lookAhead);
        if added {
          GrewChain(old(lalrStates), s0, lalrStates);
          if nGoto == nState {
            selfAdded := true;
          }
          changed := true;
        }
        StatesGrownTrans(old(lalrStates), s0, lalrStates);
        forall k' | 0 <= k' < k ensures EdgeCarried(lr1Items, lalrStates, list[k'], lr1Item.lookAhead) {
          EdgeCarriedGrows(i0, lr1Items, s0, lalrStates, list[k'], lr1Item.lookAhead);
        }
        assert EdgeCarried(lr1Items, lalrStates, list[k], lr1Item.lookAhead);
      }
      r := Success(());
      forall e | e in list ensures EdgeCarried(lr1Items, lalrStates, e, lr1Item.lookAhead) {
        var k :| 0 <= k < |list| && list[k] == e;
      }
    }

    /** One edge in `PropagateItem`: the LR(1) item of the edge's target
        item with the lookahead carried is interned and added to the target
        state's LALR set, `added` telling whether it was new there. */
    method CarryEdge(e: LALRPropogation, la: int) returns (added: bool)
      requires LalrOk() && 0 <= e.lr0TargetState < |lalrStates| && 0 <= e.lr0TargetItem < |lr0Items|
      requires -1 <= la < SymbolCount()
      modifies this`lr1Items, this`lalrStates
      ensures LalrOk() && old(lr1Items) <= lr1Items && StatesGrown(old(lalrStates), lalrStates)
      ensures EdgeCarried(lr1Items, lalrStates, e, la)
      ensures !added ==> lalrStates == old(lalrStates)
      ensures added ==>
        Grew(old(lalrStates), lalrStates) && lalrStates[e.lr0TargetState] != old(lalrStates)[e.lr0TargetState] &&
        lalrStates == old(lalrStates)[e.lr0TargetState := lalrStates[e.lr0TargetState]]
    {
      var nGoto := e.lr0TargetState;
      var nItem := InternLR1(LR1Item(e.lr0TargetItem, la));
      added := nItem !in lalrStates[nGoto];
      if added {
        LalrTablesAdd(lrGotos, lr0Kernels, lalrStates, lalrPropogations, |lr0Items|, |lr1Items|, SymbolCount(), nGoto, nItem);
        lalrStates := lalrStates[nGoto := lalrStates[nGoto] + {nItem}];
        assert nItem in lalrStates[nGoto] && nItem !in old(lalrStates)[nGoto];
      }
      assert nItem in lalrStates[nGoto];
    }

    /** The middle loop of `CalculateLookAheads`: every LR(1) item of state
        `nState`'s LALR set with recorded edges passes its lookahead on.
        The set is enumerated while the edges add to the sets, so an
        addition into the set itself makes the enumeration fail with
        `InvalidOperationException` once the item's edges are done; hence
        on success the state's own set is as it was. */
    method PropagateState(nState: int) returns (r: Result<()>, changed: bool)
      requires LalrOk() && 0 <= nState < |lalrPropogations|
      modifies this`lr1Items, this`lalrStates
      ensures LalrOk() && old(lr1Items) <= lr1Items && StatesGrown(old(lalrStates), lalrStates)
      ensures !changed ==> lalrStates == old(lalrStates)
      ensures changed ==> Grew(old(lalrStates), lalrStates)
      ensures r.Success? ==>
        lalrStates[nState] == old(lalrStates)[nState] && PropagatedFrom(lr1Items, lalrStates, lalrPropogations, nState)
      ensures r.Failure? ==>
        (r.error == InvalidOperationException && lalrStates[nState] != old(lalrStates)[nState]) ||
        (r.error == ArgumentOutOfRangeException &&
         exists j :: j in old(lalrStates)[nState] && DeadEdge(lr1Items, lalrPropogations, nState, j))
    {
      var statePropogations := lalrPropogations[nState];
      var q := Collections.Enumerate(lalrStates[nState]);
      changed := false;
      assert forall k :: 0 <= k < |q| ==> q[k] in lalrStates[nState];
      for m := 0 to |q|
        invariant LalrOk() && old(lr1Items) <= lr1Items && StatesGrown(old(lalrStates), lalrStates)
        invariant !changed ==> lalrStates == old(lalrStates)
        invariant changed ==> Grew(old(lalrStates), lalrStates)
        invariant lalrStates[nState] == old(lalrStates)[nState]
        invariant forall k :: 0 <= k < |q| ==> 0 <= q[k] < |lr1Items|
        invariant forall m', e :: 0 <= m' < m && lr1Items[q[m']].lr0ItemId in statePropogations &&
                                  e in statePropogations[lr1Items[q[m']].lr0ItemId] ==>
          EdgeCarried(lr1Items, lalrStates, e, lr1Items[q[m']].lookAhead)
      {
        assert q[m] in old(lalrStates)[nState];
        var lr1Item := lr1Items[q[m]];
        if lr1Item.lr0ItemId in statePropogations {
          ghost var s0, i0 := lalrStates, lr1Items;
          var res, c, self := PropagateItem(nState, q[m]);
          StatesGrownTrans(old(lalrStates), s0, lalrStates);
          if c && changed {
            GrewChain(old(lalrStates), s0, lalrStates);
          }
          if res.Failure? {
            return res, changed || c;
          }
          if self {
            return Failure(InvalidOperationException), true;
          }
          forall m', e | 0 <= m' < m && lr1Items[q[m']].lr0ItemId in statePropogations &&
                         e in statePropogations[lr1Items[q[m']].lr0ItemId]
            ensures EdgeCarried(lr1Items, lalrStates, e, lr1Items[q[m']].lookAhead)
          {
            assert i0[q[m']] == lr1Items[q[m']];
            EdgeCarriedGrows(i0, lr1Items, s0, lalrStates, e, lr1Items[q[m']].lookAhead);
          }
          changed := changed || c;
        }
      }
      r := Success(());
      forall j, e | j in lalrStates[nState] && 0 <= j < |lr1Items| && lr1Items[j].lr0ItemId in statePropogations &&
                    e in statePropogations[lr1Items[j].lr0ItemId]
        ensures EdgeCarried(lr1Items, lalrStates, e, lr1Items[j].lookAhead)
      {
        var m :| 0 <= m < |q| && q[m] == j;
      }
    }

    /** The LALR sets, as pairs of a state and an LR(1) item id, are no more
        than the pairs below a bound that depends on the grammar and the
        number of states alone. */
    lemma StatePairsBound()
      requires LalrOk()
      ensures |Pairs(lalrStates)| <= |PairUniverse(|lalrStates| + |LR1Universe(|LR0Universe(productions)|, SymbolCount())|)|
    {
      ItemCount(productions, lr0Items);
      LR1ItemCount(lr1Items, |LR0Universe(productions)|, SymbolCount());
      PairsBoundIn(lalrStates, |lalrStates| + |LR1Universe(|LR0Universe(productions)|, SymbolCount())|);
    }

    /** One pass of `CalculateLookAheads`'s loop, as the source has it: each
        state with a propagation table entry passes its lookaheads on, and a
        state whose edges added something is replaced by its LR(1) closure.
        Only the state the additions came from is closed again, not the
        states they went into. A pass that changes nothing leaves the sets
        at the propagation fixpoint. */
    method LookaheadPass() returns (r: Result<()>, changed: bool)
      requires LalrOk()
      modifies this`lr0Items, this`lr1Items, this`lalrStates
      ensures LalrOk() && old(lr0Items) <= lr0Items && old(lr1Items) <= lr1Items
      ensures StatesGrown(old(lalrStates), lalrStates)
      ensures changed ==> Grew(old(lalrStates), lalrStates)
      ensures r.Success? && !changed ==>
        lalrStates == old(lalrStates) && Propagated(lr1Items, lalrStates, lalrPropogations)
      ensures r.Failure? ==>
        exists s :: 0 <= s < |lalrPropogations| &&
          ((r.error == InvalidOperationException && lalrStates[s] != old(lalrStates)[s]) ||
           (r.error == ArgumentOutOfRangeException &&
            exists j :: j in lalrStates[s] && DeadEdge(lr1Items, lalrPropogations, s, j)))
    {
      changed := false;
      r := Success(());
      for nState := 0 to |lalrPropogations|
        invariant r.Success? && LalrOk() && old(lr0Items) <= lr0Items && old(lr1Items) <= lr1Items
        invariant StatesGrown(old(lalrStates), lalrStates)
        invariant changed ==> Grew(old(lalrStates), lalrStates)
        invariant !changed ==>
          lalrStates == old(lalrStates) &&
          forall s :: 0 <= s < nState ==> PropagatedFrom(lr1Items, lalrStates, lalrPropogations, s)
      {
        ghost var s0, i0 := lalrStates, lr1Items;
        var res, c := LookaheadStep(nState);
        StatesGrownTrans(old(lalrStates), s0, lalrStates);
        if res.Failure? {
          r := res;
          assert s0[nState] <= lalrStates[nState];
          return;
        }
        if c {
          GrewChain(old(lalrStates), s0, lalrStates);
          changed := true;
        } else if !changed {
          forall s | 0 <= s < nState ensures PropagatedFrom(lr1Items, lalrStates, lalrPropogations, s) {
            PropagatedFromGrows(i0, lr1Items, lalrStates, lalrPropogations, s);
          }
        }
      }
    }

    /** One state of a pass as written: its propagations are carried, and
        when that changed anything the state's own set is closed again. */
    method LookaheadStep(nState: int) returns (r: Result<()>, changed: bool)
      requires LalrOk() && 0 <= nState < |lalrPropogations|
      modifies this`lr0Items, this`lr1Items, this`lalrStates
      ensures LalrOk() && old(lr0Items) <= lr0Items && old(lr1Items) <= lr1Items
      ensures StatesGrown(old(lalrStates), lalrStates)
      ensures changed ==> Grew(old(lalrStates), lalrStates)
      ensures r.Success? && !changed ==>
        lalrStates == old(lalrStates) && PropagatedFrom(lr1Items, lalrStates, lalrPropogations, nState)
      ensures r.Failure? ==>
        (r.error == InvalidOperationException && lalrStates[nState] != old(lalrStates)[nState]) ||
        (r.error == ArgumentOutOfRangeException &&
         exists j :: j in lalrStates[nState] && DeadEdge(lr1Items, lalrPropogations, nState, j))
    {
      r, changed := PropagateState(nState);
      if r.Success? && changed {
        ghost var s1 := lalrStates;
        var _ := CloseState(nState);
        StatesGrownTrans(old(lalrStates), s1, lalrStates);
        GrewChain(old(lalrStates), s1, lalrStates);
      }
    }

    /** `CalculateLookAheads`: passes run until one changes nothing. The sets
        only grow, so the passes stop; the sets they leave are at the
        propagation fixpoint. A pass that adds to the set it enumerates, or
        follows an edge to the missing goto, stops the build. */
    method CalculateLookAheads() returns (r: Result<()>)
      requires LalrOk()
      modifies this`lr0Items, this`lr1Items, this`lalrStates
      ensures LalrOk() && old(lr0Items) <= lr0Items && old(lr1Items) <= lr1Items
      ensures StatesGrown(old(lalrStates), lalrStates)
      ensures r.Success? ==> Propagated(lr1Items, lalrStates, lalrPropogations)
      ensures r.Failure? ==>
        r.error == InvalidOperationException ||
        (r.error == ArgumentOutOfRangeException &&
         exists s, j :: 0 <= s < |lalrStates| && j in lalrStates[s] && DeadEdge(lr1Items, lalrPropogations, s, j))
    {
      ghost var bound := |lalrStates| + |LR1Universe(|LR0Universe(productions)|, SymbolCount())|;
      var bChanged := true;
      r := Success(());
      while bChanged
        invariant r.Success? && LalrOk() && old(lr0Items) <= lr0Items && old(lr1Items) <= lr1Items
        invariant StatesGrown(old(lalrStates), lalrStates)
        invariant !bChanged ==> Propagated(lr1Items, lalrStates, lalrPropogations)
        decreases |PairUniverse(bound)| - |Pairs(lalrStates)|, if bChanged then 1 else 0
      {
        ghost var before := lalrStates;
        StatePairsBound();
        r, bChanged := LookaheadPass();
        StatesGrownTrans(old(lalrStates), before, lalrStates);
        if r.Failure? {
          return;
        }
        StatePairsBound();
        if bChanged {
          PairsGrow(before, lalrStates);
        }
      }
    }

    /** State `nState`'s LALR set is replaced by its LR(1) closure;
        `changed` tells whether that added something. */
    method CloseState(nState: int) returns (changed: bool)
      requires LalrOk() && 0 <= nState < |lalrStates|
      modifies this`lr0Items, this`lr1Items, this`lalrStates
      ensures LalrOk() && old(lr0Items) <= lr0Items && old(lr1Items) <= lr1Items
      ensures StatesGrown(old(lalrStates), lalrStates)
      ensures changed ==> Grew(old(lalrStates), lalrStates)
      ensures !changed ==> lalrStates == old(lalrStates)
      ensures Closed1(productions, nonterminals, firstSets, lr0Items, lr1Items, lalrStates[nState])
    {
      var closure := LR1Closure(lalrStates[nState]);
      LalrTablesGrow(lrGotos, lr0Kernels, lalrStates, lalrPropogations, old(|lr0Items|), old(|lr1Items|),
                     |lr0Items|, |lr1Items|, SymbolCount());
      LalrTablesReplace(lrGotos, lr0Kernels, lalrStates, lalrPropogations, |lr0Items|, |lr1Items|, SymbolCount(), nState, closure);
      changed := closure != lalrStates[nState];
      if changed {
        var j :| j in closure && j !in lalrStates[nState];
        lalrStates := lalrStates[nState := closure];
        assert j in lalrStates[nState] && j !in old(lalrStates)[nState];
      }
    }

    /** One turn of `ClosingPass`'s loop: state `nState` passes its
        lookaheads on, when it has a propagation table entry, and is then
        replaced by its closure. Unless that changed some set, the state
        is at the fixpoint and closed. */
    method ClosingStep(nState: int) returns (r: Result<()>, changed: bool)
      requires LalrOk() && 0 <= nState < |lalrStates|
      modifies this`lr0Items, this`lr1Items, this`lalrStates
      ensures LalrOk() && old(lr0Items) <= lr0Items && old(lr1Items) <= lr1Items
      ensures StatesGrown(old(lalrStates), lalrStates)
      ensures changed ==> Grew(old(lalrStates), lalrStates)
      ensures r.Success? && !changed ==>
        lalrStates == old(lalrStates) &&
        (nState < |lalrPropogations| ==> PropagatedFrom(lr1Items, lalrStates, lalrPropogations, nState)) &&
        Closed1(productions, nonterminals, firstSets, lr0Items, lr1Items, lalrStates[nState])
      ensures r.Failure? ==>
        nState < |lalrPropogations| &&
        ((r.error == InvalidOperationException && lalrStates[nState] != old(lalrStates)[nState]) ||
         (r.error == ArgumentOutOfRangeException &&
          exists j :: j in lalrStates[nState] && DeadEdge(lr1Items, lalrPropogations, nState, j)))
    {
      changed := false;
      r := Success(());
      if nState < |lalrPropogations| {
        r, changed := PropagateState(nState);
        if r.Failure? {
          assert old(lalrStates)[nState] <= lalrStates[nState];
          return;
        }
      }
      ghost var s1, i1 := lalrStates, lr1Items;
      var c := CloseState(nState);
      StatesGrownTrans(old(lalrStates), s1, lalrStates);
      if c {
        GrewChain(old(lalrStates), s1, lalrStates);
      }
      if !changed && !c && nState < |lalrPropogations| {
        PropagatedFromGrows(i1, lr1Items, lalrStates, lalrPropogations, nState);
      }
      changed := changed || c;
    }

    /** One pass of the lookahead loop as evidently intended: every state,
        not only those with a propagation table entry, passes its lookaheads
        on and is then replaced by its LR(1) closure, and a closure that
        adds something counts as a change. A pass that changes nothing
        leaves the sets at the propagation fixpoint and closed. */
    method ClosingPass() returns (r: Result<()>, changed: bool)
      requires LalrOk()
      modifies this`lr0Items, this`lr1Items, this`lalrStates
      ensures LalrOk() && old(lr0Items) <= lr0Items && old(lr1Items) <= lr1Items
      ensures StatesGrown(old(lalrStates), lalrStates)
      ensures changed ==> Grew(old(lalrStates), lalrStates)
      ensures r.Success? && !changed ==>
        lalrStates == old(lalrStates) && Propagated(lr1Items, lalrStates, lalrPropogations) &&
        forall s :: 0 <= s < |lalrStates| ==>
          Closed1(productions, nonterminals, firstSets, lr0Items, lr1Items, lalrStates[s])
      ensures r.Failure? ==>
        exists s :: 0 <= s < |lalrPropogations| &&
          ((r.error == InvalidOperationException && lalrStates[s] != old(lalrStates)[s]) ||
           (r.error == ArgumentOutOfRangeException &&
            exists j :: j in lalrStates[s] && DeadEdge(lr1Items, lalrPropogations, s, j)))
    {
      changed := false;
      r := Success(());
      for nState := 0 to |lalrStates|
        invariant r.Success? && LalrOk() && old(lr0Items) <= lr0Items && old(lr1Items) <= lr1Items
        invariant StatesGrown(old(lalrStates), lalrStates)
        invariant changed ==> Grew(old(lalrStates), lalrStates)
        invariant !changed ==>
          lalrStates == old(lalrStates) &&
          (forall s :: 0 <= s < nState && s < |lalrPropogations| ==>
             PropagatedFrom(lr1Items, lalrStates, lalrPropogations, s)) &&
          forall s :: 0 <= s < nState ==> Closed1(productions, nonterminals, firstSets, lr0Items, lr1Items, lalrStates[s])
      {
        ghost var s0, i0, a0 := lalrStates, lr1Items, lr0Items;
        var res, c := ClosingStep(nState);
        StatesGrownTrans(old(lalrStates), s0, lalrStates);
        if res.Failure? {
          r := res;
          assert s0[nState] <= lalrStates[nState];
          return;
        }
        if c {
          GrewChain(old(lalrStates), s0, lalrStates);
          changed := true;
        } else if !changed {
          forall s | 0 <= s < nState && s < |lalrPropogations|
            ensures PropagatedFrom(lr1Items, lalrStates, lalrPropogations, s)
          {
            PropagatedFromGrows(i0, lr1Items, lalrStates, lalrPropogations, s);
          }
          forall s | 0 <= s < nState
            ensures Closed1(productions, nonterminals, firstSets, lr0Items, lr1Items, lalrStates[s])
          {
            Closed1Grows(productions, nonterminals, firstSets, a0, lr0Items, i0, lr1Items, lalrStates[s]);
          }
        }
      }
    }

    /** `CalculateLookAheads` as evidently intended: passes of `ClosingPass`
        until one changes nothing. The sets it leaves are at the propagation
        fixpoint and each is closed under LR(1) substitution. */
    method CalculateClosedLookAheads() returns (r: Result<()>)
      requires LalrOk()
      modifies this`lr0Items, this`lr1Items, this`lalrStates
      ensures LalrOk() && old(lr0Items) <= lr0Items && old(lr1Items) <= lr1Items
      ensures StatesGrown(old(lalrStates), lalrStates)
      ensures r.Success? ==>
        Propagated(lr1Items, lalrStates, lalrPropogations) &&
        forall s :: 0 <= s < |lalrStates| ==>
          Closed1(productions, nonterminals, firstSets, lr0Items, lr1Items, lalrStates[s])
      ensures r.Failure? ==>
        r.error == InvalidOperationException ||
        (r.error == ArgumentOutOfRangeException &&
         exists s, j :: 0 <= s < |lalrStates| && j in lalrStates[s] && DeadEdge(lr1Items, lalrPropogations, s, j))
    {
      ghost var bound := |lalrStates| + |LR1Universe(|LR0Universe(productions)|, SymbolCount())|;
      var bChanged := true;
      r := Success(());
      while bChanged
        invariant r.Success? && LalrOk() && old(lr0Items) <= lr0Items && old(lr1Items) <= lr1Items
        invariant StatesGrown(old(lalrStates), lalrStates)
        invariant !bChanged ==>
          Propagated(lr1Items, lalrStates, lalrPropogations) &&
          forall s :: 0 <= s < |lalrStates| ==>
            Closed1(productions, nonterminals, firstSets, lr0Items, lr1Items, lalrStates[s])
        decreases |PairUniverse(bound)| - |Pairs(lalrStates)|, if bChanged then 1 else 0
      {
        ghost var before := lalrStates;
        StatePairsBound();
        r, bChanged := ClosingPass();
        StatesGrownTrans(old(lalrStates), before, lalrStates);
        if r.Failure? {
          return;
        }
        StatePairsBound();
        if bChanged {
          PairsGrow(before, lalrStates);
        }
      }
    }

    /** What resolving the cells of row `s` reads: LR(0) items over listed
        productions, LR(1) items over listed LR(0) items, the state's LR(1)
        items listed, a goto and a goto precedence per symbol, and 32-bit
        precedences. */
    ghost predicate RowInputsOk(s: int)
      reads this`productions, this`lr0Items, this`lr1Items, this`lalrStates, this`lrGotos, this`gotoPrecedence,
        this`productionPrecedence
    {
      (forall i :: 0 <= i < |lr0Items| ==> ValidLR0(productions, lr0Items[i])) &&
      (forall j :: 0 <= j < |lr1Items| ==> 0 <= lr1Items[j].lr0ItemId < |lr0Items|) &&
      0 <= s < |lalrStates| && s < |lrGotos| && |lrGotos[s]| == SymbolCount() &&
      (forall j :: j in lalrStates[s] ==> 0 <= j < |lr1Items|) &&
      s < |gotoPrecedence| && |gotoPrecedence[s]| == SymbolCount() &&
      (forall t :: 0 <= t < |gotoPrecedence[s]| ==> gotoPrecedence[s][t] >= MinInt) &&
      |productionPrecedence| == |productions| &&
      forall p :: 0 <= p < |productionPrecedence| ==> productionPrecedence[p] >= MinInt
    }

    /** Every row of a well-formed automaton can be resolved. */
    lemma RowInputs(s: int)
      requires LalrOk() && PrecedencesOk() && 0 <= s < |lalrStates|
      ensures RowInputsOk(s)
    {
    }

    /** The candidate actions of parse-table cell (`nStateID`, `nToken`),
        `nToken` -1 standing for the end of input: the shift to the goto
        state first when there is one, then each distinct reduce asked for
        by a complete item of the state's LALR set with that lookahead. */
    method CellCandidates(nStateID: int, nToken: int) returns (actions: seq<Action>)
      requires RowInputsOk(nStateID) && -1 <= nToken < SymbolCount()
      ensures Collections.NoDup(actions)
      ensures Collections.Elems(actions) ==
        Candidates(productions, lr0Items, lr1Items, lalrStates[nStateID], lrGotos[nStateID], nToken)
      ensures forall i :: 0 <= i < |actions| ==>
        actions[i].actionType == Shift || (actions[i].actionType == Reduce && 0 <= actions[i].actionParameter < |productions|)
    {
      var P, I0, I1, row := productions, lr0Items, lr1Items, lrGotos[nStateID];
      actions := [];
      if nToken >= 0 && row[nToken] >= 0 {
        actions := [Action(Shift, row[nToken])];
      }
      var q := Collections.Enumerate(lalrStates[nStateID]);
      assert Collections.Elems(q[..0]) == {};
      for m := 0 to |q|
        invariant forall j :: j in Collections.Elems(q) ==> 0 <= j < |I1|
        invariant forall i :: 0 <= i < |I0| ==> ValidLR0(P, I0[i])
        invariant forall j :: 0 <= j < |I1| ==> 0 <= I1[j].lr0ItemId < |I0|
        invariant Collections.NoDup(actions)
        invariant Collections.Elems(actions) == Candidates(P, I0, I1, Collections.Elems(q[..m]), row, nToken)
        invariant forall i :: 0 <= i < |actions| ==>
          actions[i].actionType == Shift || (actions[i].actionType == Reduce && 0 <= actions[i].actionParameter < |P|)
      {
        assert q[m] in Collections.Elems(q);
        actions := AddCandidate(P, I0, I1, row, nToken, Collections.Elems(q[..m]), q[m], actions);
        Collections.ElemsPrefixNext(q, m);
      }
      assert q[..|q|] == q;
    }

    /** The precedence comparison of one cell, given its distinct candidate
        actions and the goto precedence of its shift: the candidates of
        greatest precedence are kept; a lone one is the action; between
        several, the derivation of the precedence group that precedence
        names decides. The group index is the negated precedence, which in
        32-bit arithmetic stays negative for the least precedence, so a tie
        there, like a precedence naming no group, indexes the groups out of
        range. */
    method ChooseAction(actions: seq<Action>, nToken: int, shiftPrecedence: int) returns (r: Result<Action>)
      requires Collections.NoDup(actions)
      requires forall i :: 0 <= i < |actions| ==>
        actions[i].actionType == Shift ||
        (actions[i].actionType == Reduce && 0 <= actions[i].actionParameter < |productionPrecedence|)
      requires shiftPrecedence >= MinInt && forall p :: 0 <= p < |productionPrecedence| ==> productionPrecedence[p] >= MinInt
      ensures r.Success? ==>
        Resolved(r.value, nToken, Collections.Elems(actions), shiftPrecedence, productionPrecedence, grammar.precedenceGroups)
      ensures r.Failure? ==>
        r.error == IndexOutOfRangeException &&
        Unresolvable(Collections.Elems(actions), shiftPrecedence, productionPrecedence, grammar.precedenceGroups)
      ensures Unresolvable(Collections.Elems(actions), shiftPrecedence, productionPrecedence, grammar.precedenceGroups) ==>
        r.Failure?
    {
      ghost var C := Collections.Elems(actions);
      var nMax, important := TopActions(actions, shiftPrecedence, productionPrecedence);
      if |actions| == 0 {
        assert C == {};
        return Success(Action(Error, nToken));
      }
      assert actions[0] in C;
      ghost var I := Important(C, nMax, shiftPrecedence, productionPrecedence);
      assert IsTop(nMax, C, shiftPrecedence, productionPrecedence);
      forall m | IsTop(m, C, shiftPrecedence, productionPrecedence)
        ensures m == nMax
      {
        TopUnique(m, nMax, C, shiftPrecedence, productionPrecedence);
      }
      assert forall a :: a in I <==> a in important;
      Collections.ElemsCard(important);
      assert |I| == |important|;
      ghost var top :| top in C && Rank(top, shiftPrecedence, productionPrecedence) == nMax;
      assert top in I;
      if |important| == 1 {
        assert important[0] in I;
        assert ResolvedAt(important[0], nToken, C, nMax, shiftPrecedence, productionPrecedence, grammar.precedenceGroups);
        return Success(important[0]);
      }
      var shiftAction, reduceActions := SplitByType(important);
      Collections.ElemsCard(reduceActions);
      assert forall a :: a in I ==> a.actionType == Shift || a.actionType == Reduce;
      var nGroup := if nMax == MinInt then MinInt else -nMax;
      if !(0 <= nGroup < |grammar.precedenceGroups|) {
        assert |I| > 1;
        return Failure(IndexOutOfRangeException);
      }
      var derivation := grammar.precedenceGroups[nGroup].derivation;
      if derivation == LeftMost && |reduceActions| == 1 {
        assert reduceActions[0] in Reduces(I);
        r := Success(reduceActions[0]);
      } else if derivation == RightMost && shiftAction.Some? {
        r := Success(shiftAction.value);
      } else {
        var errorType := if derivation == Derivation.None && |reduceActions| == 1 then ErrorSR else ErrorRR;
        r := Success(Action(errorType, nToken));
      }
      assert ResolvedAt(r.value, nToken, C, nMax, shiftPrecedence, productionPrecedence, grammar.precedenceGroups);
    }

    /** Every precedence the table compares fits 32 bits from below: one per
        production, and a goto precedence per state and symbol. */
    ghost predicate PrecedencesOk()
      reads this`productionPrecedence, this`productions, this`gotoPrecedence, this`lalrStates
    {
      |productionPrecedence| == |productions| &&
      (forall p :: 0 <= p < |productionPrecedence| ==> productionPrecedence[p] >= MinInt) &&
      |gotoPrecedence| == |lalrStates| &&
      (forall s :: 0 <= s < |gotoPrecedence| ==> |gotoPrecedence[s]| == SymbolCount()) &&
      forall s, t :: 0 <= s < |gotoPrecedence| && 0 <= t < |gotoPrecedence[s]| ==> gotoPrecedence[s][t] >= MinInt
    }

    /** `cell`, in row `s` and column `c`, is the resolved action for symbol
        `c - 1`, column 0 standing for the end of input. */
    ghost predicate CellOk(s: int, c: int, cell: Action)
      reads this`productions, this`lr0Items, this`lr1Items, this`lalrStates, this`lrGotos, this`gotoPrecedence,
        this`productionPrecedence
    {
      TableCell(productions, lr0Items, lr1Items, lalrStates, lrGotos, gotoPrecedence,
                productionPrecedence, grammar.precedenceGroups, s, c - 1, cell)
    }

    /** One cell of `GenerateParseTable`: gathers the candidates and
        resolves the action the precedence rule gives them. */
    method ResolveCell(nStateID: int, nToken: int) returns (r: Result<Action>)
      requires RowInputsOk(nStateID) && -1 <= nToken < SymbolCount()
      ensures r.Success? ==> CellOk(nStateID, nToken + 1, r.value)
      ensures r.Failure? ==>
        r.error == IndexOutOfRangeException &&
        Unresolvable(Candidates(productions, lr0Items, lr1Items, lalrStates[nStateID], lrGotos[nStateID], nToken),
                     if nToken >= 0 then gotoPrecedence[nStateID][nToken] else MinInt,
                     productionPrecedence, grammar.precedenceGroups)
    {
      var actions := CellCandidates(nStateID, nToken);
      var nShiftPrecedence := if nToken >= 0 then gotoPrecedence[nStateID][nToken] else MinInt;
      r := ChooseAction(actions, nToken, nShiftPrecedence);
    }

    /** `GenerateParseTable`: a table with a row per LALR state and a column
        per symbol after one for the end of input, each cell the action the
        precedence rule resolves from the cell's candidates. A tie the
        precedence groups cannot decide stops it with an index out of
        range. */
    method GenerateParseTable() returns (r: Result<()>)
      requires LalrOk() && PrecedencesOk()
      modifies parseTable
      ensures r.Success? ==>
        parseTable.actions != null && fresh(parseTable.actions) &&
        parseTable.actions.Length0 == |lalrStates| && parseTable.actions.Length1 == SymbolCount() + 1 &&
        forall s, c :: 0 <= s < parseTable.actions.Length0 && 0 <= c < parseTable.actions.Length1 ==>
          CellOk(s, c, parseTable.actions[s, c])
      ensures r.Failure? ==>
        r.error == IndexOutOfRangeException &&
        exists s, t :: 0 <= s < |lalrStates| && -1 <= t < SymbolCount() &&
          Unresolvable(Candidates(productions, lr0Items, lr1Items, lalrStates[s], lrGotos[s], t),
                       if t >= 0 then gotoPrecedence[s][t] else MinInt, productionPrecedence, grammar.precedenceGroups)
    {
      var table := new Action[|lalrStates|, SymbolCount() + 1];
      parseTable.actions := table;
      for nStateID := 0 to |lalrStates|
        invariant parseTable.actions == table
        invariant forall s, c :: 0 <= s < nStateID && 0 <= c < table.Length1 ==> CellOk(s, c, table[s, c])
      {
        RowInputs(nStateID);
        r := FillTableRow(table, nStateID);
        if r.Failure? {
          return;
        }
      }
      return Success(());
    }

    /** One turn of `FillTableRow`'s loop: cell (`nStateID`, `nToken`) is
        resolved and written to its column, and nothing else changes. */
    method WriteCell(table: array2<Action>, nStateID: int, nToken: int) returns (r: Result<Action>)
      requires RowInputsOk(nStateID) && -1 <= nToken < SymbolCount()
      requires table.Length0 == |lalrStates| && table.Length1 == SymbolCount() + 1
      modifies table
      ensures r.Success? ==> CellOk(nStateID, nToken + 1, r.value)
      ensures r.Failure? ==>
        r.error == IndexOutOfRangeException &&
        Unresolvable(Candidates(productions, lr0Items, lr1Items, lalrStates[nStateID], lrGotos[nStateID], nToken),
                     if nToken >= 0 then gotoPrecedence[nStateID][nToken] else MinInt,
                     productionPrecedence, grammar.precedenceGroups)
      ensures forall s, c :: 0 <= s < table.Length0 && 0 <= c < table.Length1 ==>
        table[s, c] == if r.Success? && s == nStateID && c == nToken + 1 then r.value else old(table[s, c])
    {
      r := ResolveCell(nStateID, nToken);
      if r.Success? {
        table[nStateID, nToken + 1] := r.value;
      }
    }

    /** The inner loop of `GenerateParseTable`: row `nStateID`, the end of
        input first, then every symbol. */
    method FillTableRow(table: array2<Action>, nStateID: int) returns (r: Result<()>)
      requires RowInputsOk(nStateID)
      requires table.Length0 == |lalrStates| && table.Length1 == SymbolCount() + 1
      modifies table
      ensures r.Success? ==> forall c :: 0 <= c < table.Length1 ==> CellOk(nStateID, c, table[nStateID, c])
      ensures r.Failure? ==>
        r.error == IndexOutOfRangeException &&
        exists t :: -1 <= t < SymbolCount() &&
          Unresolvable(Candidates(productions, lr0Items, lr1Items, lalrStates[nStateID], lrGotos[nStateID], t),
                       if t >= 0 then gotoPrecedence[nStateID][t] else MinInt, productionPrecedence, grammar.precedenceGroups)
      ensures forall s, c :: 0 <= s < table.Length0 && s != nStateID && 0 <= c < table.Length1 ==>
        table[s, c] == old(table[s, c])
    {
      ghost var P, I0, I1, S, G, GP, PP := productions, lr0Items, lr1Items, lalrStates, lrGotos, gotoPrecedence, productionPrecedence;
      // the cells resolved so far, kept apart from the array
      ghost var row: seq<Action> := [];
      for nToken := -1 to SymbolCount()
        invariant |row| == nToken + 1
        invariant forall c :: 0 <= c < |row| ==> TableCell(P, I0, I1, S, G, GP, PP, grammar.precedenceGroups, nStateID, c - 1, row[c])
        invariant forall c :: 0 <= c < |row| ==> table[nStateID, c] == row[c]
        invariant forall s, c :: 0 <= s < table.Length0 && s != nStateID && 0 <= c < table.Length1 ==>
          table[s, c] == old(table[s, c])
      {
        var cell := WriteCell(table, nStateID, nToken);
        if cell.Failure? {
          return Failure(cell.error);
        }
        RowExtended(nStateID, row, cell.value, P, I0, I1, S, G, GP, PP);
        row := row + [cell.value];
      }
      RowCopied(table, nStateID, row, P, I0, I1, S, G, GP, PP);
      return Success(());
    }

    /** A cell resolved from the automaton and precedences now in the
        parser extends the resolved cells `row` of row `s`. */
    lemma RowExtended(s: int, row: seq<Action>, cell: Action, P: seq<Production>, I0: seq<LR0Item>,
                      I1: seq<LR1Item>, S: seq<set<int>>, G: seq<seq<int>>, GP: seq<seq<int>>, PP: seq<int>)
      requires P == productions && I0 == lr0Items && I1 == lr1Items && S == lalrStates && G == lrGotos
      requires GP == gotoPrecedence && PP == productionPrecedence
      requires forall c :: 0 <= c < |row| ==> TableCell(P, I0, I1, S, G, GP, PP, grammar.precedenceGroups, s, c - 1, row[c])
      requires CellOk(s, |row|, cell)
      ensures forall c :: 0 <= c < |row + [cell]| ==>
        TableCell(P, I0, I1, S, G, GP, PP, grammar.precedenceGroups, s, c - 1, (row + [cell])[c])
    {
    }

    /** Row `s` of `table` holds the cells `row`, resolved from the
        automaton and precedences now in the parser. */
    lemma RowCopied(table: array2<Action>, s: int, row: seq<Action>, P: seq<Production>, I0: seq<LR0Item>,
                    I1: seq<LR1Item>, S: seq<set<int>>, G: seq<seq<int>>, GP: seq<seq<int>>, PP: seq<int>)
      requires P == productions && I0 == lr0Items && I1 == lr1Items && S == lalrStates && G == lrGotos
      requires GP == gotoPrecedence && PP == productionPrecedence
      requires 0 <= s < table.Length0 && |row| == table.Length1
      requires forall c :: 0 <= c < |row| ==> TableCell(P, I0, I1, S, G, GP, PP, grammar.precedenceGroups, s, c - 1, row[c])
      requires forall c :: 0 <= c < |row| ==> table[s, c] == row[c]
      ensures forall c :: 0 <= c < table.Length1 ==> CellOk(s, c, table[s, c])
    {
      forall c | 0 <= c < table.Length1
        ensures CellOk(s, c, table[s, c])
      {
        assert table[s, c] == row[c];
      }
    }

    /** A reduce by production `p` is trimmed: asked for, and the production
        has a single symbol on its right side, a nonterminal. */
    predicate Trimmed(p: int, trimReductions: bool)
      reads this`productions, this`nonterminals
      requires 0 <= p < |productions|
    {
      trimReductions && |productions[p].right| == 1 && productions[p].right[0] in nonterminals
    }

    /** How many tokens a reduce by production `p` pops. */
    function PopCount(p: int, trimReductions: bool): nat
      reads this`productions, this`nonterminals
      requires 0 <= p < |productions|
    {
      if Trimmed(p, trimReductions) then 1 else |productions[p].right|
    }

    /** The table has no shift in its end-of-input column: the driver never
        consumes the end of input. */
    ghost predicate NoShiftOnEnd()
      reads parseTable, parseTable.actions
    {
      parseTable.actions != null && parseTable.actions.Length1 > 0 &&
      forall s :: 0 <= s < parseTable.actions.Length0 ==> parseTable.actions[s, 0].actionType != Shift
    }

    /** What a reduce by production `p` leaves on the stack, when it gets
        that far: the tokens below the popped ones, then a node for the
        production's left side whose state is the left side's symbol id and
        whose content is the trimmed child's content or the popped tokens in
        order. */
    ghost predicate Pushed(stack: seq<Tokens.Token>, p: int, trimReductions: bool, stack': seq<Tokens.Token>)
      reads this`productions, this`nonterminals, stack'
    {
      0 <= p < |productions| &&
      var n := PopCount(p, trimReductions);
      n <= |stack| && |stack'| == |stack| - n + 1 && stack'[..|stack| - n] == stack[..|stack| - n] &&
      var node := stack'[|stack| - n];
      node.id == productions[p].left && node.state == productions[p].left &&
      node.content == (if Trimmed(p, trimReductions) then stack[|stack| - 1].content else Tokens.Children(stack[|stack| - n..]))
    }

    /** The state after a reduce to symbol `left` over the tokens `below`:
        the table's entry for `left` in the row of the state the top token of
        `below` carries (0 when `below` is empty); the parse is accepted when
        the new node `node` is alone on the stack with id 0. A row or column
        out of range is the array's exception. */
    ghost predicate GotoAfterReduce(below: seq<Tokens.Token>, left: int, node: Tokens.Token, r: Result<Outcome>, state': int)
      reads parseTable, parseTable.actions, below
    {
      parseTable.actions != null &&
      var lastState := if |below| > 0 then below[|below| - 1].state else 0;
      if 0 <= lastState < parseTable.actions.Length0 && 0 <= left + 1 < parseTable.actions.Length1 then
        state' == parseTable.actions[lastState, left + 1].actionParameter &&
        r == Success(if |below| == 0 && node.id == 0 then Accepted(node) else Continue)
      else
        r == Failure(IndexOutOfRangeException)
    }

    /** A reduce by production `p` that gets past its pops: the stack it
        leaves and the state and outcome it goes on with. */
    ghost predicate Reduced(stack: seq<Tokens.Token>, p: int, trimReductions: bool,
                            r: Result<Outcome>, stack': seq<Tokens.Token>, state': int)
      reads this`productions, this`nonterminals, parseTable, parseTable.actions, stack, stack'
    {
      Pushed(stack, p, trimReductions, stack') &&
      var n := PopCount(p, trimReductions);
      GotoAfterReduce(stack[..|stack| - n], productions[p].left, stack'[|stack| - n], r, state')
    }

    /** The node a reduce by production `p` pushes, built from the tokens it
        pops: the trimmed child's content, or the popped tokens in order. */
    method NewNode(stack: seq<Tokens.Token>, p: int, trimReductions: bool) returns (node: Tokens.Token)
      requires 0 <= p < |productions| && PopCount(p, trimReductions) <= |stack|
      requires forall t :: t in stack ==> t.Valid()
      ensures fresh(node) && node.Valid() && node.id == productions[p].left
      ensures node.content ==
        if Trimmed(p, trimReductions) then stack[|stack| - 1].content
        else Tokens.Children(stack[|stack| - PopCount(p, trimReductions)..])
      ensures Tokens.Leaves(node) == Tokens.Frontier(stack[|stack| - PopCount(p, trimReductions)..])
    {
      var prod := productions[p];
      var nChildren := |prod.right|;
      if trimReductions && nChildren == 1 && prod.right[0] in nonterminals {
        var child := stack[|stack| - 1];
        assert forall t :: t in Tokens.TokensOf(child.content) ==> t.Valid() by {
          assert child.Valid();
        }
        node := new Tokens.Token(prod.left, child.content);
        Tokens.LeavesOfSameContent(node, child);
        Tokens.FrontierSingle(child);
        assert stack[|stack| - 1..] == [child];
      } else {
        var children := stack[|stack| - nChildren..];
        node := new Tokens.Token(prod.left, Tokens.Children(children));
        Tokens.LeavesOfNode(node);
      }
    }

    /** The pops and the push of a reduce by production `p`: the new node,
        whose state is set to the production's left symbol, replaces the
        tokens it is built from, and the leaves of the stack stay what they
        were. */
    method PushReduction(stack: seq<Tokens.Token>, p: int, trimReductions: bool) returns (stack': seq<Tokens.Token>)
      requires 0 <= p < |productions| && PopCount(p, trimReductions) <= |stack|
      requires forall t :: t in stack ==> t.Valid()
      ensures Pushed(stack, p, trimReductions, stack') && fresh(stack'[|stack'| - 1])
      ensures forall t :: t in stack' ==> t.Valid()
      ensures Tokens.Frontier(stack') == Tokens.Frontier(stack)
    {
      var n := PopCount(p, trimReductions);
      var reduction := NewNode(stack, p, trimReductions);
      var below := stack[..|stack| - n];
      reduction.state := productions[p].left;
      stack' := below + [reduction];
      assert stack == below + stack[|stack| - n..];
      Tokens.FrontierAppend(below, stack[|stack| - n..]);
      Tokens.FrontierAppend(below, [reduction]);
      Tokens.FrontierSingle(reduction);
      assert stack'[..|stack| - n] == below && stack'[|stack| - n] == reduction;
    }

    /** The reduce case of `ParseInput`'s loop, by production `p`. A
        production out of range is the list indexer's exception and popping
        an empty stack the stack's. Otherwise the leaves of the stack stay
        what they were. */
    method ReduceBy(stack: seq<Tokens.Token>, p: int, trimReductions: bool)
      returns (r: Result<Outcome>, stack': seq<Tokens.Token>, state': int)
      requires parseTable.actions != null
      requires forall t :: t in stack ==> t.Valid()
      ensures forall t :: t in stack' ==> t.Valid()
      ensures !(0 <= p < |productions|) ==> r == Failure(ArgumentOutOfRangeException)
      ensures 0 <= p < |productions| && |stack| < PopCount(p, trimReductions) ==> r == Failure(InvalidOperationException)
      ensures 0 <= p < |productions| && PopCount(p, trimReductions) <= |stack| ==>
        Reduced(stack, p, trimReductions, r, stack', state') && fresh(stack'[|stack'| - 1])
      ensures r.Success? ==> Tokens.Frontier(stack') == Tokens.Frontier(stack)
      ensures r.Success? && r.value.Accepted? ==> stack' == [r.value.root] && r.value.root.id == 0
      ensures r.Success? ==> !r.value.Rejected?
    {
      stack', state' := stack, 0;
      if !(0 <= p < |productions|) {
        return Failure(ArgumentOutOfRangeException), stack', state';
      }
      var n := PopCount(p, trimReductions);
      if |stack| < n {
        return Failure(InvalidOperationException), stack', state';
      }
      r, stack', state' := ReduceChecked(stack, p, trimReductions);
    }

    /** A reduce by a listed production over a stack deep enough for its
        pops: the node replaces what it is built from, and the goto decides
        the state and the outcome. */
    method ReduceChecked(stack: seq<Tokens.Token>, p: int, trimReductions: bool)
      returns (r: Result<Outcome>, stack': seq<Tokens.Token>, state': int)
      requires parseTable.actions != null && 0 <= p < |productions| && PopCount(p, trimReductions) <= |stack|
      requires forall t :: t in stack ==> t.Valid()
      ensures forall t :: t in stack' ==> t.Valid()
      ensures Reduced(stack, p, trimReductions, r, stack', state') && fresh(stack'[|stack'| - 1])
      ensures r.Success? ==> Tokens.Frontier(stack') == Tokens.Frontier(stack)
      ensures r.Success? && r.value.Accepted? ==> stack' == [r.value.root] && r.value.root.id == 0
      ensures r.Success? ==> !r.value.Rejected?
    {
      stack' := PushReduction(stack, p, trimReductions);
      r, state' := GotoAfter(stack, p, trimReductions, stack');
    }

    /** The goto half of a reduce: the state of the token left under the
        new node (0 when none is left) selects the row, the production's
        left-hand symbol the column. */
    method GotoAfter(stack: seq<Tokens.Token>, p: int, trimReductions: bool, stack': seq<Tokens.Token>)
      returns (r: Result<Outcome>, state': int)
      requires parseTable.actions != null && Pushed(stack, p, trimReductions, stack')
      ensures Reduced(stack, p, trimReductions, r, stack', state')
      ensures r.Success? && r.value.Accepted? ==> stack' == [r.value.root] && r.value.root.id == 0
      ensures r.Success? ==> !r.value.Rejected?
    {
      var n := PopCount(p, trimReductions);
      var below, reduction := stack[..|stack| - n], stack'[|stack| - n];
      state' := 0;
      var lastState := if |below| > 0 then below[|below| - 1].state else 0;
      if 0 <= lastState < parseTable.actions.Length0 && 0 <= productions[p].left + 1 < parseTable.actions.Length1 {
        state' := parseTable.actions[lastState, productions[p].left + 1].actionParameter;
        r := Success(if |below| == 0 && reduction.id == 0 then Accepted(reduction) else Continue);
        if |below| == 0 && reduction.id == 0 {
          assert stack' == [reduction];
        }
      } else {
        r := Failure(IndexOutOfRangeException);
      }
    }

    /** The table's action for `state` and a lookahead with symbol `id`
        (column `id + 1`), when both indices are in range. */
    ghost function CellAt(state: int, id: int): Option<Action>
      reads parseTable, parseTable.actions
    {
      if parseTable.actions != null && 0 <= state < parseTable.actions.Length0 && 0 <= id + 1 < parseTable.actions.Length1
      then Some(parseTable.actions[state, id + 1]) else Option.None
    }

    /** The shift case of `ParseInput`'s loop: the buffered lookahead
        records the state shifted to, is pushed and is consumed. Shifting a
        token other than the end of input keeps the stack's leaves the
        consumed input. */
    method ShiftLookahead(it: LookaheadIterators.LATokenIterator, stack: seq<Tokens.Token>, target: int)
      returns (stack': seq<Tokens.Token>)
      requires it.Valid() && InputValid(it) && it.lookAhead.Some?
      requires forall t :: t in stack ==> t.Valid()
      modifies it`lookAhead, it.tokens`position, it.lookAhead.value
      ensures it.Valid() && it.lookAhead.None?
      ensures stack' == stack + [old(it.lookAhead.value)] && old(it.lookAhead.value).state == target
      ensures it.Cursor() == old(it.Cursor()) + 1
      ensures forall t :: t in stack' ==> t.Valid()
      ensures old(it.lookAhead.value).id != -1 && old(Yields(stack, it)) ==> Yields(stack', it)
    {
      var token := it.lookAhead.value;
      ghost var c := it.Cursor();
      token.state := target;
      stack' := stack + [token];
      var _ := it.MoveNext();
      if token.id != -1 && old(Yields(stack, it)) {
        assert c < |it.tokens.items| && token == it.tokens.items[c];
        assert it.tokens.items[..c + 1] == it.tokens.items[..c] + [token];
        Tokens.FrontierAppend(stack, [token]);
        Tokens.FrontierAppend(it.tokens.items[..c], [token]);
      }
    }

    /** One turn of `ParseInput`'s loop in state `state`: the table's action
        for the state and the lookahead's symbol decides. A shift moves to its
        state, records it in the lookahead, pushes the lookahead and consumes
        it; a reduce is `ReduceBy`; an error returns the lookahead
        unconsumed; a conflict throws. With a table that never shifts the end
        of input, the stack's leaves stay the consumed input. */
    method Step(it: LookaheadIterators.LATokenIterator, stack: seq<Tokens.Token>, state: int, trimReductions: bool)
      returns (r: Result<Outcome>, stack': seq<Tokens.Token>, state': int)
      requires it.Valid() && InputValid(it) && parseTable.actions != null
      requires forall t :: t in stack ==> t.Valid()
      modifies it`lookAhead, it.tokens`position, it.tokens.items, it.eof
      ensures it.Valid() && forall t :: t in stack' ==> t.Valid()
      ensures CellAt(state, old(it.Next()).id).None? ==> r == Failure(IndexOutOfRangeException)
      ensures CellAt(state, old(it.Next()).id).Some? && CellAt(state, old(it.Next()).id).value.actionType == Shift ==>
        var a := CellAt(state, old(it.Next()).id).value;
        r == Success(Continue) && stack' == stack + [old(it.Next())] && state' == a.actionParameter &&
        old(it.Next()).state == a.actionParameter && it.lookAhead.None? &&
        (old(it.Cursor()) <= |it.tokens.items| ==> it.Cursor() == old(it.Cursor()) + 1)
      ensures CellAt(state, old(it.Next()).id).Some? && CellAt(state, old(it.Next()).id).value.actionType == Reduce ==>
        var p := CellAt(state, old(it.Next()).id).value.actionParameter;
        it.Next() == old(it.Next()) &&
        (!(0 <= p < |productions|) ==> r == Failure(ArgumentOutOfRangeException)) &&
        (0 <= p < |productions| && |stack| < PopCount(p, trimReductions) ==> r == Failure(InvalidOperationException)) &&
        (0 <= p < |productions| && PopCount(p, trimReductions) <= |stack| ==> Reduced(stack, p, trimReductions, r, stack', state'))
      ensures CellAt(state, old(it.Next()).id).Some? && CellAt(state, old(it.Next()).id).value.actionType == Error ==>
        r == Success(Rejected(old(it.Next()))) && it.Next() == old(it.Next())
      ensures (CellAt(state, old(it.Next()).id).Some? &&
               CellAt(state, old(it.Next()).id).value.actionType in {ErrorRR, ErrorSR}) ==>
        r == Failure(InvalidOperationException)
      ensures NoShiftOnEnd() && old(Yields(stack, it)) && r.Success? ==> Yields(stack', it)
      ensures r.Success? && r.value.Accepted? ==> stack' == [r.value.root] && r.value.root.id == 0
      ensures r.Success? && r.value.Rejected? ==> r.value.lookahead == it.Next()
    {
      stack', state' := stack, state;
      var token := it.LookAhead();
      if !(0 <= state < parseTable.actions.Length0 && 0 <= token.id + 1 < parseTable.actions.Length1) {
        return Failure(IndexOutOfRangeException), stack', state';
      }
      var action := parseTable.actions[state, token.id + 1];
      match action.actionType
      case Shift =>
        state' := action.actionParameter;
        if NoShiftOnEnd() {
          assert token.id != -1;
        }
        stack' := ShiftLookahead(it, stack, state');
        r := Success(Continue);
      case Reduce =>
        r, stack', state' := ReduceBy(stack, action.actionParameter, trimReductions);
      case Error =>
        r := Success(Rejected(token));
      case ErrorRR =>
        r := Failure(InvalidOperationException);
      case ErrorSR =>
        r := Failure(InvalidOperationException);
    }

    /** The loop of `ParseInput`: at most `fuel` steps from `state` and
        `stack`, up to the first that accepts, rejects or throws. */
    method Run(it: LookaheadIterators.LATokenIterator, stack: seq<Tokens.Token>, state: int,
               trimReductions: bool, fuel: nat) returns (r: Result<Outcome>)
      requires it.Valid() && InputValid(it) && parseTable.actions != null
      requires forall t :: t in stack ==> t.Valid()
      modifies it`lookAhead, it.tokens`position, it.tokens.items, it.eof
      ensures it.Valid()
      ensures NoShiftOnEnd() && old(Yields(stack, it)) && r.Success? ==>
        it.Cursor() <= |it.tokens.items| &&
        (r.value.Accepted? ==>
           r.value.root.id == 0 && r.value.root.Valid() &&
           Tokens.Leaves(r.value.root) == Tokens.Frontier(it.tokens.items[..it.Cursor()])) &&
        (r.value.Rejected? ==> r.value.lookahead == it.Next())
    {
      ghost var keeps := NoShiftOnEnd() && Yields(stack, it);
      var tokenStack, nState := stack, state;
      r := Success(Continue);
      var k := fuel;
      while k > 0
        invariant it.Valid() && InputValid(it)
        invariant forall t :: t in tokenStack ==> t.Valid()
        invariant keeps ==> NoShiftOnEnd() && Yields(tokenStack, it)
        invariant r == Success(Continue)
        decreases k
      {
        var step, stack', state' := Step(it, tokenStack, nState, trimReductions);
        r := step;
        if step.Failure? || !step.value.Continue? {
          if step.Success? && step.value.Accepted? {
            Tokens.FrontierSingle(step.value.root);
          }
          return;
        }
        tokenStack, nState, k := stack', state', k - 1;
      }
    }

    /** `ParseInput`: runs the table over the input from state 0 with an empty
        stack until a step accepts, rejects or throws, and disposes of the
        lookahead iterator on every way out. `fuel` bounds the number of
        steps, and `Continue` is returned when it runs out. `consumed` counts
        the input tokens shifted. With a table that never shifts the end of
        input, an accepted root has id 0 and the consumed input as its
        leaves, and a rejected lookahead is the first token not consumed, or
        the end-of-input token. */
    method ParseInput(input: Sources.Source<Tokens.Token>, trimReductions: bool, fuel: nat)
      returns (r: Result<Outcome>, ghost consumed: nat)
      requires input.Valid() && input.position == 0
      requires forall t :: t in input.items ==> t.Valid()
      requires parseTable.actions != null
      modifies input`position, input`disposed, input.items
      ensures input.disposed
      ensures NoShiftOnEnd() && r.Success? ==> consumed <= |input.items|
      ensures NoShiftOnEnd() && r.Success? && r.value.Accepted? ==>
        r.value.root.id == 0 && r.value.root.Valid() &&
        Tokens.Leaves(r.value.root) == Tokens.Frontier(input.items[..consumed])
      ensures NoShiftOnEnd() && r.Success? && r.value.Rejected? ==>
        (consumed < |input.items| ==> r.value.lookahead == input.items[consumed]) &&
        (consumed == |input.items| ==>
           r.value.lookahead.id == -1 && r.value.lookahead.content == Tokens.Value(Contents.Text(Utf16.Lit("$"))))
    {
      var it := new LookaheadIterators.LATokenIterator(input);
      assert it.tokens.items[..it.Cursor()] == [];
      assert Yields([], it);
      r := Run(it, [], 0, trimReductions, fuel);
      consumed := it.Cursor();
      it.Dispose();
    }

    /** What the lookahead phases need from the earlier ones: distinct
        listed items, the LR(0) states with their goto rows and kernels, the
        FIRST sets, no LR(1) items or LALR sets yet, and every precedence a
        32-bit value. */
    ghost predicate Lr0Ready()
      reads this`lr0Items, this`lr1Items, this`productions, this`firstSets, this`lr0States, this`lrGotos,
        this`gotoPrecedence, this`productionPrecedence, this`lr0Kernels, this`lalrStates, this`lalrPropogations
    {
      ItemsOk() && Lr1Ok() && FirstOk() && StatesOk() && WellFormed(productions, SymbolCount()) &&
      |lrGotos| == |lr0States| &&
      GotoRows(productions, productionPrecedence, lr0Items, lr0States, lrGotos, gotoPrecedence, SymbolCount(), |lr0States|) &&
      |lr0Kernels| == |lr0States| &&
      (forall s :: 0 <= s < |lr0States| ==> LalrKernel(productions, lr0Items, lr0States[s], lr0Kernels[s])) &&
      lalrStates == [] && lalrPropogations == [] &&
      Bits32(productionPrecedence, gotoPrecedence, |productions|, |lr0States|, SymbolCount())
    }

    /** The grammar phases of the constructor: the production table with
        a 32-bit precedence per production, and the symbol partition. */
    method BuildProductions()
      requires productions == [] && productionPrecedence == [] && productionDerivation == []
      requires terminals == {} && nonterminals == {}
      requires |grammar.precedenceGroups| <= 0x8000_0000
      modifies this`productions, this`productionPrecedence, this`productionDerivation, this`terminals,
        this`nonterminals
      ensures productions == AllProductions(grammar.precedenceGroups)
      ensures |productionPrecedence| == |productions|
      ensures forall p :: 0 <= p < |productionPrecedence| ==> productionPrecedence[p] >= MinInt
      ensures SymbolsOk()
    {
      PopulateProductions();
      ProductionTable(grammar.precedenceGroups);
      PrecedencesBounded(grammar.precedenceGroups);
      InitSymbols();
    }

    /** The LR(0) phase: the automaton with its goto rows, whose
        precedences stay 32-bit values. */
    method BuildLr0() returns (r: Result<()>)
      requires ItemsOk() && lr0States == [] && lrGotos == [] && gotoPrecedence == []
      requires |productionPrecedence| == |productions|
      requires forall p :: 0 <= p < |productionPrecedence| ==> productionPrecedence[p] >= MinInt
      modifies this`lr0Items, this`lr0States, this`lrGotos, this`gotoPrecedence
      ensures r.Failure? <==> productions == [] && SymbolCount() > 0
      ensures r.Failure? ==> r.error == ArgumentOutOfRangeException
      ensures r.Success? && productions != [] ==>
        ItemsOk() && StatesOk() && |lrGotos| == |lr0States| &&
        GotoRows(productions, productionPrecedence, lr0Items, lr0States, lrGotos, gotoPrecedence, SymbolCount(), |lr0States|) &&
        Bits32(productionPrecedence, gotoPrecedence, |productions|, |lr0States|, SymbolCount())
    {
      r := GenerateLR0Items();
      if r.Success? && productions != [] {
        GotoPrecedencesBounded(productions, productionPrecedence, lr0Items, lr0States, lrGotos, gotoPrecedence, SymbolCount());
      }
    }

    /** The first phases of the constructor, up to the kernels: the
        production table, the symbol partition, the LR(0) automaton, the
        FIRST sets and the kernels. Only an empty production list fails:
        in the LR(0) phase when there are symbols, and otherwise when the
        kernels are taken, where the start item's production is read. */
    method BuildAutomaton() returns (r: Result<()>)
      requires productions == [] && productionPrecedence == [] && productionDerivation == []
      requires terminals == {} && nonterminals == {} && |firstSets| == SymbolCount()
      requires lr0Items == [] && lr1Items == [] && lr0States == [] && lr0Kernels == [] && lalrStates == []
      requires lrGotos == [] && gotoPrecedence == [] && lalrPropogations == []
      requires WellFormed(AllProductions(grammar.precedenceGroups), SymbolCount())
      requires |grammar.precedenceGroups| <= 0x8000_0000
      modifies this`productions, this`productionPrecedence, this`productionDerivation, this`terminals,
        this`nonterminals, this`lr0Items, this`lr0States, this`lrGotos, this`gotoPrecedence, this`firstSets,
        this`lr0Kernels
      ensures productions == AllProductions(grammar.precedenceGroups)
      ensures r.Failure? <==> productions == []
      ensures r.Failure? ==> r.error == ArgumentOutOfRangeException
      ensures r.Success? ==> Lr0Ready()
    {
      BuildProductions();
      r := BuildLr0();
      if r.Failure? {
        return;
      }
      if productions == [] {
        // no symbols either: the FIRST sets are an empty array, and
        // `ConvertLR0ItemsToKernels` reads the left side of production 0
        return Failure(ArgumentOutOfRangeException);
      }
      FirstSetsAndKernels();
    }

    /** The second half of the LR(0) phase: the FIRST sets, then the
        kernels of the LR(0) states. */
    method FirstSetsAndKernels()
      requires SymbolsOk() && WellFormed(productions, SymbolCount()) && |firstSets| == SymbolCount()
      requires ItemsOk() && StatesOk() && lr1Items == [] && lr0Kernels == [] && lalrStates == [] && lalrPropogations == []
      requires |lrGotos| == |lr0States|
      requires GotoRows(productions, productionPrecedence, lr0Items, lr0States, lrGotos, gotoPrecedence, SymbolCount(), |lr0States|)
      requires Bits32(productionPrecedence, gotoPrecedence, |productions|, |lr0States|, SymbolCount())
      modifies this`firstSets, this`lr0Kernels
      ensures Lr0Ready()
    {
      ComputeFirstSets();
      FirstBounded();
      ConvertLR0ItemsToKernels();
      assert ItemsOk() && StatesOk() && FirstOk() && Lr1Ok();
    }

    /** The lookahead phases: the spontaneous lookaheads and propagation
        edges, then the closing propagation fixpoint. */
    method BuildLookaheads() returns (r: Result<()>)
      requires Lr0Ready()
      modifies this`lr0Items, this`lr1Items, this`lalrStates, this`lalrPropogations
      ensures r.Failure? ==> r.error in {ArgumentOutOfRangeException, InvalidOperationException}
      ensures r.Success? ==>
        LalrOk() && PrecedencesOk() && Propagated(lr1Items, lalrStates, lalrPropogations) &&
        forall s :: 0 <= s < |lalrStates| ==> Closed1(productions, nonterminals, firstSets, lr0Items, lr1Items, lalrStates[s])
    {
      var init, closures := InitLALRTables();
      if init.Failure? {
        return init;
      }
      r := CalculateClosedLookAheads();
    }

    /** The lookahead phases as the constructor runs them: the spontaneous
        lookaheads and propagation edges, then `CalculateLookAheads`, whose
        fixpoint is propagated but may leave sets unclosed. */
    method BuildLookaheadsAsWritten() returns (r: Result<()>)
      requires Lr0Ready()
      modifies this`lr0Items, this`lr1Items, this`lalrStates, this`lalrPropogations
      ensures r.Failure? ==> r.error in {ArgumentOutOfRangeException, InvalidOperationException}
      ensures r.Success? ==> LalrOk() && PrecedencesOk() && Propagated(lr1Items, lalrStates, lalrPropogations)
    {
      var init, closures := InitLALRTables();
      if init.Failure? {
        return init;
      }
      r := CalculateLookAheads();
    }

    /** The last phase: the parse table, which never shifts the end of
        input. */
    method BuildTable() returns (r: Result<()>)
      requires LalrOk() && PrecedencesOk()
      modifies parseTable
      ensures r.Failure? ==> r.error == IndexOutOfRangeException
      ensures r.Success? ==>
        parseTable.actions != null && fresh(parseTable.actions) && NoShiftOnEnd() &&
        parseTable.actions.Length0 == |lalrStates| && parseTable.actions.Length1 == SymbolCount() + 1 &&
        forall s, c :: 0 <= s < parseTable.actions.Length0 && 0 <= c < parseTable.actions.Length1 ==>
          CellOk(s, c, parseTable.actions[s, c])
    {
      r := GenerateParseTable();
      if r.Success? {
        forall s | 0 <= s < parseTable.actions.Length0
          ensures parseTable.actions[s, 0].actionType != Shift
        {
          assert CellOk(s, 0, parseTable.actions[s, 0]);
          if parseTable.actions[s, 0].actionType == Shift {
            TableCellCandidate(productions, lr0Items, lr1Items, lalrStates, lrGotos, gotoPrecedence,
                               productionPrecedence, grammar.precedenceGroups, s, -1, parseTable.actions[s, 0]);
          }
        }
      }
    }
  }

  /** The first pass of the precedence comparison: the greatest precedence
      among the candidates and the candidates that have it, in order. */
  method TopActions(actions: seq<Action>, shiftPrecedence: int, precedence: seq<int>)
    returns (nMax: int, important: seq<Action>)
    requires Collections.NoDup(actions)
    requires shiftPrecedence >= MinInt && forall p :: 0 <= p < |precedence| ==> precedence[p] >= MinInt
    ensures nMax >= MinInt && (|actions| == 0 ==> nMax == MinInt)
    ensures |actions| > 0 ==> IsTop(nMax, Collections.Elems(actions), shiftPrecedence, precedence)
    ensures Collections.NoDup(important)
    ensures Collections.Elems(important) == Important(Collections.Elems(actions), nMax, shiftPrecedence, precedence)
  {
    nMax := MinInt;
    important := [];
    ghost var w := 0;
    for k := 0 to |actions|
      invariant nMax >= MinInt && (k == 0 ==> nMax == MinInt)
      invariant forall i :: 0 <= i < k ==> Rank(actions[i], shiftPrecedence, precedence) <= nMax
      invariant k > 0 ==> 0 <= w < k && Rank(actions[w], shiftPrecedence, precedence) == nMax
      invariant forall a :: a in important <==> a in actions[..k] && Rank(a, shiftPrecedence, precedence) == nMax
      invariant Collections.NoDup(important)
    {
      var a := actions[k];
      var p := Rank(a, shiftPrecedence, precedence);
      assert actions[..k + 1] == actions[..k] + [a];
      if p > nMax {
        nMax := p;
        important := [a];
        w := k;
      } else if p == nMax {
        assert a !in actions[..k];
        important := important + [a];
        w := k;
      }
    }
    assert actions[..|actions|] == actions;
    if |actions| > 0 {
      assert actions[w] in Collections.Elems(actions);
    }
  }

  /** The second pass: the tied candidates split into their reduces and
      the last of the others, which in a cell is its one shift. */
  method SplitByType(important: seq<Action>) returns (shiftAction: Option<Action>, reduceActions: seq<Action>)
    requires Collections.NoDup(important)
    ensures Collections.NoDup(reduceActions)
    ensures Collections.Elems(reduceActions) == Reduces(Collections.Elems(important))
    ensures shiftAction.Some? <==> exists a :: a in important && a.actionType != Reduce
    ensures shiftAction.Some? ==> shiftAction.value in important && shiftAction.value.actionType != Reduce
  {
    shiftAction := Option.None;
    reduceActions := [];
    for m := 0 to |important|
      invariant forall a :: a in reduceActions <==> a in important[..m] && a.actionType == Reduce
      invariant Collections.NoDup(reduceActions)
      invariant shiftAction.Some? <==> exists i :: 0 <= i < m && important[i].actionType != Reduce
      invariant shiftAction.Some? ==> shiftAction.value in important && shiftAction.value.actionType != Reduce
    {
      var a := important[m];
      assert important[..m + 1] == important[..m] + [a];
      if a.actionType == Reduce {
        assert a !in important[..m];
        reduceActions := reduceActions + [a];
      } else {
        shiftAction := Some(a);
      }
    }
    assert important[..|important|] == important;
  }

  /** What the FIRST sets `fs` keep true while they are computed over `n`
      symbols with terminals `T`: one set per symbol; a terminal's set is
      itself; the sets hold terminals and -1 only; and -1 is in the set of
      exactly the symbols with an empty production. */
  ghost predicate FirstInvOf(fs: seq<set<int>>, T: set<int>, P: seq<Production>, n: int) {
    |fs| == n &&
    (forall t :: t in T ==> 0 <= t < |fs| && fs[t] == {t}) &&
    (forall x, b :: 0 <= x < |fs| && b in fs[x] ==> b == -1 || b in T) &&
    (forall x :: 0 <= x < |fs| ==> (-1 in fs[x] <==> HasEmpty(P, x)))
  }

  /** Passing FIRST of one symbol, less the empty marker, on to a
      nonterminal keeps the invariant. */
  lemma FirstInvAdd(fs: seq<set<int>>, fs': seq<set<int>>, T: set<int>, P: seq<Production>, n: int,
                    left: int, tok: int)
    requires FirstInvOf(fs, T, P, n) && 0 <= left < |fs| && 0 <= tok < |fs| && left !in T
    requires fs' == fs[left := fs[left] + (fs[tok] - {-1})]
    ensures FirstInvOf(fs', T, P, n)
  {
  }

  /** Every precedence is a 32-bit value: one per production, and one per
      state and symbol in the goto-precedence rows. */
  ghost predicate Bits32(precedence: seq<int>, gotoPrec: seq<seq<int>>, np: int, ns: int, n: int) {
    |precedence| == np &&
    (forall p :: 0 <= p < |precedence| ==> precedence[p] >= MinInt) &&
    |gotoPrec| == ns &&
    (forall s :: 0 <= s < |gotoPrec| ==> |gotoPrec[s]| == n) &&
    forall s, t :: 0 <= s < |gotoPrec| && 0 <= t < |gotoPrec[s]| ==> gotoPrec[s][t] >= MinInt
  }

  /** One LR(1) item of the state's set considered for a cell: a complete
      item whose lookahead is the cell's token adds the reduce it asks for,
      unless that reduce is listed already. */
  method AddCandidate(P: seq<Production>, I0: seq<LR0Item>, I1: seq<LR1Item>, row: seq<int>, tok: int,
                      ghost S: set<int>, j: int, actions: seq<Action>) returns (actions': seq<Action>)
    requires 0 <= j < |I1| && 0 <= I1[j].lr0ItemId < |I0| && ValidLR0(P, I0[I1[j].lr0ItemId])
    requires Collections.NoDup(actions) && Collections.Elems(actions) == Candidates(P, I0, I1, S, row, tok)
    requires forall i :: 0 <= i < |actions| ==>
      actions[i].actionType == Shift || (actions[i].actionType == Reduce && 0 <= actions[i].actionParameter < |P|)
    ensures Collections.NoDup(actions') && Collections.Elems(actions') == Candidates(P, I0, I1, S + {j}, row, tok)
    ensures forall i :: 0 <= i < |actions'| ==>
      actions'[i].actionType == Shift || (actions'[i].actionType == Reduce && 0 <= actions'[i].actionParameter < |P|)
  {
    var lr1Item := I1[j];
    var lr0Item := I0[lr1Item.lr0ItemId];
    CandidatesAdd(P, I0, I1, S, row, tok, j);
    actions' := actions;
    if lr0Item.position == |P[lr0Item.production].right| && lr1Item.lookAhead == tok {
      var action := Action(Reduce, lr0Item.production);
      if action !in actions {
        actions' := actions + [action];
      }
    }
  }

  /** Group `k` gives precedence `-k`, a 32-bit value when there are at most
      2^31 groups. */
  lemma PrecedencesBounded(groups: seq<PrecedenceGroup>)
    requires |groups| <= 0x8000_0000
    ensures forall i :: 0 <= i < |Precedences(groups)| ==> MinInt <= Precedences(groups)[i] <= 0
  {
    forall i | 0 <= i < |Precedences(groups)|
      ensures MinInt <= Precedences(groups)[i] <= 0
    {
      GroupOfEntry(groups, i);
    }
  }

  /** The precedence a goto carries is at least where its search starts,
      `Int32.MinValue`. */
  lemma GotoPrecedencesBounded(P: seq<Production>, precedence: seq<int>, items: seq<LR0Item>, states: seq<set<int>>,
                               gotos: seq<seq<int>>, gotoPrec: seq<seq<int>>, n: int)
    requires |gotoPrec| == |states| && GotoRows(P, precedence, items, states, gotos, gotoPrec, n, |states|)
    ensures forall s :: 0 <= s < |gotoPrec| ==> |gotoPrec[s]| == n
    ensures forall s, t :: 0 <= s < |gotoPrec| && 0 <= t < |gotoPrec[s]| ==> gotoPrec[s][t] >= MinInt
  {
    forall s | 0 <= s < |gotoPrec|
      ensures |gotoPrec[s]| == n
    {
      assert GotoRow(P, precedence, items, states, gotos, gotoPrec, n, s, n);
    }
    forall s, t | 0 <= s < |gotoPrec| && 0 <= t < |gotoPrec[s]|
      ensures gotoPrec[s][t] >= MinInt
    {
      assert GotoRow(P, precedence, items, states, gotos, gotoPrec, n, s, n);
      assert GotoOf(P, precedence, items, states, s, t, MinInt, gotos[s][t], gotoPrec[s][t]);
    }
  }

  /** `Parser(Grammar)` as written: the constructor's phases in order,
      with the lookaheads of `CalculateLookAheads`. A phase that throws
      stops the construction with its exception, an empty production list
      first of all. The parser built has propagated LALR(1) sets, which may
      be unclosed (see `LalrSpecs.UnclosedAtFixpoint`), and a parse table
      whose every cell is the action the precedence rule resolves from
      them, with no shift on the end of input. */
  method BuildAsWritten(grammar: Grammar) returns (r: Result<Parser>)
    requires WellFormed(AllProductions(grammar.precedenceGroups), |grammar.symbolNames|)
    requires |grammar.precedenceGroups| <= 0x8000_0000
    ensures AllProductions(grammar.precedenceGroups) == [] ==> r == Failure(ArgumentOutOfRangeException)
    ensures r.Failure? ==>
      r.error in {ArgumentOutOfRangeException, InvalidOperationException, IndexOutOfRangeException}
    ensures r.Success? ==>
      var p := r.value;
      fresh(p) && p.grammar == grammar && p.productions == AllProductions(grammar.precedenceGroups) &&
      p.LalrOk() && p.PrecedencesOk() && p.NoShiftOnEnd() &&
      Propagated(p.lr1Items, p.lalrStates, p.lalrPropogations) &&
      p.parseTable.actions.Length0 == |p.lalrStates| && p.parseTable.actions.Length1 == p.SymbolCount() + 1 &&
      forall s, c :: 0 <= s < p.parseTable.actions.Length0 && 0 <= c < p.parseTable.actions.Length1 ==>
        p.CellOk(s, c, p.parseTable.actions[s, c])
  {
    var p := new Parser(grammar);
    var phase := p.BuildAutomaton();
    if phase.Failure? {
      return Failure(phase.error);
    }
    phase := p.BuildLookaheadsAsWritten();
    if phase.Failure? {
      return Failure(phase.error);
    }
    phase := p.BuildTable();
    if phase.Failure? {
      return Failure(phase.error);
    }
    return Success(p);
  }

  /** `Parser(Grammar)` with the lookahead defect corrected: the same
      phases, over a grammar whose productions name listed symbols only,
      but the lookaheads are computed by the closing fixpoint
      (`CalculateClosedLookAheads`) in place of `CalculateLookAheads`. A phase that
      throws stops the construction with its exception; an empty production
      list is the first such case. The parser built has a parse table whose
      every cell is the action the precedence rule resolves from the closed
      LALR(1) sets, with no shift on the end of input. */
  method Build(grammar: Grammar) returns (r: Result<Parser>)
    requires WellFormed(AllProductions(grammar.precedenceGroups), |grammar.symbolNames|)
    requires |grammar.precedenceGroups| <= 0x8000_0000
    ensures AllProductions(grammar.precedenceGroups) == [] ==> r == Failure(ArgumentOutOfRangeException)
    ensures r.Failure? ==>
      r.error in {ArgumentOutOfRangeException, InvalidOperationException, IndexOutOfRangeException}
    ensures r.Success? ==>
      var p := r.value;
      fresh(p) && p.grammar == grammar && p.productions == AllProductions(grammar.precedenceGroups) &&
      p.LalrOk() && p.PrecedencesOk() && p.NoShiftOnEnd() &&
      Propagated(p.lr1Items, p.lalrStates, p.lalrPropogations) &&
      (forall s :: 0 <= s < |p.lalrStates| ==>
         Closed1(p.productions, p.nonterminals, p.firstSets, p.lr0Items, p.lr1Items, p.lalrStates[s])) &&
      p.parseTable.actions.Length0 == |p.lalrStates| && p.parseTable.actions.Length1 == p.SymbolCount() + 1 &&
      forall s, c :: 0 <= s < p.parseTable.actions.Length0 && 0 <= c < p.parseTable.actions.Length1 ==>
        p.CellOk(s, c, p.parseTable.actions[s, c])
  {
    var p := new Parser(grammar);
    var phase := p.BuildAutomaton();
    if phase.Failure? {
      return Failure(phase.error);
    }
    phase := p.BuildLookaheads();
    if phase.Failure? {
      return Failure(phase.error);
    }
    phase := p.BuildTable();
    if phase.Failure? {
      return Failure(phase.error);
    }
    return Success(p);
  }
}
