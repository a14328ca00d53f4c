/** What the lookahead phases compute, stated over plain values: the
    spontaneous lookaheads and propagation edges each kernel's closure
    seeds, and the propagation fixpoint over the LALR(1) item sets
    (the kernel/propagation construction of section 4.7.5 of Aho, Lam,
    Sethi and Ullman, "Compilers", second edition). */
module LalrSpecs {
  import opened Grammars
  import opened LRItems
  import opened ParserSpecs
  import opened ParseTables

  /** Some id in `S` names LR(1) item `x`. */
  ghost predicate Holds1(items1: seq<LR1Item>, S: set<int>, x: LR1Item) {
    exists m :: m in S && 0 <= m < |items1| && items1[m] == x
  }

  /** Each set only grows; there are as many sets after as before. */
  ghost predicate StatesGrown(states: seq<set<int>>, states': seq<set<int>>) {
    |states| == |states'| && forall s :: 0 <= s < |states| ==> states[s] <= states'[s]
  }

  /** Each state's propagation lists only grow at their end, and no source
      item loses its list. */
  ghost predicate PropsGrown(props: seq<map<int, seq<LALRPropogation>>>, props': seq<map<int, seq<LALRPropogation>>>) {
    |props| <= |props'| &&
    forall s, id :: 0 <= s < |props| && id in props[s] ==> id in props'[s] && props[s][id] <= props'[s][id]
  }

  /** Growth of the sets composes. */
  lemma StatesGrownTrans(states: seq<set<int>>, states': seq<set<int>>, states'': seq<set<int>>)
    requires StatesGrown(states, states') && StatesGrown(states', states'')
    ensures StatesGrown(states, states'')
  {
  }

  /** Growth of the propagation table composes. */
  lemma PropsGrownTrans(props: seq<map<int, seq<LALRPropogation>>>, props': seq<map<int, seq<LALRPropogation>>>,
                        props'': seq<map<int, seq<LALRPropogation>>>)
    requires PropsGrown(props, props') && PropsGrown(props', props'')
    ensures PropsGrown(props, props'')
  {
  }

  /** The shape the lookahead phases keep: a goto row per LALR set, of a
      target (or -1) per symbol; a kernel per LALR set, of item ids below
      `ni`; LALR sets of LR(1) item ids below `n1`; and a propagation table
      covering no more states than there are, its edges naming item ids
      below `ni` and a state (or -1, a missing goto). */
  ghost predicate LalrTables(gotos: seq<seq<int>>, kernels: seq<set<int>>, states: seq<set<int>>,
                             props: seq<map<int, seq<LALRPropogation>>>, ni: int, n1: int, n: int) {
    |gotos| == |states| && |kernels| == |states| &&
    (forall s :: 0 <= s < |gotos| ==> |gotos[s]| == n) &&
    (forall s, t :: 0 <= s < |gotos| && 0 <= t < |gotos[s]| ==> gotos[s][t] < |states|) &&
    (forall s, i :: 0 <= s < |kernels| && i in kernels[s] ==> 0 <= i < ni) &&
    (forall s, j :: 0 <= s < |states| && j in states[s] ==> 0 <= j < n1) &&
    |props| <= |states| &&
    forall s, id, k :: 0 <= s < |props| && id in props[s] && 0 <= k < |props[s][id]| ==>
      0 <= props[s][id][k].lr0TargetItem < ni && props[s][id][k].lr0TargetState < |states|
  }

  /** The goto rows of the LR(0) automaton, one kernel of listed items per
      state and one empty LALR set per state, with no propagation table
      yet, have the shape. */
  lemma LalrTablesInit(P: seq<Production>, precedence: seq<int>, items: seq<LR0Item>, lr0States: seq<set<int>>,
                       gotos: seq<seq<int>>, gotoPrec: seq<seq<int>>, kernels: seq<set<int>>, states: seq<set<int>>,
                       n1: int, n: int)
    requires |gotos| == |lr0States| && GotoRows(P, precedence, items, lr0States, gotos, gotoPrec, n, |lr0States|)
    requires |kernels| == |lr0States| && forall s, i :: 0 <= s < |kernels| && i in kernels[s] ==> 0 <= i < |items|
    requires |states| == |lr0States| && forall s :: 0 <= s < |states| ==> states[s] == {}
    ensures LalrTables(gotos, kernels, states, [], |items|, n1, n)
  {
    forall s | 0 <= s < |gotos| ensures |gotos[s]| == n {
      assert GotoRow(P, precedence, items, lr0States, gotos, gotoPrec, n, s, n);
    }
    forall s, t | 0 <= s < |gotos| && 0 <= t < |gotos[s]| ensures gotos[s][t] < |states| {
      assert GotoRow(P, precedence, items, lr0States, gotos, gotoPrec, n, s, n);
      assert GotoOf(P, precedence, items, lr0States, s, t, MinInt, gotos[s][t], gotoPrec[s][t]);
    }
  }

  /** The shape survives longer item lists. */
  lemma LalrTablesGrow(gotos: seq<seq<int>>, kernels: seq<set<int>>, states: seq<set<int>>,
                       props: seq<map<int, seq<LALRPropogation>>>, ni: int, n1: int, ni': int, n1': int, n: int)
    requires LalrTables(gotos, kernels, states, props, ni, n1, n) && ni <= ni' && n1 <= n1'
    ensures LalrTables(gotos, kernels, states, props, ni', n1', n)
  {
  }

  /** The shape survives adding an interned LR(1) item to one LALR set. */
  lemma LalrTablesAdd(gotos: seq<seq<int>>, kernels: seq<set<int>>, states: seq<set<int>>,
                      props: seq<map<int, seq<LALRPropogation>>>, ni: int, n1: int, n: int, s: int, j: int)
    requires LalrTables(gotos, kernels, states, props, ni, n1, n) && 0 <= s < |states| && 0 <= j < n1
    ensures LalrTables(gotos, kernels, states[s := states[s] + {j}], props, ni, n1, n)
    ensures StatesGrown(states, states[s := states[s] + {j}])
  {
  }

  /** The shape survives replacing one LALR set by a larger one of
      interned LR(1) item ids. */
  lemma LalrTablesReplace(gotos: seq<seq<int>>, kernels: seq<set<int>>, states: seq<set<int>>,
                          props: seq<map<int, seq<LALRPropogation>>>, ni: int, n1: int, n: int, s: int, S: set<int>)
    requires LalrTables(gotos, kernels, states, props, ni, n1, n) && 0 <= s < |states|
    requires states[s] <= S && forall j :: j in S ==> 0 <= j < n1
    ensures LalrTables(gotos, kernels, states[s := S], props, ni, n1, n)
    ensures StatesGrown(states, states[s := S])
  {
  }

  /** The propagation table after recording edge `e` from item `id` of
      state `s`: empty maps pad the table up to state `s`, and `e` goes at
      the end of the item's list, a new list when the item had none. */
  function WithEdge(props: seq<map<int, seq<LALRPropogation>>>, s: nat, id: int, e: LALRPropogation)
    : seq<map<int, seq<LALRPropogation>>>
  {
    var padded: seq<map<int, seq<LALRPropogation>>> :=
      if s < |props| then props else props + seq(s + 1 - |props|, _ => map[]);
    var list := if id in padded[s] then padded[s][id] else [];
    padded[s := padded[s][id := list + [e]]]
  }

  /** Recording an edge keeps the other entries, only lengthens the table
      and the item's list, puts the edge in that list, and keeps the shape
      when the edge names an interned item. */
  lemma WithEdgeFacts(gotos: seq<seq<int>>, kernels: seq<set<int>>, states: seq<set<int>>,
                      props: seq<map<int, seq<LALRPropogation>>>, ni: int, n1: int, n: int,
                      s: nat, id: int, e: LALRPropogation)
    requires LalrTables(gotos, kernels, states, props, ni, n1, n) && s < |states|
    requires 0 <= e.lr0TargetItem < ni && e.lr0TargetState < |states|
    ensures LalrTables(gotos, kernels, states, WithEdge(props, s, id, e), ni, n1, n)
    ensures PropsGrown(props, WithEdge(props, s, id, e))
    ensures s < |WithEdge(props, s, id, e)| && id in WithEdge(props, s, id, e)[s] && e in WithEdge(props, s, id, e)[s][id]
  {
    var props': seq<map<int, seq<LALRPropogation>>> := WithEdge(props, s, id, e);
    var padded: seq<map<int, seq<LALRPropogation>>> := if s < |props| then props else props + seq(s + 1 - |props|, _ => map[]);
    var list := if id in padded[s] then padded[s][id] else [];
    assert props'[s][id] == list + [e];
    assert props'[s][id][|list|] == e;
    forall t, id', k | 0 <= t < |props'| && id' in props'[t] && 0 <= k < |props'[t][id']|
      ensures 0 <= props'[t][id'][k].lr0TargetItem < ni && props'[t][id'][k].lr0TargetState < |states|
    {
      if t == s && id' == id {
        if k < |list| {
          assert props'[t][id'][k] == list[k];
        }
      }
    }
  }

  /** LR(1) item `j` of the closure of state `s`'s kernel has passed its
      lookahead on: when its dot stands before a symbol, the successor item
      is interned and either, for lookahead -1, an edge from the item to
      the successor in the goto state is recorded, or, for a symbol
      lookahead, the successor with that lookahead is in the goto state's
      set. */
  ghost predicate SeededNext(P: seq<Production>, items: seq<LR0Item>, items1: seq<LR1Item>, states: seq<set<int>>,
                             props: seq<map<int, seq<LALRPropogation>>>, gotos: seq<seq<int>>, s: int, j: int) {
    0 <= s < |states| && 0 <= j < |items1| && 0 <= items1[j].lr0ItemId < |items| &&
    ValidLR0(P, items[items1[j].lr0ItemId]) &&
    var id := items1[j].lr0ItemId;
    var la := items1[j].lookAhead;
    var it := items[id];
    (it.position < |P[it.production].right| ==>
       s < |gotos| && 0 <= P[it.production].right[it.position] < |gotos[s]| &&
       var g := gotos[s][P[it.production].right[it.position]];
       exists k :: 0 <= k < |items| && items[k] == LR0Item(it.production, it.position + 1) &&
         if la == -1 then s < |props| && id in props[s] && LALRPropogation(k, g) in props[s][id]
         else 0 <= g < |states| && Holds1(items1, states[g], LR1Item(k, la)))
  }

  /** LR(1) item `j` has a symbol lookahead and its dot before a symbol
      for which state `s` has no goto: seeding it indexes the state list
      with -1. */
  ghost predicate MissingGoto(P: seq<Production>, items: seq<LR0Item>, items1: seq<LR1Item>, gotos: seq<seq<int>>,
                              s: int, j: int) {
    0 <= j < |items1| && items1[j].lookAhead != -1 && 0 <= items1[j].lr0ItemId < |items| && 0 <= s < |gotos| &&
    exists tok :: 0 <= tok < |gotos[s]| && DotBefore(P, items[items1[j].lr0ItemId], tok) && gotos[s][tok] < 0
  }

  /** An item whose dot is at the end passes nothing on. */
  lemma SeededAtEnd(P: seq<Production>, items: seq<LR0Item>, items1: seq<LR1Item>, states: seq<set<int>>,
                    props: seq<map<int, seq<LALRPropogation>>>, gotos: seq<seq<int>>, s: int, j: int)
    requires 0 <= s < |states| && 0 <= j < |items1| && 0 <= items1[j].lr0ItemId < |items|
    requires ValidLR0(P, items[items1[j].lr0ItemId]) && Complete(P, items[items1[j].lr0ItemId])
    ensures SeededNext(P, items, items1, states, props, gotos, s, j)
  {
  }

  /** An item with lookahead -1 whose edge to successor `k` in the goto
      state is recorded has passed its lookahead on. */
  lemma SeededByEdge(P: seq<Production>, items: seq<LR0Item>, items1: seq<LR1Item>, states: seq<set<int>>,
                     props: seq<map<int, seq<LALRPropogation>>>, gotos: seq<seq<int>>, s: int, j: int, tok: int, k: int)
    requires 0 <= s < |states| && 0 <= j < |items1| && 0 <= items1[j].lr0ItemId < |items|
    requires DotBefore(P, items[items1[j].lr0ItemId], tok) && items1[j].lookAhead == -1
    requires s < |gotos| && 0 <= tok < |gotos[s]|
    requires 0 <= k < |items| && items[k] == Advance(items[items1[j].lr0ItemId])
    requires s < |props| && items1[j].lr0ItemId in props[s] && LALRPropogation(k, gotos[s][tok]) in props[s][items1[j].lr0ItemId]
    ensures SeededNext(P, items, items1, states, props, gotos, s, j)
  {
  }

  /** An item with a symbol lookahead whose successor `k` with that
      lookahead is in the goto state's set has passed its lookahead on. */
  lemma SeededBySymbol(P: seq<Production>, items: seq<LR0Item>, items1: seq<LR1Item>, states: seq<set<int>>,
                       props: seq<map<int, seq<LALRPropogation>>>, gotos: seq<seq<int>>, s: int, j: int, tok: int, k: int)
    requires 0 <= s < |states| && 0 <= j < |items1| && 0 <= items1[j].lr0ItemId < |items|
    requires DotBefore(P, items[items1[j].lr0ItemId], tok) && items1[j].lookAhead != -1
    requires s < |gotos| && 0 <= tok < |gotos[s]| && 0 <= gotos[s][tok] < |states|
    requires 0 <= k < |items| && items[k] == Advance(items[items1[j].lr0ItemId])
    requires Holds1(items1, states[gotos[s][tok]], LR1Item(k, items1[j].lookAhead))
    ensures SeededNext(P, items, items1, states, props, gotos, s, j)
  {
  }

  /** LR(1) item `j` of the closure of state `s`'s kernel has left its mark:
      when its lookahead is a symbol, or the state is the first, the item is
      in the state's LALR set; and it has passed its lookahead on. */
  ghost predicate Seeded(P: seq<Production>, items: seq<LR0Item>, items1: seq<LR1Item>, states: seq<set<int>>,
                         props: seq<map<int, seq<LALRPropogation>>>, gotos: seq<seq<int>>, s: int, j: int) {
    SeededNext(P, items, items1, states, props, gotos, s, j) &&
    ((items1[j].lookAhead != -1 || s == 0) ==> j in states[s])
  }

  /** State `s` is seeded through the set `J`: `J` holds each kernel item
      with lookahead -1, is closed under LR(1) substitution, and each of
      its items is seeded. */
  ghost predicate StateSeeded(P: seq<Production>, N: set<int>, fs: seq<set<int>>, items: seq<LR0Item>,
                              items1: seq<LR1Item>, states: seq<set<int>>,
                              props: seq<map<int, seq<LALRPropogation>>>, gotos: seq<seq<int>>,
                              kernel: set<int>, s: int, J: set<int>) {
    (forall i :: i in kernel ==> Holds1(items1, J, LR1Item(i, -1))) &&
    Closed1(P, N, fs, items, items1, J) &&
    forall j :: j in J ==> Seeded(P, items, items1, states, props, gotos, s, j)
  }

  /** Edge `e` has carried lookahead `la`: its target state exists and
      holds the target item with that lookahead. */
  ghost predicate EdgeCarried(items1: seq<LR1Item>, states: seq<set<int>>, e: LALRPropogation, la: int) {
    0 <= e.lr0TargetState < |states| &&
    Holds1(items1, states[e.lr0TargetState], LR1Item(e.lr0TargetItem, la))
  }

  /** Every edge recorded for an item of state `s`'s LALR set carries the
      item's lookahead. */
  ghost predicate PropagatedFrom(items1: seq<LR1Item>, states: seq<set<int>>,
                                 props: seq<map<int, seq<LALRPropogation>>>, s: int) {
    0 <= s < |props| && s < |states| &&
    forall j, e :: j in states[s] && 0 <= j < |items1| && items1[j].lr0ItemId in props[s] &&
                   e in props[s][items1[j].lr0ItemId] ==>
      EdgeCarried(items1, states, e, items1[j].lookAhead)
  }

  /** The LALR sets are at the propagation fixpoint. */
  ghost predicate Propagated(items1: seq<LR1Item>, states: seq<set<int>>, props: seq<map<int, seq<LALRPropogation>>>) {
    forall s :: 0 <= s < |props| ==> PropagatedFrom(items1, states, props, s)
  }

  /** LR(1) item `j` of state `s`'s LALR set has an edge to the missing
      goto -1: following it indexes the state list with -1. */
  ghost predicate DeadEdge(items1: seq<LR1Item>, props: seq<map<int, seq<LALRPropogation>>>, s: int, j: int) {
    0 <= s < |props| && 0 <= j < |items1| && items1[j].lr0ItemId in props[s] &&
    exists e :: e in props[s][items1[j].lr0ItemId] && e.lr0TargetState < 0
  }

  /** A carried edge stays carried as the list and the sets grow. */
  lemma EdgeCarriedGrows(items1: seq<LR1Item>, items1': seq<LR1Item>, states: seq<set<int>>, states': seq<set<int>>,
                         e: LALRPropogation, la: int)
    requires items1 <= items1' && StatesGrown(states, states')
    requires EdgeCarried(items1, states, e, la)
    ensures EdgeCarried(items1', states', e, la)
  {
    Holds1Grows(items1, items1', states[e.lr0TargetState], states'[e.lr0TargetState], LR1Item(e.lr0TargetItem, la));
  }

  /** A state that has passed its lookaheads on stays so as the item list
      grows. */
  lemma PropagatedFromGrows(items1: seq<LR1Item>, items1': seq<LR1Item>, states: seq<set<int>>,
                            props: seq<map<int, seq<LALRPropogation>>>, s: int)
    requires items1 <= items1' && PropagatedFrom(items1, states, props, s)
    requires forall j :: j in states[s] ==> 0 <= j < |items1|
    ensures PropagatedFrom(items1', states, props, s)
  {
    forall j, e | j in states[s] && 0 <= j < |items1'| && items1'[j].lr0ItemId in props[s] &&
                  e in props[s][items1'[j].lr0ItemId]
      ensures EdgeCarried(items1', states, e, items1'[j].lookAhead)
    {
      assert items1'[j] == items1[j];
      EdgeCarriedGrows(items1, items1', states, states, e, items1[j].lookAhead);
    }
  }

  /** An LR(1) item held stays held as the list and the set grow. */
  lemma Holds1Grows(items1: seq<LR1Item>, items1': seq<LR1Item>, S: set<int>, S': set<int>, x: LR1Item)
    requires items1 <= items1' && S <= S'
    requires Holds1(items1, S, x)
    ensures Holds1(items1', S', x)
  {
    var m :| m in S && 0 <= m < |items1| && items1[m] == x;
    assert items1'[m] == items1[m];
  }

  /** The items seeded so far stay seeded as the tables grow. */
  lemma SeededPrefixGrows(P: seq<Production>, items: seq<LR0Item>, items': seq<LR0Item>,
                          items1: seq<LR1Item>, items1': seq<LR1Item>, states: seq<set<int>>, states': seq<set<int>>,
                          props: seq<map<int, seq<LALRPropogation>>>, props': seq<map<int, seq<LALRPropogation>>>,
                          gotos: seq<seq<int>>, s: int, q: seq<int>, m: int)
    requires items <= items' && items1 <= items1'
    requires StatesGrown(states, states') && PropsGrown(props, props')
    requires 0 <= m <= |q|
    requires forall k :: 0 <= k < m ==> Seeded(P, items, items1, states, props, gotos, s, q[k])
    ensures forall k :: 0 <= k < m ==> Seeded(P, items', items1', states', props', gotos, s, q[k])
  {
    forall k | 0 <= k < m
      ensures Seeded(P, items', items1', states', props', gotos, s, q[k])
    {
      SeededGrows(P, items, items', items1, items1', states, states', props, props', gotos, s, q[k]);
    }
  }

  /** A seeded item stays seeded as the lists, the sets and the
      propagation table grow. */
  lemma SeededGrows(P: seq<Production>, items: seq<LR0Item>, items': seq<LR0Item>,
                    items1: seq<LR1Item>, items1': seq<LR1Item>, states: seq<set<int>>, states': seq<set<int>>,
                    props: seq<map<int, seq<LALRPropogation>>>, props': seq<map<int, seq<LALRPropogation>>>,
                    gotos: seq<seq<int>>, s: int, j: int)
    requires items <= items' && items1 <= items1'
    requires StatesGrown(states, states') && PropsGrown(props, props')
    requires Seeded(P, items, items1, states, props, gotos, s, j)
    ensures Seeded(P, items', items1', states', props', gotos, s, j)
  {
    assert items1'[j] == items1[j];
    var id := items1[j].lr0ItemId;
    var la := items1[j].lookAhead;
    assert items'[id] == items[id];
    var it := items[id];
    if it.position < |P[it.production].right| {
      var g := gotos[s][P[it.production].right[it.position]];
      var k :| 0 <= k < |items| && items[k] == LR0Item(it.production, it.position + 1) &&
        if la == -1 then s < |props| && id in props[s] && LALRPropogation(k, g) in props[s][id]
        else 0 <= g < |states| && Holds1(items1, states[g], LR1Item(k, la));
      assert items'[k] == items[k];
      if la == -1 {
        var n :| 0 <= n < |props[s][id]| && props[s][id][n] == LALRPropogation(k, g);
        assert props'[s][id][n] == LALRPropogation(k, g);
      } else {
        Holds1Grows(items1, items1', states[g], states'[g], LR1Item(k, la));
      }
    }
  }

  /** A seeded state stays seeded as the lists, the sets and the
      propagation table grow. */
  lemma StateSeededGrows(P: seq<Production>, N: set<int>, fs: seq<set<int>>, items: seq<LR0Item>, items': seq<LR0Item>,
                         items1: seq<LR1Item>, items1': seq<LR1Item>, states: seq<set<int>>, states': seq<set<int>>,
                         props: seq<map<int, seq<LALRPropogation>>>, props': seq<map<int, seq<LALRPropogation>>>,
                         gotos: seq<seq<int>>, kernel: set<int>, s: int, J: set<int>)
    requires items <= items' && items1 <= items1'
    requires StatesGrown(states, states') && PropsGrown(props, props')
    requires StateSeeded(P, N, fs, items, items1, states, props, gotos, kernel, s, J)
    ensures StateSeeded(P, N, fs, items', items1', states', props', gotos, kernel, s, J)
  {
    forall i | i in kernel ensures Holds1(items1', J, LR1Item(i, -1)) {
      Holds1Grows(items1, items1', J, J, LR1Item(i, -1));
    }
    forall j | j in J ensures Expanded1(P, N, fs, items', items1', J, j) {
      Expanded1Grows(P, N, fs, items, items', items1, items1', J, J, j);
    }
    forall j | j in J ensures Seeded(P, items', items1', states', props', gotos, s, j) {
      SeededGrows(P, items, items', items1, items1', states, states', props, props', gotos, s, j);
    }
  }

  /** A closure of the kernel found over shorter item lists, each of whose
      items is seeded over the longer ones, seeds the state. */
  lemma StateSeededIntro(P: seq<Production>, N: set<int>, fs: seq<set<int>>, items: seq<LR0Item>, items': seq<LR0Item>,
                         items1: seq<LR1Item>, items1': seq<LR1Item>, states: seq<set<int>>,
                         props: seq<map<int, seq<LALRPropogation>>>, gotos: seq<seq<int>>, kernel: set<int>, s: int, J: set<int>)
    requires items <= items' && items1 <= items1'
    requires forall i :: i in kernel ==> Holds1(items1, J, LR1Item(i, -1))
    requires Closed1(P, N, fs, items, items1, J)
    requires forall j :: j in J ==> Seeded(P, items', items1', states, props, gotos, s, j)
    ensures StateSeeded(P, N, fs, items', items1', states, props, gotos, kernel, s, J)
  {
    forall i | i in kernel ensures Holds1(items1', J, LR1Item(i, -1)) {
      Holds1Grows(items1, items1', J, J, LR1Item(i, -1));
    }
    forall j | j in J ensures Expanded1(P, N, fs, items', items1', J, j) {
      Expanded1Grows(P, N, fs, items, items', items1, items1', J, J, j);
    }
  }

  /** A closed set stays closed as the item lists grow. */
  lemma Closed1Grows(P: seq<Production>, N: set<int>, fs: seq<set<int>>, items: seq<LR0Item>, items': seq<LR0Item>,
                     items1: seq<LR1Item>, items1': seq<LR1Item>, S: set<int>)
    requires items <= items' && items1 <= items1'
    requires Closed1(P, N, fs, items, items1, S)
    ensures Closed1(P, N, fs, items', items1', S)
  {
    forall j | j in S ensures Expanded1(P, N, fs, items', items1', S, j) {
      Expanded1Grows(P, N, fs, items, items', items1, items1', S, S, j);
    }
  }

  /** LR(1) substitutions found stay found as the item lists and the set
      grow. */
  lemma Expanded1Grows(P: seq<Production>, N: set<int>, fs: seq<set<int>>, items: seq<LR0Item>, items': seq<LR0Item>,
                       items1: seq<LR1Item>, items1': seq<LR1Item>, S: set<int>, S': set<int>, j: int)
    requires items <= items' && items1 <= items1' && S <= S'
    requires Expanded1(P, N, fs, items, items1, S, j)
    ensures Expanded1(P, N, fs, items', items1', S', j)
  {
    assert items1'[j] == items1[j];
    var it := items[items1[j].lr0ItemId];
    assert items'[items1[j].lr0ItemId] == it;
    var right := P[it.production].right;
    if it.position < |right| && right[it.position] in N {
      forall p, b | 0 <= p < |P| && P[p].left == right[it.position] &&
                    b in FirstOf(fs, right[it.position + 1..], items1[j].lookAhead)
        ensures Has1(items', items1', S', p, b)
      {
        Has1Grows(items, items', items1, items1', S, S', p, b);
      }
    }
  }

  /** An LR(1) item found stays found as the item lists and the set grow. */
  lemma Has1Grows(items: seq<LR0Item>, items': seq<LR0Item>, items1: seq<LR1Item>, items1': seq<LR1Item>,
                  S: set<int>, S': set<int>, p: int, b: int)
    requires items <= items' && items1 <= items1' && S <= S'
    requires Has1(items, items1, S, p, b)
    ensures Has1(items', items1', S', p, b)
  {
    var j :| j in S && 0 <= j < |items1| && 0 <= items1[j].lr0ItemId < |items| &&
      items[items1[j].lr0ItemId] == LR0Item(p, 0) && items1[j].lookAhead == b;
    assert items1'[j] == items1[j];
    assert items'[items1[j].lr0ItemId] == items[items1[j].lr0ItemId];
  }

  /** The reduce a complete LR(1) item of `S` with lookahead `tok` asks for. */
  ghost function ReducesOn(P: seq<Production>, items: seq<LR0Item>, items1: seq<LR1Item>, S: set<int>, tok: int): set<Action> {
    set j | j in S && 0 <= j < |items1| && 0 <= items1[j].lr0ItemId < |items| &&
            Complete(P, items[items1[j].lr0ItemId]) && items1[j].lookAhead == tok ::
      Action(Reduce, items[items1[j].lr0ItemId].production)
  }

  /** The candidate actions of the cell of an LALR set `S` with goto row
      `row` for symbol `tok` (-1 the end of input): a shift to the goto
      state when there is one, and a reduce by the production of each
      complete item of `S` whose lookahead is `tok`. */
  ghost function Candidates(P: seq<Production>, items: seq<LR0Item>, items1: seq<LR1Item>, S: set<int>,
                            row: seq<int>, tok: int): set<Action> {
    (if 0 <= tok < |row| && row[tok] >= 0 then {Action(Shift, row[tok])} else {}) +
    ReducesOn(P, items, items1, S, tok)
  }

  /** Adding an item to the set adds at most the reduce it asks for. */
  lemma CandidatesAdd(P: seq<Production>, items: seq<LR0Item>, items1: seq<LR1Item>, S: set<int>,
                      row: seq<int>, tok: int, j: int)
    requires 0 <= j < |items1| && 0 <= items1[j].lr0ItemId < |items|
    ensures Candidates(P, items, items1, S + {j}, row, tok) ==
      Candidates(P, items, items1, S, row, tok) +
      (if Complete(P, items[items1[j].lr0ItemId]) && items1[j].lookAhead == tok
       then {Action(Reduce, items[items1[j].lr0ItemId].production)} else {})
  {
    var it := items[items1[j].lr0ItemId];
    assert ReducesOn(P, items, items1, S + {j}, tok) ==
      ReducesOn(P, items, items1, S, tok) +
      (if Complete(P, it) && items1[j].lookAhead == tok then {Action(Reduce, it.production)} else {});
  }

  /** Cell (`s`, `tok`) of the parse table holds the action the precedence
      rule resolves from the cell's candidates, the shift weighing in with
      the goto precedence of `s` on `tok`. */
  ghost predicate TableCell(P: seq<Production>, items: seq<LR0Item>, items1: seq<LR1Item>, states: seq<set<int>>,
                            gotos: seq<seq<int>>, gotoPrec: seq<seq<int>>, precedence: seq<int>,
                            groups: seq<PrecedenceGroup>, s: int, tok: int, cell: Action) {
    0 <= s < |states| && s < |gotos| && s < |gotoPrec| && -1 <= tok < |gotoPrec[s]| &&
    Resolved(cell, tok, Candidates(P, items, items1, states[s], gotos[s], tok),
             if tok >= 0 then gotoPrec[s][tok] else MinInt, precedence, groups)
  }

  /** The table is determined by the LALR sets, the gotos and the
      precedences: a cell has one resolved action. */
  lemma TableCellUnique(P: seq<Production>, items: seq<LR0Item>, items1: seq<LR1Item>, states: seq<set<int>>,
                        gotos: seq<seq<int>>, gotoPrec: seq<seq<int>>, precedence: seq<int>,
                        groups: seq<PrecedenceGroup>, s: int, tok: int, c1: Action, c2: Action)
    requires TableCell(P, items, items1, states, gotos, gotoPrec, precedence, groups, s, tok, c1)
    requires TableCell(P, items, items1, states, gotos, gotoPrec, precedence, groups, s, tok, c2)
    ensures c1 == c2
  {
    var C := Candidates(P, items, items1, states[s], gotos[s], tok);
    ResolvedUnique(c1, c2, tok, C, if tok >= 0 then gotoPrec[s][tok] else MinInt, precedence, groups);
  }

  /** A shift or a reduce in a cell is one of its candidates: a shift goes
      to the goto state on the cell's symbol, and a reduce is by the
      production of a complete item of the state's set whose lookahead is
      that symbol. */
  lemma TableCellCandidate(P: seq<Production>, items: seq<LR0Item>, items1: seq<LR1Item>, states: seq<set<int>>,
                           gotos: seq<seq<int>>, gotoPrec: seq<seq<int>>, precedence: seq<int>,
                           groups: seq<PrecedenceGroup>, s: int, tok: int, cell: Action)
    requires TableCell(P, items, items1, states, gotos, gotoPrec, precedence, groups, s, tok, cell)
    requires cell.actionType == Shift || cell.actionType == Reduce
    ensures cell.actionType == Shift ==> 0 <= tok < |gotos[s]| && cell == Action(Shift, gotos[s][tok]) && gotos[s][tok] >= 0
    ensures cell.actionType == Reduce ==>
      exists j :: j in states[s] && 0 <= j < |items1| && 0 <= items1[j].lr0ItemId < |items| &&
        Complete(P, items[items1[j].lr0ItemId]) && items1[j].lookAhead == tok &&
        cell.actionParameter == items[items1[j].lr0ItemId].production
  {
    var C := Candidates(P, items, items1, states[s], gotos[s], tok);
    var sp := if tok >= 0 then gotoPrec[s][tok] else MinInt;
    assert C != {};
    var m :| ResolvedAt(cell, tok, C, m, sp, precedence, groups);
    assert cell in C;
    if cell.actionType == Reduce {
      assert cell in ReducesOn(P, items, items1, states[s], tok);
    }
  }

  /** A cell is an error exactly when its state has no goto on the symbol
      and no complete item of its set has the symbol as lookahead. */
  lemma TableErrorIff(P: seq<Production>, items: seq<LR0Item>, items1: seq<LR1Item>, states: seq<set<int>>,
                      gotos: seq<seq<int>>, gotoPrec: seq<seq<int>>, precedence: seq<int>,
                      groups: seq<PrecedenceGroup>, s: int, tok: int, cell: Action)
    requires TableCell(P, items, items1, states, gotos, gotoPrec, precedence, groups, s, tok, cell)
    ensures cell.actionType == Error <==>
      !(0 <= tok < |gotos[s]| && gotos[s][tok] >= 0) &&
      forall j :: j in states[s] && 0 <= j < |items1| && 0 <= items1[j].lr0ItemId < |items| ==>
        !(Complete(P, items[items1[j].lr0ItemId]) && items1[j].lookAhead == tok)
  {
    var C := Candidates(P, items, items1, states[s], gotos[s], tok);
    ErrorExactlyWithoutCandidates(cell, tok, C, if tok >= 0 then gotoPrec[s][tok] else MinInt, precedence, groups);
    forall j | j in states[s] && 0 <= j < |items1| && 0 <= items1[j].lr0ItemId < |items| &&
                 Complete(P, items[items1[j].lr0ItemId]) && items1[j].lookAhead == tok
      ensures C != {}
    {
      assert Action(Reduce, items[items1[j].lr0ItemId].production) in ReducesOn(P, items, items1, states[s], tok);
    }
  }

  /** The exit test of the lookahead passes as the source has them does not
      make the LALR sets closed. In the grammar
      Z -> S; S -> a T | c T | c x e; T -> x B; B -> (empty), with symbols
      numbered Z, S, c, a, x, e, T, B, the state reached by `a x` ends with
      the set {T -> x . B, -1} while the state reached by `c x` has already
      carried T -> x B ., -1 into their common successor on B. The first
      state is then never closed again, and these two sets (the state, and
      the successor on B) are at the propagation fixpoint although the
      first lacks B -> ., -1: the parse table does not reduce B -> (empty)
      at the end of input there, and `a x` is rejected.
      The two sets, their items and the propagation edge between them are
      written out from a hand trace of the loop on that grammar; the lemma
      proves that this configuration passes the exit test yet is not
      closed, and does not derive it by running `InitLALRTables` and
      `CalculateLookAheads`, whose contracts do not fix their exact
      output. */
  lemma UnclosedAtFixpoint()
    ensures var P := [Production(0, [1], Wrappers.None), Production(1, [3, 6], Wrappers.None),
                      Production(1, [2, 6], Wrappers.None), Production(1, [2, 4, 5], Wrappers.None),
                      Production(6, [4, 7], Wrappers.None), Production(7, [], Wrappers.None)];
            var fs := [{2, 3}, {2, 3}, {2}, {3}, {4}, {5}, {4}, {-1}];
            var items := [LR0Item(4, 1), LR0Item(4, 2), LR0Item(5, 0)];
            var items1 := [LR1Item(0, -1), LR1Item(1, -1), LR1Item(2, -1)];
            var states := [{0}, {1}];
            var props := [map[0 := [LALRPropogation(1, 1)]]];
            Propagated(items1, states, props) && !Closed1(P, {0, 1, 6, 7}, fs, items, items1, states[0])
  {
    var P := [Production(0, [1], Wrappers.None), Production(1, [3, 6], Wrappers.None),
              Production(1, [2, 6], Wrappers.None), Production(1, [2, 4, 5], Wrappers.None),
              Production(6, [4, 7], Wrappers.None), Production(7, [], Wrappers.None)];
    var fs := [{2, 3}, {2, 3}, {2}, {3}, {4}, {5}, {4}, {-1}];
    var items := [LR0Item(4, 1), LR0Item(4, 2), LR0Item(5, 0)];
    var items1 := [LR1Item(0, -1), LR1Item(1, -1), LR1Item(2, -1)];
    var states := [{0}, {1}];
    var props := [map[0 := [LALRPropogation(1, 1)]]];
    assert Holds1(items1, states[1], LR1Item(1, -1)) by {
      assert 1 in states[1] && items1[1] == LR1Item(1, -1);
    }
    assert FirstOf(fs, P[4].right[2..], -1) == {-1};
    assert !Has1(items, items1, states[0], 5, -1);
    assert !Expanded1(P, {0, 1, 6, 7}, fs, items, items1, states[0], 0);
  }
}
