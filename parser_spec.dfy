/** What the parser generator's phases compute, stated over plain values:
    well-formed productions, LR(0) items and closed item sets, FIRST sets
    and the FIRST of a symbol string, and the rule that picks one action
    per parse-table cell from its candidates. */
module ParserSpecs {
  import opened Wrappers
  import opened Grammars
  import opened LRItems
  import opened ParseTables
  import Collections

  /** `Int32.MinValue`, where the precedence searches start. */
  const MinInt: int := -0x8000_0000

  /** Every symbol a production names is one of the `n` symbols of the
      symbol table. */
  ghost predicate WellFormed(P: seq<Production>, n: int) {
    forall p :: 0 <= p < |P| ==>
      0 <= P[p].left < n && forall k :: 0 <= k < |P[p].right| ==> 0 <= P[p].right[k] < n
  }

  /** A terminal is the left side of no production. */
  predicate IsTerminal(P: seq<Production>, s: int) {
    forall p :: 0 <= p < |P| ==> P[p].left != s
  }

  /** An LR(0) item of one of the productions, its dot at most at the end. */
  ghost predicate ValidLR0(P: seq<Production>, it: LR0Item) {
    0 <= it.production < |P| && 0 <= it.position <= |P[it.production].right|
  }

  /** Every LR(0) item the productions have. */
  ghost function LR0Universe(P: seq<Production>): set<LR0Item> {
    set p, k | 0 <= p < |P| && 0 <= k <= |P[p].right| :: LR0Item(p, k)
  }

  /** Distinct items of the productions are no more than there are items. */
  lemma ItemCount(P: seq<Production>, items: seq<LR0Item>)
    requires Collections.NoDup(items)
    requires forall i :: 0 <= i < |items| ==> ValidLR0(P, items[i])
    ensures |items| <= |LR0Universe(P)|
  {
    forall i | 0 <= i < |items|
      ensures items[i] in LR0Universe(P)
    {
      var it := items[i];
      assert it == LR0Item(it.production, it.position);
    }
    Collections.NoDupBound(items, LR0Universe(P));
  }

  /** The dot stands before symbol `x`. */
  ghost predicate DotBefore(P: seq<Production>, it: LR0Item, x: int) {
    ValidLR0(P, it) && it.position < |P[it.production].right| &&
    P[it.production].right[it.position] == x
  }

  /** The dot stands at the end: the item is complete. */
  ghost predicate Complete(P: seq<Production>, it: LR0Item) {
    ValidLR0(P, it) && it.position == |P[it.production].right|
  }

  /** The item with the dot moved over one more symbol. */
  function Advance(it: LR0Item): LR0Item {
    LR0Item(it.production, it.position + 1)
  }

  /** Some id in `S` names the item `it`. */
  ghost predicate Has(items: seq<LR0Item>, S: set<int>, it: LR0Item) {
    exists j :: j in S && 0 <= j < |items| && items[j] == it
  }

  /** Item `i` has its substitutions in `S`: when its dot stands before a
      symbol, every production of that symbol is in `S` with the dot at
      its start. */
  ghost predicate Expanded(P: seq<Production>, items: seq<LR0Item>, S: set<int>, i: int) {
    0 <= i < |items| && ValidLR0(P, items[i]) &&
    (items[i].position < |P[items[i].production].right| ==>
       forall p :: 0 <= p < |P| && P[p].left == P[items[i].production].right[items[i].position] ==>
         Has(items, S, LR0Item(p, 0)))
  }

  /** A set of item ids closed under substitution. */
  ghost predicate Closed(P: seq<Production>, items: seq<LR0Item>, S: set<int>) {
    forall i :: i in S ==> Expanded(P, items, S, i)
  }

  /** Every LR(1) item over at most `k` LR(0) items and `n` symbols (the
      lookahead -1 included). */
  ghost function LR1Universe(k: nat, n: nat): set<LR1Item> {
    set i, b | 0 <= i < k && -1 <= b < n :: LR1Item(i, b)
  }

  /** Distinct LR(1) items over `k` LR(0) items and `n` symbols are no more
      than there are such items. */
  lemma LR1ItemCount(items1: seq<LR1Item>, k: nat, n: nat)
    requires Collections.NoDup(items1)
    requires forall j :: 0 <= j < |items1| ==> 0 <= items1[j].lr0ItemId < k && -1 <= items1[j].lookAhead < n
    ensures |items1| <= |LR1Universe(k, n)|
  {
    forall j | 0 <= j < |items1|
      ensures items1[j] in LR1Universe(k, n)
    {
      var it := items1[j];
      assert it == LR1Item(it.lr0ItemId, it.lookAhead);
    }
    Collections.NoDupBound(items1, LR1Universe(k, n));
  }

  /** Some id in `S` names the LR(1) item of production `p` with the dot at
      its start and lookahead `b`. */
  ghost predicate Has1(items: seq<LR0Item>, items1: seq<LR1Item>, S: set<int>, p: int, b: int) {
    exists j :: j in S && 0 <= j < |items1| && 0 <= items1[j].lr0ItemId < |items| &&
      items[items1[j].lr0ItemId] == LR0Item(p, 0) && items1[j].lookAhead == b
  }

  /** LR(1) item `j` has its substitutions in `S`: when its dot stands
      before a nonterminal, every production of that nonterminal is in `S`
      with the dot at its start, once for each symbol of FIRST of the rest
      of the right-hand side followed by the item's lookahead. */
  ghost predicate Expanded1(P: seq<Production>, N: set<int>, fs: seq<set<int>>, items: seq<LR0Item>,
                            items1: seq<LR1Item>, S: set<int>, j: int) {
    0 <= j < |items1| && 0 <= items1[j].lr0ItemId < |items| && ValidLR0(P, items[items1[j].lr0ItemId]) &&
    var it := items[items1[j].lr0ItemId];
    var right := P[it.production].right;
    (it.position < |right| && right[it.position] in N ==>
       (forall i :: it.position < i < |right| ==> 0 <= right[i] < |fs|) &&
       forall p, b :: 0 <= p < |P| && P[p].left == right[it.position] &&
                      b in FirstOf(fs, right[it.position + 1..], items1[j].lookAhead) ==>
         Has1(items, items1, S, p, b))
  }

  /** A set of LR(1) item ids closed under substitution. */
  ghost predicate Closed1(P: seq<Production>, N: set<int>, fs: seq<set<int>>, items: seq<LR0Item>,
                          items1: seq<LR1Item>, S: set<int>) {
    forall j :: j in S ==> Expanded1(P, N, fs, items, items1, S, j)
  }

  /** The symbols before position `k` of `right` can each derive the empty
      string: their FIRST sets hold -1. */
  ghost predicate NullableBefore(fs: seq<set<int>>, right: seq<int>, k: int) {
    forall j :: 0 <= j < k && j < |right| ==> 0 <= right[j] < |fs| && -1 in fs[right[j]]
  }

  /** FIRST of `y`, less -1, is part of FIRST of `x`. */
  ghost predicate Covers(fs: seq<set<int>>, x: int, y: int) {
    0 <= x < |fs| && 0 <= y < |fs| && fs[y] - {-1} <= fs[x]
  }

  /** Passing FIRST of the `k`-th right-hand symbol on to `x` keeps what
      the earlier symbols passed on, and adds no empty marker anywhere. */
  lemma CoversStep(fs: seq<set<int>>, fs': seq<set<int>>, x: int, right: seq<int>, k: int)
    requires 0 <= x < |fs| && 0 <= k < |right| && 0 <= right[k] < |fs|
    requires fs' == fs[x := fs[x] + (fs[right[k]] - {-1})]
    requires forall j :: 0 <= j < k ==> Covers(fs, x, right[j])
    requires NullableBefore(fs, right, k)
    ensures forall j :: 0 <= j <= k ==> Covers(fs', x, right[j])
    ensures NullableBefore(fs', right, k)
    ensures -1 in fs'[right[k]] <==> -1 in fs[right[k]]
  {
    forall j | 0 <= j <= k ensures Covers(fs', x, right[j]) {
      if j < k {
        assert Covers(fs, x, right[j]);
      }
    }
  }

  /** A production whose right-hand side was walked up to the first
      symbol that cannot derive the empty string (or to its end) has
      passed its FIRST on. */
  lemma PassedAt(P: seq<Production>, fs: seq<set<int>>, p: int, k: int)
    requires 0 <= p < |P| && 0 <= k <= |P[p].right|
    requires forall j :: 0 <= j <= k && j < |P[p].right| ==> Covers(fs, P[p].left, P[p].right[j])
    requires NullableBefore(fs, P[p].right, k)
    requires k < |P[p].right| ==> 0 <= P[p].right[k] < |fs| && -1 !in fs[P[p].right[k]]
    ensures Passed(P, fs, p)
  {
    forall i | 0 <= i < |P[p].right| && NullableBefore(fs, P[p].right, i)
      ensures Covers(fs, P[p].left, P[p].right[i])
    {
      assert i <= k;
    }
  }

  /** Production `p` passes on FIRST of each right-hand symbol reached over
      a nullable prefix to its left symbol. */
  ghost predicate Passed(P: seq<Production>, fs: seq<set<int>>, p: int) {
    0 <= p < |P| &&
    forall k :: 0 <= k < |P[p].right| && NullableBefore(fs, P[p].right, k) ==>
      Covers(fs, P[p].left, P[p].right[k])
  }

  /** FIRST sets at a fixpoint: every production passes its FIRST on. */
  ghost predicate FirstClosed(P: seq<Production>, fs: seq<set<int>>) {
    forall p :: 0 <= p < |P| ==> Passed(P, fs, p)
  }

  /** Some production of `x` has an empty right-hand side. */
  ghost predicate HasEmpty(P: seq<Production>, x: int) {
    exists p :: 0 <= p < |P| && P[p].left == x && P[p].right == []
  }

  /** Scanning one more production adds its left symbol when its right
      side is empty. */
  lemma HasEmptyNext(P: seq<Production>, p: int, x: int)
    requires 0 <= p < |P|
    ensures HasEmpty(P[..p + 1], x) <==> HasEmpty(P[..p], x) || (P[p].left == x && P[p].right == [])
  {
    if HasEmpty(P[..p + 1], x) && !(P[p].left == x && P[p].right == []) {
      var q :| 0 <= q < p + 1 && P[..p + 1][q].left == x && P[..p + 1][q].right == [];
      assert P[..p][q] == P[q];
    }
    if HasEmpty(P[..p], x) {
      var q :| 0 <= q < p && P[..p][q].left == x && P[..p][q].right == [];
      assert P[..p + 1][q] == P[q];
    }
    if P[p].left == x && P[p].right == [] {
      assert P[..p + 1][p] == P[p];
    }
  }

  /** The FIRST sets as pairs of a symbol and a member of its set. */
  ghost function Pairs(fs: seq<set<int>>): set<(int, int)> {
    set x, b | 0 <= x < |fs| && b in fs[x] :: (x, b)
  }

  /** Every pair of a symbol and a symbol or -1. */
  ghost function PairUniverse(n: nat): set<(int, int)> {
    set x, b | 0 <= x < n && -1 <= b < n :: (x, b)
  }

  /** FIRST sets over `n` symbols have no more pairs than there are. */
  lemma PairsBound(fs: seq<set<int>>, n: nat)
    requires |fs| == n && forall x, b :: 0 <= x < n && b in fs[x] ==> -1 <= b < n
    ensures |Pairs(fs)| <= |PairUniverse(n)|
  {
    Collections.SubsetSize(Pairs(fs), PairUniverse(n));
  }

  /** At most `n` sets of members from -1 to `n` have no more pairs than
      there are. */
  lemma PairsBoundIn(fs: seq<set<int>>, n: nat)
    requires |fs| <= n && forall x, b :: 0 <= x < |fs| && b in fs[x] ==> -1 <= b < n
    ensures |Pairs(fs)| <= |PairUniverse(n)|
  {
    Collections.SubsetSize(Pairs(fs), PairUniverse(n));
  }

  /** Some set of `b` has a member its counterpart in `a` lacks. */
  ghost predicate Grew(a: seq<set<int>>, b: seq<set<int>>) {
    exists x, e :: 0 <= x < |a| && x < |b| && e in b[x] && e !in a[x]
  }

  /** Sets that only grow, one of them strictly, have more pairs. */
  lemma PairsGrow(a: seq<set<int>>, b: seq<set<int>>)
    requires |a| == |b| && forall x :: 0 <= x < |a| ==> a[x] <= b[x]
    requires Grew(a, b)
    ensures |Pairs(a)| < |Pairs(b)|
  {
    var x, e :| 0 <= x < |a| && x < |b| && e in b[x] && e !in a[x];
    assert Pairs(a) <= Pairs(b);
    assert (x, e) in Pairs(b) - Pairs(a);
    assert Pairs(b) == Pairs(a) + (Pairs(b) - Pairs(a));
  }

  /** Sets that only grow have at least as many pairs. */
  lemma PairsMono(a: seq<set<int>>, b: seq<set<int>>)
    requires |a| == |b| && forall x :: 0 <= x < |a| ==> a[x] <= b[x]
    ensures |Pairs(a)| <= |Pairs(b)|
  {
    Collections.SubsetSize(Pairs(a), Pairs(b));
  }

  /** Growth seen in either of two successive steps is growth over both. */
  lemma GrewChain(a: seq<set<int>>, b: seq<set<int>>, c: seq<set<int>>)
    requires |a| == |b| == |c|
    requires forall x :: 0 <= x < |a| ==> a[x] <= b[x] && b[x] <= c[x]
    requires Grew(a, b) || Grew(b, c)
    ensures Grew(a, c)
  {
    if Grew(a, b) {
      var x, e :| 0 <= x < |a| && x < |b| && e in b[x] && e !in a[x];
      assert e in c[x];
    } else {
      var x, e :| 0 <= x < |b| && x < |c| && e in c[x] && e !in b[x];
      assert e !in a[x];
    }
  }

  /** `First(tokens, t)`: FIRST of each token, less -1, as long as the
      tokens before it are nullable, and `t` when all of them are. */
  function FirstOf(fs: seq<set<int>>, tokens: seq<int>, t: int): set<int>
    requires forall i :: 0 <= i < |tokens| ==> 0 <= tokens[i] < |fs|
  {
    if tokens == [] then {t}
    else (fs[tokens[0]] - {-1}) + (if -1 in fs[tokens[0]] then FirstOf(fs, tokens[1..], t) else {})
  }

  /** What `FirstOf` holds: the non-empty-string FIRST symbols of each token
      reached over a nullable prefix, and `t` exactly when the whole string
      is nullable (the empty string included). */
  lemma {:induction false} FirstOfMembers(fs: seq<set<int>>, tokens: seq<int>, t: int, x: int)
    requires forall i :: 0 <= i < |tokens| ==> 0 <= tokens[i] < |fs|
    ensures x in FirstOf(fs, tokens, t) <==>
      (exists k :: 0 <= k < |tokens| && NullableBefore(fs, tokens, k) && x != -1 && x in fs[tokens[k]]) ||
      (x == t && NullableBefore(fs, tokens, |tokens|))
  {
    if tokens != [] {
      var rest := tokens[1..];
      FirstOfMembers(fs, rest, t, x);
      if x in FirstOf(fs, tokens, t) {
        if x !in fs[tokens[0]] - {-1} {
          assert -1 in fs[tokens[0]] && x in FirstOf(fs, rest, t);
          if k :| 0 <= k < |rest| && NullableBefore(fs, rest, k) && x != -1 && x in fs[rest[k]] {
            assert NullableBefore(fs, tokens, k + 1) by {
              forall j | 0 <= j < k + 1 && j < |tokens|
                ensures 0 <= tokens[j] < |fs| && -1 in fs[tokens[j]]
              {
                if j > 0 { assert tokens[j] == rest[j - 1]; }
              }
            }
            assert tokens[k + 1] == rest[k];
          } else {
            assert x == t && NullableBefore(fs, rest, |rest|);
            assert NullableBefore(fs, tokens, |tokens|) by {
              forall j | 0 <= j < |tokens|
                ensures 0 <= tokens[j] < |fs| && -1 in fs[tokens[j]]
              {
                if j > 0 { assert tokens[j] == rest[j - 1]; }
              }
            }
          }
        } else {
          assert NullableBefore(fs, tokens, 0);
        }
      }
      if k :| 0 <= k < |tokens| && NullableBefore(fs, tokens, k) && x != -1 && x in fs[tokens[k]] {
        if k > 0 {
          assert NullableBefore(fs, rest, k - 1) by {
            forall j | 0 <= j < k - 1 && j < |rest|
              ensures 0 <= rest[j] < |fs| && -1 in fs[rest[j]]
            {
              assert rest[j] == tokens[j + 1];
            }
          }
          assert rest[k - 1] == tokens[k];
        }
      }
      if x == t && NullableBefore(fs, tokens, |tokens|) {
        assert NullableBefore(fs, rest, |rest|) by {
          forall j | 0 <= j < |rest|
            ensures 0 <= rest[j] < |fs| && -1 in fs[rest[j]]
          {
            assert rest[j] == tokens[j + 1];
          }
        }
      }
    }
  }

  /** Some item of state `S` has its dot before `tok`. */
  ghost predicate Moves(P: seq<Production>, items: seq<LR0Item>, S: set<int>, tok: int) {
    exists i :: i in S && 0 <= i < |items| && DotBefore(P, items[i], tok)
  }

  /** `T` is a goto of `S` on `tok`: a closed set holding the advance of
      every item of `S` with its dot before `tok`, and otherwise only items
      with the dot at the start. */
  ghost predicate IsGoto(P: seq<Production>, items: seq<LR0Item>, S: set<int>, tok: int, T: set<int>) {
    (forall j :: j in T ==> 0 <= j < |items|) &&
    Closed(P, items, T) &&
    (forall i :: i in S && 0 <= i < |items| && DotBefore(P, items[i], tok) ==> Has(items, T, Advance(items[i]))) &&
    forall j :: j in T ==>
      items[j].position == 0 ||
      exists i :: i in S && 0 <= i < |items| && DotBefore(P, items[i], tok) && items[j] == Advance(items[i])
  }

  /** `g` is what `GotoLR0` answers for state `s` of `states` and symbol
      `tok`: -1 exactly when the state does not move over `tok`, otherwise
      a state that is a goto of it; and `prec` is the greatest precedence
      moved over, or `start`. */
  ghost predicate GotoOf(P: seq<Production>, precedence: seq<int>, items: seq<LR0Item>, states: seq<set<int>>,
                         s: int, tok: int, start: int, g: int, prec: int) {
    0 <= s < |states| &&
    (g == -1 <==> !Moves(P, items, states[s], tok)) &&
    (g != -1 ==> 0 <= g < |states| && IsGoto(P, items, states[s], tok, states[g])) &&
    MaxPrecedence(P, precedence, items, states[s], tok, start, prec)
  }

  /** Every state holds ids of listed items only. */
  ghost predicate StatesBelow(items: seq<LR0Item>, states: seq<set<int>>) {
    forall s, i :: 0 <= s < |states| && i in states[s] ==> 0 <= i < |items|
  }

  /** Row `s` of the goto and goto-precedence tables has a column per
      symbol, and the columns before `upto` hold what `GotoLR0` answers,
      the precedence search starting from `Int32.MinValue`. */
  ghost predicate GotoRow(P: seq<Production>, precedence: seq<int>, items: seq<LR0Item>, states: seq<set<int>>,
                          gotos: seq<seq<int>>, gotoPrec: seq<seq<int>>, n: int, s: int, upto: int) {
    0 <= s < |gotos| && s < |gotoPrec| && |gotos[s]| == n && |gotoPrec[s]| == n &&
    forall tok :: 0 <= tok < upto && tok < n ==>
      GotoOf(P, precedence, items, states, s, tok, MinInt, gotos[s][tok], gotoPrec[s][tok])
  }

  /** The first `count` rows are complete. */
  ghost predicate GotoRows(P: seq<Production>, precedence: seq<int>, items: seq<LR0Item>, states: seq<set<int>>,
                           gotos: seq<seq<int>>, gotoPrec: seq<seq<int>>, n: int, count: int) {
    forall s :: 0 <= s < count ==> GotoRow(P, precedence, items, states, gotos, gotoPrec, n, s, n)
  }

  /** What `GotoLR0` answers stays true as the item and state lists grow. */
  lemma GotoOfGrows(P: seq<Production>, precedence: seq<int>, items: seq<LR0Item>, items': seq<LR0Item>,
                    states: seq<set<int>>, states': seq<set<int>>, s: int, tok: int, start: int, g: int, prec: int)
    requires items <= items' && states <= states' && StatesBelow(items, states)
    requires GotoOf(P, precedence, items, states, s, tok, start, g, prec)
    ensures GotoOf(P, precedence, items', states', s, tok, start, g, prec)
  {
    assert states'[s] == states[s];
    assert forall i :: i in states[s] ==> items'[i] == items[i];
    PrecedenceGrows(P, precedence, items, items', states[s], tok, start, prec);
    if g != -1 {
      assert states'[g] == states[g];
      IsGotoGrows(P, items, items', states[s], tok, states[g]);
    }
  }

  lemma GotoRowGrows(P: seq<Production>, precedence: seq<int>, items: seq<LR0Item>, items': seq<LR0Item>,
                     states: seq<set<int>>, states': seq<set<int>>, gotos: seq<seq<int>>, gotoPrec: seq<seq<int>>,
                     n: int, s: int, upto: int)
    requires items <= items' && states <= states' && StatesBelow(items, states)
    requires GotoRow(P, precedence, items, states, gotos, gotoPrec, n, s, upto)
    ensures GotoRow(P, precedence, items', states', gotos, gotoPrec, n, s, upto)
  {
    forall tok | 0 <= tok < upto && tok < n
      ensures GotoOf(P, precedence, items', states', s, tok, MinInt, gotos[s][tok], gotoPrec[s][tok])
    {
      GotoOfGrows(P, precedence, items, items', states, states', s, tok, MinInt, gotos[s][tok], gotoPrec[s][tok]);
    }
  }

  lemma GotoRowsGrow(P: seq<Production>, precedence: seq<int>, items: seq<LR0Item>, items': seq<LR0Item>,
                     states: seq<set<int>>, states': seq<set<int>>, gotos: seq<seq<int>>, gotoPrec: seq<seq<int>>,
                     n: int, count: int)
    requires items <= items' && states <= states' && StatesBelow(items, states)
    requires GotoRows(P, precedence, items, states, gotos, gotoPrec, n, count)
    ensures GotoRows(P, precedence, items', states', gotos, gotoPrec, n, count)
  {
    forall s | 0 <= s < count
      ensures GotoRow(P, precedence, items', states', gotos, gotoPrec, n, s, n)
    {
      GotoRowGrows(P, precedence, items, items', states, states', gotos, gotoPrec, n, s, n);
    }
  }

  /** Appending placeholder rows keeps the complete rows. */
  lemma GotoRowsAppend(P: seq<Production>, precedence: seq<int>, items: seq<LR0Item>, states: seq<set<int>>,
                       gotos: seq<seq<int>>, gotoPrec: seq<seq<int>>, n: int, count: int, row: seq<int>, precRow: seq<int>)
    requires GotoRows(P, precedence, items, states, gotos, gotoPrec, n, count)
    ensures GotoRows(P, precedence, items, states, gotos + [row], gotoPrec + [precRow], n, count)
  {
    var gotos', gotoPrec' := gotos + [row], gotoPrec + [precRow];
    forall s | 0 <= s < count
      ensures GotoRow(P, precedence, items, states, gotos', gotoPrec', n, s, n)
    {
      assert GotoRow(P, precedence, items, states, gotos, gotoPrec, n, s, n);
      assert gotos'[s] == gotos[s] && gotoPrec'[s] == gotoPrec[s];
    }
  }

  /** Writing a complete row `s` over a placeholder keeps the rows before
      it and completes `s + 1` rows. */
  lemma GotoRowsExtend(P: seq<Production>, precedence: seq<int>, items: seq<LR0Item>, states: seq<set<int>>,
                       gotos: seq<seq<int>>, gotoPrec: seq<seq<int>>, n: int, s: int, row: seq<int>, precRow: seq<int>)
    requires GotoRows(P, precedence, items, states, gotos, gotoPrec, n, s)
    requires 0 <= s < |gotos| && s < |gotoPrec|
    requires GotoRow(P, precedence, items, states, gotos[s := row], gotoPrec[s := precRow], n, s, n)
    ensures GotoRows(P, precedence, items, states, gotos[s := row], gotoPrec[s := precRow], n, s + 1)
  {
    var gotos', gotoPrec' := gotos[s := row], gotoPrec[s := precRow];
    forall s' | 0 <= s' < s
      ensures GotoRow(P, precedence, items, states, gotos', gotoPrec', n, s', n)
    {
      assert GotoRow(P, precedence, items, states, gotos, gotoPrec, n, s', n);
      assert gotos'[s'] == gotos[s'] && gotoPrec'[s'] == gotoPrec[s'];
    }
  }

  /** Distinct states over the items of the productions are no more than
      the subsets of those items. */
  lemma StateCount(P: seq<Production>, items: seq<LR0Item>, states: seq<set<int>>)
    requires Collections.NoDup(items) && forall i :: 0 <= i < |items| ==> ValidLR0(P, items[i])
    requires Collections.NoDup(states) && StatesBelow(items, states)
    ensures |states| <= |Collections.Subsets(|LR0Universe(P)|)|
  {
    ItemCount(P, items);
    forall s | 0 <= s < |states|
      ensures states[s] in Collections.Subsets(|LR0Universe(P)|)
    {
      Collections.SubsetOfBelow(states[s], |LR0Universe(P)|);
    }
    Collections.NoDupBound(states, Collections.Subsets(|LR0Universe(P)|));
  }

  /** `prec` is the greatest of `start` and the precedences of the
      productions whose items in `S` have their dot before `tok`. */
  ghost predicate MaxPrecedence(P: seq<Production>, precedence: seq<int>, items: seq<LR0Item>, S: set<int>,
                                tok: int, start: int, prec: int) {
    start <= prec &&
    (forall i :: i in S && 0 <= i < |items| && DotBefore(P, items[i], tok) ==>
       items[i].production < |precedence| && precedence[items[i].production] <= prec) &&
    (prec == start ||
     exists i :: i in S && 0 <= i < |items| && DotBefore(P, items[i], tok) &&
       items[i].production < |precedence| && prec == precedence[items[i].production])
  }

  /** A goto found stays a goto as the item list grows, for sets over the
      items already listed. */
  lemma IsGotoGrows(P: seq<Production>, items: seq<LR0Item>, items': seq<LR0Item>, S: set<int>, tok: int, T: set<int>)
    requires items <= items'
    requires forall i :: i in S ==> 0 <= i < |items|
    requires IsGoto(P, items, S, tok, T)
    ensures IsGoto(P, items', S, tok, T)
  {
    forall j | j in T ensures Expanded(P, items', T, j) {
      ExpandedGrows(P, items, items', T, T, j);
    }
    forall i | i in S && 0 <= i < |items'| && DotBefore(P, items'[i], tok)
      ensures Has(items', T, Advance(items'[i]))
    {
      assert items'[i] == items[i];
      var j :| j in T && 0 <= j < |items| && items[j] == Advance(items[i]);
      assert items'[j] == items[j];
    }
    forall j | j in T
      ensures items'[j].position == 0 ||
        exists i :: i in S && 0 <= i < |items'| && DotBefore(P, items'[i], tok) && items'[j] == Advance(items'[i])
    {
      assert items'[j] == items[j];
      if items[j].position != 0 {
        var i :| i in S && 0 <= i < |items| && DotBefore(P, items[i], tok) && items[j] == Advance(items[i]);
        assert items'[i] == items[i];
      }
    }
  }

  /** The advances over `tok` of the items of `S` with their dot before
      `tok`, items read in `base`. */
  ghost function Advances(P: seq<Production>, base: seq<LR0Item>, S: set<int>, tok: int): set<LR0Item> {
    set i | i in S && 0 <= i < |base| && DotBefore(P, base[i], tok) :: Advance(base[i])
  }

  /** The items the ids of `K` name. */
  ghost function Named(items: seq<LR0Item>, K: set<int>): set<LR0Item> {
    set j | j in K && 0 <= j < |items| :: items[j]
  }

  /** `K` names exactly the advances over `tok` of the items of `S` (read
      in `base`, which `items` extends), and `prec` is the greatest of
      `start` and the precedences of their productions. */
  ghost predicate KernelOf(P: seq<Production>, precedence: seq<int>, base: seq<LR0Item>, items: seq<LR0Item>,
                           S: set<int>, tok: int, K: set<int>, start: int, prec: int) {
    base <= items &&
    (forall i :: i in S ==> 0 <= i < |base|) &&
    (forall j :: j in K ==> 0 <= j < |items|) &&
    Named(items, K) == Advances(P, base, S, tok) &&
    MaxPrecedence(P, precedence, base, S, tok, start, prec)
  }

  lemma PrecedenceMove(P: seq<Production>, precedence: seq<int>, base: seq<LR0Item>, S: set<int>, tok: int,
                       start: int, prec: int, i: int)
    requires MaxPrecedence(P, precedence, base, S, tok, start, prec)
    requires 0 <= i < |base| && DotBefore(P, base[i], tok) && |precedence| == |P|
    ensures var p := precedence[base[i].production];
      MaxPrecedence(P, precedence, base, S + {i}, tok, start, if prec < p then p else prec)
  {
    var p := precedence[base[i].production];
    var prec' := if prec < p then p else prec;
    if prec' != start && prec' != p {
      var i' :| i' in S && 0 <= i' < |base| && DotBefore(P, base[i'], tok) &&
        base[i'].production < |precedence| && prec == precedence[base[i'].production];
      assert i' in S + {i};
    }
  }

  /** Taking in an item whose dot stands before `tok`: its advance, named
      `j`, joins the kernel and its production's precedence the maximum. */
  lemma KernelMove(P: seq<Production>, precedence: seq<int>, base: seq<LR0Item>, items: seq<LR0Item>, items': seq<LR0Item>,
                   S: set<int>, tok: int, K: set<int>, start: int, prec: int, i: int, j: int)
    requires KernelOf(P, precedence, base, items, S, tok, K, start, prec)
    requires 0 <= i < |base| && DotBefore(P, base[i], tok) && |precedence| == |P|
    requires items <= items' && 0 <= j < |items'| && items'[j] == Advance(base[i])
    ensures var p := precedence[base[i].production];
      KernelOf(P, precedence, base, items', S + {i}, tok, K + {j}, start, if prec < p then p else prec)
  {
    assert base <= items' by {
      assert base == items[..|base|] == items'[..|items|][..|base|];
    }
    assert Named(items', K + {j}) == Named(items, K) + {Advance(base[i])} by {
      assert forall j' :: j' in K ==> items'[j'] == items[j'];
    }
    assert Advances(P, base, S + {i}, tok) == Advances(P, base, S, tok) + {Advance(base[i])};
    PrecedenceMove(P, precedence, base, S, tok, start, prec, i);
  }

  /** Taking in an item whose dot does not stand before `tok` changes
      nothing. */
  lemma KernelSkip(P: seq<Production>, precedence: seq<int>, base: seq<LR0Item>, items: seq<LR0Item>,
                   S: set<int>, tok: int, K: set<int>, start: int, prec: int, i: int)
    requires KernelOf(P, precedence, base, items, S, tok, K, start, prec)
    requires 0 <= i < |base| && !DotBefore(P, base[i], tok)
    ensures KernelOf(P, precedence, base, items, S + {i}, tok, K, start, prec)
  {
    assert Advances(P, base, S + {i}, tok) == Advances(P, base, S, tok);
  }

  /** The closure `T` of a kernel of `S` on `tok` is a goto of `S` on
      `tok`; whether `S` moves and the precedence read over `items'` are as
      over `base`. */
  lemma KernelClosure(P: seq<Production>, precedence: seq<int>, base: seq<LR0Item>, items: seq<LR0Item>,
                      items': seq<LR0Item>, S: set<int>, tok: int, K: set<int>, start: int, prec: int, T: set<int>)
    requires KernelOf(P, precedence, base, items, S, tok, K, start, prec)
    requires items <= items' && K <= T && Closed(P, items', T)
    requires forall j :: j in T ==> j in K || items'[j].position == 0
    ensures IsGoto(P, items', S, tok, T)
    ensures Moves(P, items', S, tok) <==> K != {}
    ensures MaxPrecedence(P, precedence, items', S, tok, start, prec)
  {
    assert forall i :: i in S ==> items'[i] == base[i];
    forall i | i in S && 0 <= i < |items'| && DotBefore(P, items'[i], tok)
      ensures Has(items', T, Advance(items'[i]))
    {
      assert Advance(base[i]) in Advances(P, base, S, tok);
      var j :| j in K && 0 <= j < |items| && items[j] == Advance(base[i]);
      assert items'[j] == items[j];
    }
    forall j | j in T && items'[j].position != 0
      ensures exists i :: i in S && 0 <= i < |items'| && DotBefore(P, items'[i], tok) && items'[j] == Advance(items'[i])
    {
      assert items'[j] == items[j];
      assert items[j] in Named(items, K);
      var i :| i in S && 0 <= i < |base| && DotBefore(P, base[i], tok) && items[j] == Advance(base[i]);
    }
    forall j | j in T ensures 0 <= j < |items'| {
      assert Expanded(P, items', T, j);
    }
    if K != {} {
      var j :| j in K;
      assert items[j] in Named(items, K);
    }
    if i :| i in S && 0 <= i < |items'| && DotBefore(P, items'[i], tok) {
      assert Advance(base[i]) in Advances(P, base, S, tok);
    }
    PrecedenceGrows(P, precedence, base, items', S, tok, start, prec);
  }

  /** The greatest precedence read over a longer item list is the same. */
  lemma PrecedenceGrows(P: seq<Production>, precedence: seq<int>, base: seq<LR0Item>, items: seq<LR0Item>,
                        S: set<int>, tok: int, start: int, prec: int)
    requires base <= items && forall i :: i in S ==> 0 <= i < |base|
    requires MaxPrecedence(P, precedence, base, S, tok, start, prec)
    ensures MaxPrecedence(P, precedence, items, S, tok, start, prec)
  {
    assert forall i :: i in S ==> items[i] == base[i];
  }

  /** A state whose kernel on `tok` is empty does not move over `tok`,
      read over any longer list, with the same precedence. */
  lemma NoKernel(P: seq<Production>, precedence: seq<int>, base: seq<LR0Item>, items: seq<LR0Item>,
                 S: set<int>, tok: int, start: int, prec: int)
    requires KernelOf(P, precedence, base, items, S, tok, {}, start, prec)
    ensures !Moves(P, items, S, tok)
    ensures MaxPrecedence(P, precedence, items, S, tok, start, prec)
  {
    assert forall i :: i in S ==> items[i] == base[i];
    PrecedenceGrows(P, precedence, base, items, S, tok, start, prec);
    MovesIff(P, base, S, tok);
    assert Moves(P, items, S, tok) ==> Moves(P, base, S, tok);
  }

  /** A state moves over `tok` exactly when it has advances over it. */
  lemma MovesIff(P: seq<Production>, base: seq<LR0Item>, S: set<int>, tok: int)
    ensures Moves(P, base, S, tok) <==> Advances(P, base, S, tok) != {}
  {
    if i :| i in S && 0 <= i < |base| && DotBefore(P, base[i], tok) {
      assert Advance(base[i]) in Advances(P, base, S, tok);
    }
  }

  /** A closed set stays closed, and its items found stay found, as the
      item list grows. */
  lemma ExpandedClosedGrows(P: seq<Production>, items: seq<LR0Item>, items': seq<LR0Item>, S: set<int>)
    requires items <= items' && Closed(P, items, S)
    ensures Closed(P, items', S)
    ensures forall it :: Has(items, S, it) ==> Has(items', S, it)
  {
    forall i | i in S ensures Expanded(P, items', S, i) {
      ExpandedGrows(P, items, items', S, S, i);
    }
    forall it | Has(items, S, it) ensures Has(items', S, it) {
      var j :| j in S && 0 <= j < |items| && items[j] == it;
      assert items'[j] == items[j];
    }
  }

  /** Substitutions found stay found as the item list grows and the set
      grows. */
  lemma ExpandedGrows(P: seq<Production>, items: seq<LR0Item>, items': seq<LR0Item>, S: set<int>, S': set<int>, i: int)
    requires items <= items' && S <= S'
    requires Expanded(P, items, S, i)
    ensures Expanded(P, items', S', i)
  {
    var it := items[i];
    if it.position < |P[it.production].right| {
      forall p | 0 <= p < |P| && P[p].left == P[it.production].right[it.position]
        ensures Has(items', S', LR0Item(p, 0))
      {
        var j :| j in S && 0 <= j < |items| && items[j] == LR0Item(p, 0);
        assert items'[j] == items[j];
      }
    }
  }

  /** An item a kernel keeps: its dot is past the start, or it is an item
      of a production of symbol 0. */
  ghost predicate InKernel(P: seq<Production>, it: LR0Item) {
    it.position != 0 || (0 <= it.production < |P| && P[it.production].left == 0)
  }

  /** `kernel` holds exactly the ids of `state` whose items a kernel keeps. */
  ghost predicate LalrKernel(P: seq<Production>, items: seq<LR0Item>, state: set<int>, kernel: set<int>) {
    forall i :: i in kernel <==> i in state && 0 <= i < |items| && InKernel(P, items[i])
  }

  /** The precedence a candidate action carries into the comparison: the
      goto precedence for a shift, the production's for a reduce. */
  function Rank(a: Action, shiftPrecedence: int, precedence: seq<int>): int {
    if a.actionType == Shift then shiftPrecedence
    else if a.actionType == Reduce && 0 <= a.actionParameter < |precedence| then precedence[a.actionParameter]
    else MinInt
  }

  /** `m` is the greatest precedence of the candidates. */
  ghost predicate IsTop(m: int, C: set<Action>, shiftPrecedence: int, precedence: seq<int>) {
    (forall a :: a in C ==> Rank(a, shiftPrecedence, precedence) <= m) &&
    (exists a :: a in C && Rank(a, shiftPrecedence, precedence) == m)
  }

  /** The candidates have one greatest precedence. */
  lemma TopUnique(m: int, m': int, C: set<Action>, shiftPrecedence: int, precedence: seq<int>)
    requires IsTop(m, C, shiftPrecedence, precedence) && IsTop(m', C, shiftPrecedence, precedence)
    ensures m == m'
  {
  }

  /** The candidates of greatest precedence. */
  ghost function Important(C: set<Action>, m: int, shiftPrecedence: int, precedence: seq<int>): set<Action> {
    set a | a in C && Rank(a, shiftPrecedence, precedence) == m
  }

  ghost function Reduces(I: set<Action>): set<Action> {
    set a | a in I && a.actionType == Reduce
  }

  /** The action of a cell whose token is `tok` and whose candidates are
      `C`: an error naming the token when there is none; the candidate of
      greatest precedence when only one has it; otherwise the derivation of
      that precedence's group decides — left-most takes a lone reduce,
      right-most takes the shift, and anything else is a conflict, a
      shift-reduce one only when the derivation is none and one reduce
      ties. */
  ghost predicate Resolved(cell: Action, tok: int, C: set<Action>, shiftPrecedence: int,
                           precedence: seq<int>, groups: seq<PrecedenceGroup>) {
    if C == {} then cell == Action(Error, tok)
    else exists m :: ResolvedAt(cell, tok, C, m, shiftPrecedence, precedence, groups)
  }

  /** The rule above for a nonempty `C` whose greatest precedence is `m`. */
  ghost predicate ResolvedAt(cell: Action, tok: int, C: set<Action>, m: int, shiftPrecedence: int,
                             precedence: seq<int>, groups: seq<PrecedenceGroup>) {
    IsTop(m, C, shiftPrecedence, precedence) &&
    var I := Important(C, m, shiftPrecedence, precedence);
    var R := Reduces(I);
    if |I| == 1 then cell in I
    else
      0 <= -m < |groups| &&
      var d := groups[-m].derivation;
      if d == LeftMost && |R| == 1 then cell in R
      else if d == RightMost && (exists a :: a in I && a.actionType == Shift) then
        cell in I && cell.actionType == Shift
      else cell == Action(if d == Derivation.None && |R| == 1 then ErrorSR else ErrorRR, tok)
  }

  /** Several candidates tie at the greatest precedence and that precedence,
      negated in 32-bit arithmetic, names no precedence group. */
  ghost predicate Unresolvable(C: set<Action>, shiftPrecedence: int, precedence: seq<int>, groups: seq<PrecedenceGroup>) {
    exists m :: IsTop(m, C, shiftPrecedence, precedence) &&
      |Important(C, m, shiftPrecedence, precedence)| > 1 &&
      (m == MinInt || !(0 <= -m < |groups|))
  }

  /** A one-element set has no other element. */
  lemma Singleton<T>(S: set<T>, a: T, b: T)
    requires |S| == 1 && a in S && b in S
    ensures a == b
  {
    if a != b {
      assert {a, b} <= S;
      assert |{a, b}| == 2;
      Collections.SubsetSize({a, b}, S);
    }
  }

  /** The cell's action is determined by its candidates: any two actions
      the rule allows for the same candidates, at most one of them a shift,
      are the same action. */
  lemma ResolvedUnique(c1: Action, c2: Action, tok: int, C: set<Action>, shiftPrecedence: int,
                       precedence: seq<int>, groups: seq<PrecedenceGroup>)
    requires forall a, b :: a in C && b in C && a.actionType == Shift && b.actionType == Shift ==> a == b
    requires Resolved(c1, tok, C, shiftPrecedence, precedence, groups)
    requires Resolved(c2, tok, C, shiftPrecedence, precedence, groups)
    ensures c1 == c2
  {
    if C != {} {
      var m1 :| ResolvedAt(c1, tok, C, m1, shiftPrecedence, precedence, groups);
      var m2 :| ResolvedAt(c2, tok, C, m2, shiftPrecedence, precedence, groups);
      var a1 :| a1 in C && Rank(a1, shiftPrecedence, precedence) == m1;
      var a2 :| a2 in C && Rank(a2, shiftPrecedence, precedence) == m2;
      assert m1 == m2;
      ResolvedAtUnique(c1, c2, tok, C, m1, shiftPrecedence, precedence, groups);
    }
  }

  /** At one top rank the resolution rules pick a single action. */
  lemma ResolvedAtUnique(c1: Action, c2: Action, tok: int, C: set<Action>, m: int, shiftPrecedence: int,
                         precedence: seq<int>, groups: seq<PrecedenceGroup>)
    requires forall a, b :: a in C && b in C && a.actionType == Shift && b.actionType == Shift ==> a == b
    requires ResolvedAt(c1, tok, C, m, shiftPrecedence, precedence, groups)
    requires ResolvedAt(c2, tok, C, m, shiftPrecedence, precedence, groups)
    ensures c1 == c2
  {
    var I := Important(C, m, shiftPrecedence, precedence);
    if |I| == 1 {
      Singleton(I, c1, c2);
    } else if groups[-m].derivation == LeftMost && |Reduces(I)| == 1 {
      Singleton(Reduces(I), c1, c2);
    }
  }

  /** An `Error` cell is exactly one without candidates, when every
      candidate is a shift or a reduce. */
  lemma ErrorExactlyWithoutCandidates(cell: Action, tok: int, C: set<Action>, shiftPrecedence: int,
                                      precedence: seq<int>, groups: seq<PrecedenceGroup>)
    requires forall a :: a in C ==> a.actionType == Shift || a.actionType == Reduce
    requires Resolved(cell, tok, C, shiftPrecedence, precedence, groups)
    ensures cell.actionType == Error <==> C == {}
  {
  }
}
