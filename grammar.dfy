/** A grammar as the parser generator receives it: symbol names, and
    productions grouped by precedence, each group with the derivation that
    settles conflicts inside it. */
module Grammars {
  import Wrappers
  import Items
  import Contents
  import Utf16

  /** How a conflict between equally ranked actions is settled. */
  datatype Derivation = None | LeftMost | RightMost

  /** The rewriter delegate: given the production's left symbol and the
      reduced items, some object (null included). */
  type Rewriter = (int, seq<Items.Item>) -> Contents.Obj

  /** A production `left -> right`, with an optional rewriter. */
  datatype Production = Production(left: int, right: seq<int>, rewriter: Wrappers.Option<Rewriter>) {
    /** `Rewrite`: null without a rewriter, otherwise what the rewriter
        makes of the left symbol and the children. */
    function Rewrite(children: seq<Items.Item>): (r: Contents.Obj)
      ensures rewriter.None? ==> r == Contents.Null
      ensures rewriter.Some? ==> r == rewriter.value(left, children)
    {
      if rewriter.Some? then rewriter.value(left, children) else Contents.Null
    }
  }

  /** `Production(left, right...)`: the symbols stored as given, with no
      rewriter (so that `Rewrite` gives null). */
  function Plain(left: int, right: seq<int>): (p: Production)
    ensures p.left == left && p.right == right && p.rewriter.None?
  {
    Production(left, right, Wrappers.None)
  }

  /** A group of productions sharing one precedence, in the order given. */
  datatype PrecedenceGroup = PrecedenceGroup(derivation: Derivation, productions: seq<Production>)

  /** A symbol: its number and its display name, equal by number alone. */
  datatype SymbolName = SymbolName(id: int, name: Utf16.Str)

  function SymbolEquals(a: SymbolName, b: SymbolName): (r: bool)
    ensures r <==> a.id == b.id
    ensures r ==> SymbolHash(a) == SymbolHash(b)
  {
    a.id == b.id
  }

  function SymbolHash(a: SymbolName): int {
    a.id
  }

  datatype Grammar = Grammar(symbolNames: seq<SymbolName>, precedenceGroups: seq<PrecedenceGroup>)

  /** `AsSymbolNames`: each name paired with its index. */
  function AsSymbolNames(names: seq<Utf16.Str>): (r: seq<SymbolName>)
    ensures |r| == |names|
    ensures forall i :: 0 <= i < |r| ==> r[i].id == i && r[i].name == names[i]
  {
    seq(|names|, i requires 0 <= i < |names| => SymbolName(i, names[i]))
  }

  /** `Grammar(string[], groups...)`: the names numbered by position. */
  function FromNames(names: seq<Utf16.Str>, groups: seq<PrecedenceGroup>): (g: Grammar)
    ensures |g.symbolNames| == |names| && g.precedenceGroups == groups
    ensures forall i :: 0 <= i < |names| ==> g.symbolNames[i] == SymbolName(i, names[i])
  {
    Grammar(AsSymbolNames(names), groups)
  }

  /** The productions of all groups, group after group, each in its own
      order: the production table. */
  function AllProductions(groups: seq<PrecedenceGroup>): seq<Production> {
    if groups == [] then []
    else AllProductions(groups[..|groups| - 1]) + groups[|groups| - 1].productions
  }

  /** The precedence of each production of the table: 0 for the first
      group, -1 for the second, and so on. */
  function Precedences(groups: seq<PrecedenceGroup>): seq<int> {
    if groups == [] then []
    else
      var k := |groups| - 1;
      Precedences(groups[..k]) + seq(|groups[k].productions|, _ => -k)
  }

  /** The derivation of each production of the table: its group's. */
  function Derivations(groups: seq<PrecedenceGroup>): seq<Derivation> {
    if groups == [] then []
    else
      var k := |groups| - 1;
      Derivations(groups[..k]) + seq(|groups[k].productions|, _ => groups[k].derivation)
  }

  /** Where group `k`'s productions start in the table. */
  function Offset(groups: seq<PrecedenceGroup>, k: nat): nat
    requires k <= |groups|
  {
    if k == 0 then 0 else Offset(groups, k - 1) + |groups[k - 1].productions|
  }

  /** Group `k`'s `j`-th production sits at `Offset(k) + j` of the table,
      with precedence `-k` and the group's derivation. */
  ghost predicate Listed(groups: seq<PrecedenceGroup>, k: int, j: int)
    requires 0 <= k < |groups| && 0 <= j < |groups[k].productions|
  {
    var i := Offset(groups, k) + j;
    i < |AllProductions(groups)| && i < |Precedences(groups)| && i < |Derivations(groups)| &&
    AllProductions(groups)[i] == groups[k].productions[j] &&
    Precedences(groups)[i] == -k &&
    Derivations(groups)[i] == groups[k].derivation
  }

  /** The table lists every production of every group where `Listed`
      says, and is exactly as long as all groups together. */
  lemma ProductionTable(groups: seq<PrecedenceGroup>)
    ensures |AllProductions(groups)| == |Precedences(groups)| == |Derivations(groups)| == Offset(groups, |groups|)
    ensures forall k, j :: 0 <= k < |groups| && 0 <= j < |groups[k].productions| ==> Listed(groups, k, j)
  {
    TableLength(groups);
    forall k, j | 0 <= k < |groups| && 0 <= j < |groups[k].productions|
      ensures Listed(groups, k, j)
    {
      ProductionAt(groups, k, j);
    }
  }

  lemma {:induction false} TableLength(groups: seq<PrecedenceGroup>)
    ensures |AllProductions(groups)| == |Precedences(groups)| == |Derivations(groups)| == Offset(groups, |groups|)
  {
    if groups != [] {
      var n := |groups| - 1;
      TableLength(groups[..n]);
      OffsetPrefix(groups, n);
    }
  }

  lemma {:induction false} ProductionAt(groups: seq<PrecedenceGroup>, k: int, j: int)
    requires 0 <= k < |groups| && 0 <= j < |groups[k].productions|
    ensures Listed(groups, k, j)
  {
    var n := |groups| - 1;
    var front := groups[..n];
    TableLength(groups);
    TableLength(front);
    OffsetPrefix(groups, n);
    if k < n {
      ProductionAt(front, k, j);
      assert front[k] == groups[k];
    }
  }

  /** A prefix of the groups starts its groups where the whole does. */
  lemma {:induction false} OffsetPrefix(groups: seq<PrecedenceGroup>, n: nat)
    requires n <= |groups|
    ensures forall k :: 0 <= k <= n ==> Offset(groups[..n], k) == Offset(groups, k)
  {
    forall k | 0 <= k <= n
      ensures Offset(groups[..n], k) == Offset(groups, k)
    {
      var j := 0;
      while j < k
        invariant j <= k
        invariant Offset(groups[..n], j) == Offset(groups, j)
      {
        j := j + 1;
      }
    }
  }

  lemma {:induction false} OffsetMonotone(groups: seq<PrecedenceGroup>, a: nat, b: nat)
    requires a <= b <= |groups|
    ensures Offset(groups, a) <= Offset(groups, b)
    decreases b - a
  {
    if a < b {
      OffsetMonotone(groups, a + 1, b);
    }
  }

  /** Every entry of the table belongs to a group: its precedence is minus
      that group's index, and its derivation is that group's. */
  lemma {:induction false} GroupOfEntry(groups: seq<PrecedenceGroup>, i: int)
    requires 0 <= i < |Precedences(groups)|
    ensures 0 <= -Precedences(groups)[i] < |groups|
    ensures |Derivations(groups)| == |Precedences(groups)|
    ensures Derivations(groups)[i] == groups[-Precedences(groups)[i]].derivation
  {
    var n := |groups| - 1;
    TableLength(groups);
    TableLength(groups[..n]);
    if i < |Precedences(groups[..n])| {
      GroupOfEntry(groups[..n], i);
      assert groups[..n][-Precedences(groups)[i]] == groups[-Precedences(groups)[i]];
    }
  }
}
