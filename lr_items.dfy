/** The value types of the table construction: LR(0) items, LR(1) items and
    lookahead propagation edges, each compared field by field. */
module LRItems {
  import opened Utf16

  /** A production with a dot before the symbol at `position` of its
      right-hand side. */
  datatype LR0Item = LR0Item(production: int, position: int)

  /** An interned LR(0) item paired with one lookahead symbol, -1 standing
      for the end-of-input marker (and, during construction, for "#"). */
  datatype LR1Item = LR1Item(lr0ItemId: int, lookAhead: int)

  /** A lookahead propagation edge: the LR(0) item and the state it targets,
      given to the constructor in that order. */
  datatype LALRPropogation = LALRPropogation(lr0TargetItem: int, lr0TargetState: int)

  /** `LR0Item.Equals`: same production and same position. */
  function LR0Equals(a: LR0Item, b: LR0Item): (r: bool)
    ensures r <==> a == b
    ensures r ==> LR0Hash(a) == LR0Hash(b)
  {
    a.production == b.production && a.position == b.position
  }

  /** `LR0Item.GetHashCode`: the production shifted left by 16, xor the position. */
  function LR0Hash(a: LR0Item): bv32 {
    (Bits(a.production) << 16) ^ Bits(a.position)
  }

  /** `LR1Item.Equals`: same LR(0) item id and same lookahead. */
  function LR1Equals(a: LR1Item, b: LR1Item): (r: bool)
    ensures r <==> a == b
    ensures r ==> LR1Hash(a) == LR1Hash(b)
  {
    a.lr0ItemId == b.lr0ItemId && a.lookAhead == b.lookAhead
  }

  /** `LR1Item.GetHashCode`: the item id shifted left by 16, xor the lookahead. */
  function LR1Hash(a: LR1Item): bv32 {
    (Bits(a.lr0ItemId) << 16) ^ Bits(a.lookAhead)
  }

  /** `LALRPropogation.Equals`: same target item and same target state. */
  function PropogationEquals(a: LALRPropogation, b: LALRPropogation): (r: bool)
    ensures r <==> a == b
    ensures r ==> PropogationHash(a) == PropogationHash(b)
  {
    a.lr0TargetItem == b.lr0TargetItem && a.lr0TargetState == b.lr0TargetState
  }

  /** `LALRPropogation.GetHashCode`: the state shifted left by 16, xor the item. */
  function PropogationHash(a: LALRPropogation): bv32 {
    (Bits(a.lr0TargetState) << 16) ^ Bits(a.lr0TargetItem)
  }
}
