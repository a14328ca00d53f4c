/** The parse table: one action per state and per symbol column, the first
    column standing for the end of input. */
module ParseTables {
  import opened Utf16

  /** What the driver does in a cell. */
  datatype ActionType = Error | ErrorRR | ErrorSR | Reduce | Shift

  /** The enum's underlying byte value, in declaration order. */
  function Code(t: ActionType): (c: nat)
    ensures c < 5
  {
    match t
    case Error => 0
    case ErrorRR => 1
    case ErrorSR => 2
    case Reduce => 3
    case Shift => 4
  }

  /** A table entry: the action and its parameter (the target state of a
      shift, the production of a reduce, the symbol of an error). */
  datatype Action = Action(actionType: ActionType, actionParameter: int)

  /** `Action.Equals`: same type and same parameter. */
  function Equals(a: Action, b: Action): (r: bool)
    ensures r <==> a == b
    ensures r ==> Hash(a) == Hash(b)
  {
    a.actionType == b.actionType && a.actionParameter == b.actionParameter
  }

  /** `Action.GetHashCode`: the type code shifted left by 24, xor the parameter. */
  function Hash(a: Action): bv32 {
    (Bits(Code(a.actionType)) << 24) ^ Bits(a.actionParameter)
  }

  /** The table of a built parser: a two-dimensional array of actions,
      states along the first dimension and symbol columns along the second. */
  class ParseTable {
    var actions: array2?<Action>

    constructor ()
      ensures actions == null
    {
      actions := null;
    }

    /** `States`: the first dimension of the actions. */
    function States(): nat
      requires actions != null
      reads this
    {
      actions.Length0
    }

    /** `Tokens`: the second dimension of the actions. */
    function Tokens(): nat
      requires actions != null
      reads this
    {
      actions.Length1
    }
  }
}
