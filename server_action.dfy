/**
 * The vocabulary of control actions an autosplit message can carry
 * (the ServerAction enum), in declaration order.
 */
module AutosplitAction {

  datatype ServerAction = DoNothing | Start | Restart | Split | End | Reset | Pause | Resume

  /** The number of constants the enum declares. */
  const ActionCount: nat := 8

  /** Enum.values(): the constants in declaration order. */
  function Values(): (vs: seq<ServerAction>)
    ensures |vs| == ActionCount
  {
    [DoNothing, Start, Restart, Split, End, Reset, Pause, Resume]
  }

  /** Enum.ordinal(): the position of a constant in the declaration. */
  function Ordinal(a: ServerAction): (n: nat)
    ensures n < ActionCount
    ensures Values()[n] == a
  {
    match a
    case DoNothing => 0
    case Start => 1
    case Restart => 2
    case Split => 3
    case End => 4
    case Reset => 5
    case Pause => 6
    case Resume => 7
  }

  /** Every position of Values() holds the constant with that ordinal, so no constant appears twice. */
  lemma ValuesAreOrdered(n: nat)
    requires n < ActionCount
    ensures Ordinal(Values()[n]) == n
  {
  }

  /** The fallback constant is the first one declared. */
  lemma DoNothingIsFirst()
    ensures Ordinal(DoNothing) == 0 && Values()[0] == DoNothing
  {
  }

  /**
   * The actions the enum's comments mark as carrying a time stamp
   * (START, SPLIT, PAUSE and RESUME).
   */
  predicate NeedsTime(a: ServerAction)
  {
    a == Start || a == Split || a == Pause || a == Resume
  }
}
