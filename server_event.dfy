/**
 * A decoded autosplit event: an action and a nanosecond stamp, built by one
 * of the three ServerEvent constructors. The getters getAction and
 * getNanoTime are the datatype's own field selectors `action` and `nanoTime`.
 */
module AutosplitEvent {
  import opened JavaText
  import opened AutosplitAction

  datatype ServerEvent = ServerEvent(action: ServerAction, nanoTime: Int64)

  /** new ServerEvent(): the event that asks for nothing. */
  function Empty(): (e: ServerEvent)
    ensures e.action == DoNothing && e.nanoTime == 0
  {
    ServerEvent(DoNothing, 0)
  }

  /**
   * new ServerEvent(code): 4 ends the run and 5 resets it; every other code
   * asks for nothing. The stamp is always zero.
   */
  function FromCode(code: Int32): (e: ServerEvent)
    ensures e.nanoTime == 0
    ensures e.action == End <==> code == 4
    ensures e.action == Reset <==> code == 5
    ensures e.action == End || e.action == Reset || e.action == DoNothing
  {
    match code
    case 4 => ServerEvent(End, 0)
    case 5 => ServerEvent(Reset, 0)
    case _ => ServerEvent(DoNothing, 0)
  }

  /**
   * new ServerEvent(code, time): 1, 3, 6 and 7 start, split, pause and
   * resume at `time`; every other code asks for nothing and the stamp is
   * forced back to zero.
   */
  function FromCodeAndTime(code: Int32, time: Int64): (e: ServerEvent)
    ensures e.action == Start <==> code == 1
    ensures e.action == Split <==> code == 3
    ensures e.action == Pause <==> code == 6
    ensures e.action == Resume <==> code == 7
    ensures e.action == DoNothing <==> !(code == 1 || code == 3 || code == 6 || code == 7)
    ensures e.nanoTime == (if e.action == DoNothing then 0 else time)
  {
    match code
    case 1 => ServerEvent(Start, time)
    case 3 => ServerEvent(Split, time)
    case 6 => ServerEvent(Pause, time)
    case 7 => ServerEvent(Resume, time)
    case _ => ServerEvent(DoNothing, 0)
  }

  /** The wire code that the two-argument constructor turns into `a`, if there is one. */
  function TimedCode(a: ServerAction): (c: Option<Int32>)
    ensures c.Some? <==> NeedsTime(a)
  {
    match a
    case Start => Some(1)
    case Split => Some(3)
    case Pause => Some(6)
    case Resume => Some(7)
    case _ => None
  }

  /** Each timed action is reached from its code, and the time survives unchanged. */
  lemma TimedCodeRoundTrip(a: ServerAction, time: Int64)
    requires NeedsTime(a)
    ensures TimedCode(a).Some? && FromCodeAndTime(TimedCode(a).value, time) == ServerEvent(a, time)
  {
  }

  /** The code that produced a real action is the only one that produces it. */
  lemma TimedCodeIsUnique(code: Int32, time: Int64)
    ensures FromCodeAndTime(code, time).action != DoNothing
        ==> TimedCode(FromCodeAndTime(code, time).action) == Some(code)
  {
  }

  /**
   * The two-argument constructor keeps the time exactly for the actions the
   * enum marks as timed, and produces no other action but DO_NOTHING.
   */
  lemma TimedActionsKeepTime(code: Int32, time: Int64)
    ensures var e := FromCodeAndTime(code, time);
      (e.action == DoNothing || NeedsTime(e.action)) && (NeedsTime(e.action) ==> e.nanoTime == time)
  {
  }

  /** Whatever the constructor, an event that asks for nothing carries no time. */
  lemma DoNothingCarriesNoTime(code: Int32, time: Int64)
    ensures Empty().nanoTime == 0
    ensures FromCode(code).action == DoNothing ==> FromCode(code).nanoTime == 0
    ensures FromCodeAndTime(code, time).action == DoNothing ==> FromCodeAndTime(code, time).nanoTime == 0
  {
  }

  /** RESTART is declared but no constructor produces it. */
  lemma RestartIsUnreachable(code: Int32, time: Int64)
    ensures Empty().action != Restart
    ensures FromCode(code).action != Restart
    ensures FromCodeAndTime(code, time).action != Restart
  {
  }
}
