/**
 * The autosplit listener: the decoder that turns one text line into a
 * ServerEvent (Server.processMessage) and the read loop that forwards the
 * decoded events of one connection (Server.run), with the stop flag that
 * ends it. The socket and the Scanner are replaced by the sequence of lines
 * the peer sends; the calls into the Actions object are replaced by the
 * sequence of notices the loop emits.
 */
module AutosplitServer {
  import opened JavaText
  import opened AutosplitAction
  import opened AutosplitEvent

  /** What processMessage does with a line: returns an event, or throws ArrayIndexOutOfBoundsException. */
  datatype Outcome = Returned(event: ServerEvent) | ArrayIndexOutOfBounds

  const Colon: char := ':'
  const Nul: char := 0 as char

  /**
   * The upstream-artifact workaround on the code field: a field longer than
   * one character that starts with NUL is replaced by its second character
   * alone.
   */
  function StripNul(field: string): string
  {
    if |field| > 1 && field[0] == Nul then [field[1]] else field
  }

  /**
   * Server.processMessage: a line of length 0 or 1 asks for nothing;
   * otherwise the line is split on ':', field 0 (after the NUL workaround)
   * is parsed as an int code and field 1 as a long stamp, and the pair goes
   * to the two-argument ServerEvent constructor. A parse failure is caught
   * and gives the empty event; a missing field 0 or field 1 is not caught.
   */
  function ProcessMessage(message: string): (r: Outcome)
    ensures |message| <= 1 ==> r == Returned(Empty())
    ensures r.Returned? ==> r.event.action != End && r.event.action != Reset && r.event.action != Restart
    ensures r.Returned? && r.event.action == DoNothing ==> r.event.nanoTime == 0
    ensures r.ArrayIndexOutOfBounds? ==> |message| >= 2 && |SplitOn(message, Colon)| <= 1
  {
    if |message| == 0 || |message| == 1 then Returned(Empty())
    else
      var parts := SplitOn(message, Colon);
      if |parts| == 0 then ArrayIndexOutOfBounds
      else
        match ParseInt(StripNul(parts[0]))
        case None => Returned(Empty())
        case Some(code) =>
          if |parts| < 2 then ArrayIndexOutOfBounds
          else
            match ParseLong(parts[1])
            case None => Returned(Empty())
            case Some(nano) => Returned(FromCodeAndTime(code, nano))
  }

  /**
   * Any field 0 that parses as an int after the NUL workaround, followed by
   * a colon and a field 1 that parses as a long, decodes to the
   * two-argument constructor's event for those two values.
   */
  lemma DecodeFields(code: string, stamp: string)
    requires Colon !in code && Colon !in stamp && stamp != ""
    requires ParseInt(StripNul(code)).Some? && ParseLong(stamp).Some?
    ensures ProcessMessage(code + [Colon] + stamp)
         == Returned(FromCodeAndTime(ParseInt(StripNul(code)).value, ParseLong(stamp).value))
  {
    SplitPair(code, stamp, Colon);
  }

  /** Fields after the second are ignored: "c:t:anything" decodes like "c:t", whatever c and t hold. */
  lemma ExtraFieldsIgnored(code: string, stamp: string, rest: string)
    requires Colon !in code && Colon !in stamp && stamp != ""
    ensures ProcessMessage(code + [Colon] + stamp + [Colon] + rest) == ProcessMessage(code + [Colon] + stamp)
  {
    SplitFirstTwo(code, stamp, rest, Colon);
    SplitPair(code, stamp, Colon);
  }

  /**
   * An empty field 1 followed by a field that is not empty, as in "1::5",
   * "a::5" or "1:::5", asks for nothing: either field 0 does not parse, or
   * Long.parseLong fails on the empty field 1. Either failure is caught.
   */
  lemma EmptyStampDoesNothing(code: string, rest: string, j: nat)
    requires Colon !in code && j < |rest| && rest[j] != Colon
    ensures ProcessMessage(code + [Colon, Colon] + rest) == Returned(Empty())
  {
    SplitEmptySecond(code, rest, j, Colon);
  }

  /** Width of the stamp in the message shape "c:0000000000000". */
  const StampWidth: nat := 13

  /** The stamp field: a non-negative stamp zero-padded to StampWidth digits, a negative one as plain decimal text. */
  function StampText(nanoTime: Int64): (t: string)
    ensures t != "" && Colon !in t
    ensures nanoTime >= 0 ==> |t| >= StampWidth && forall i :: 0 <= i < |t| ==> IsDigit(t[i])
  {
    var d := DecimalText(nanoTime);
    if nanoTime >= 0 && |d| < StampWidth then Zeros(StampWidth - |d|) + d else d
  }

  /** The padding is read back as the stamp it pads. */
  lemma ParseStampText(nanoTime: Int64)
    ensures ParseLong(StampText(nanoTime)) == Some(nanoTime)
  {
    var d := DecimalText(nanoTime);
    ParseLongOfText(nanoTime);
    if nanoTime >= 0 && |d| < StampWidth {
      LeadingZerosIgnored(StampWidth - |d|, d, MinLong, MaxLong);
    }
  }

  /** A message in the shape "c:0000000000000": the code, a colon, the padded stamp. */
  function FormatMessage(code: Int32, nanoTime: Int64): (m: string)
    ensures SplitOn(m, Colon) == [DecimalText(code), StampText(nanoTime)]
    ensures nanoTime >= 0 ==> |m| >= StampWidth + 2
  {
    SplitPair(DecimalText(code), StampText(nanoTime), Colon);
    DecimalText(code) + [Colon] + StampText(nanoTime)
  }

  /** Every message in that shape decodes to the two-argument constructor's event for its code and stamp. */
  lemma DecodeFormatted(code: Int32, nanoTime: Int64)
    ensures ProcessMessage(FormatMessage(code, nanoTime)) == Returned(FromCodeAndTime(code, nanoTime))
  {
    ParseIntOfText(code);
    ParseStampText(nanoTime);
    DecodeFields(DecimalText(code), StampText(nanoTime));
  }

  /** The stamp 500 is padded with ten zeros to the width of the message shape. */
  lemma PaddedStartText()
    ensures FormatMessage(1, 500) == "1:0000000000500"
  {
    assert DecimalText(500) == "500";
    assert StampText(500) == "0000000000500";
  }

  /** The example line of the message shape: code 1 with a padded stamp starts the run at that stamp. */
  lemma PaddedStartMessage()
    ensures ProcessMessage("1:0000000000500") == Returned(ServerEvent(Start, 500))
  {
    PaddedStartText();
    DecodeFormatted(1, 500);
  }

  /** Integer.parseInt and Long.parseLong take a leading '+', so "+1:+500" starts the run at 500 too. */
  lemma PlusSignedMessage()
    ensures ProcessMessage("+1:+500") == Returned(ServerEvent(Start, 500))
  {
    PlusSignIgnored("1", MinInt, MaxInt);
    PlusSignIgnored("500", MinLong, MaxLong);
    assert Decimal("500") == 500;
    assert Decimal("1") == 1;
    assert "+1:+500" == "+1" + [Colon] + "+500";
    DecodeFields("+1", "+500");
  }

  /** Codes 4 and 5 go through the two-argument constructor too, so they ask for nothing. */
  lemma EndAndResetCodesDoNothing(nanoTime: Int64)
    ensures ProcessMessage(FormatMessage(4, nanoTime)) == Returned(Empty())
    ensures ProcessMessage(FormatMessage(5, nanoTime)) == Returned(Empty())
  {
    DecodeFormatted(4, nanoTime);
    DecodeFormatted(5, nanoTime);
  }

  /**
   * The NUL workaround keeps only the character after the NUL: whatever
   * else the first field holds is dropped, so NUL "12:5" decodes code 1.
   */
  lemma NulKeepsSecondCharOnly(d: char, tail: string, nanoTime: Int64)
    requires IsDigit(d) && Colon !in tail
    ensures ProcessMessage([Nul, d] + tail + [Colon] + DecimalText(nanoTime))
         == Returned(FromCodeAndTime(DigitValue(d), nanoTime))
  {
    var f, t := [Nul, d] + tail, DecimalText(nanoTime);
    assert [Nul, d] + tail + [Colon] + t == f + [Colon] + t;
    SplitPair(f, t, Colon);
    var digit := [d];
    assert StripNul(f) == digit;
    assert Magnitude(digit) == digit && digit[..0] == "";
    assert DigitsValue(digit) == Some(DigitValue(d));
    assert ParseInteger(digit, MinInt, MaxInt) == Some(DigitValue(d) as int);
    ParseLongOfText(nanoTime);
  }

  /** A line made only of colons leaves no field 0, which throws. */
  lemma OnlyColonsThrow(message: string)
    requires |message| >= 2
    requires forall i :: 0 <= i < |message| ==> message[i] == Colon
    ensures ProcessMessage(message) == ArrayIndexOutOfBounds
  {
    SplitEmptyIff(message, Colon);
  }

  /** A single numeric field, with or without trailing colons, has no field 1, which throws. */
  lemma BareCodeThrows(field: string, colons: nat)
    requires |field| > 0 && Colon !in field
    requires ParseInt(StripNul(field)).Some?
    requires |field| + colons >= 2
    ensures ProcessMessage(field + seq(colons, _ => Colon)) == ArrayIndexOutOfBounds
  {
    SplitTrailingSeparators(field, colons, Colon);
  }

  /** A single field that is not a number, with or without trailing colons, asks for nothing: the parse failure is caught first. */
  lemma BareWordDoesNothing(field: string, colons: nat)
    requires |field| > 0 && Colon !in field
    requires ParseInt(StripNul(field)).None?
    requires |field| + colons >= 2
    ensures ProcessMessage(field + seq(colons, _ => Colon)) == Returned(Empty())
  {
    SplitTrailingSeparators(field, colons, Colon);
  }

  /** A code or stamp that Java cannot parse is absorbed into the empty event. */
  lemma UnparsableFieldsDoNothing(code: string, stamp: string)
    requires Colon !in code && Colon !in stamp && stamp != ""
    requires ParseInt(StripNul(code)).None? || ParseLong(stamp).None?
    ensures ProcessMessage(code + [Colon] + stamp) == Returned(Empty())
  {
    SplitPair(code, stamp, Colon);
  }

  // ------------------------------------------------------------- read loop

  /** The exit test of the read loop: the line, lower-cased and trimmed, is "exit". */
  predicate IsExitLine(line: string)
  {
    Trim(ToLowerAscii(line)) == "exit"
  }

  /** A line that passes the exit test has only white space around the letters of "exit". */
  lemma ExitLineShape(line: string) returns (a: nat)
    requires IsExitLine(line)
    ensures a + 4 <= |line|
    ensures forall i :: 0 <= i < |line| ==> (a <= i < a + 4 || IsTrimmed(line[i]))
    ensures forall i :: a <= i < a + 4 ==> LowerAscii(line[i]) == "exit"[i - a]
  {
    var low := ToLowerAscii(line);
    var front := TrimStart(low);
    var mid := TrimEnd(front);
    TrimStartShape(low);
    TrimEndShape(front);
    a := |low| - |front|;
    assert mid == low[a..a + 4];
    forall i | 0 <= i < |line| && !(a <= i < a + 4)
      ensures IsTrimmed(line[i])
    {
      ToLowerAsciiAt(line, i);
      if i < a {
        assert IsTrimmed(low[i]);
      } else {
        assert IsTrimmed(front[i - a]);
      }
    }
    forall i | a <= i < a + 4 ensures LowerAscii(line[i]) == "exit"[i - a] {
      ToLowerAsciiAt(line, i);
      assert low[i] == mid[i - a];
    }
  }

  /** Conversely, the letters of "exit" in any case with only white space around them pass the exit test. */
  lemma ExitLineFromShape(line: string, a: nat)
    requires a + 4 <= |line|
    requires forall i :: 0 <= i < |line| ==> (a <= i < a + 4 || IsTrimmed(line[i]))
    requires forall i :: a <= i < a + 4 ==> LowerAscii(line[i]) == "exit"[i - a]
    ensures IsExitLine(line)
  {
    var low := ToLowerAscii(line);
    forall i | 0 <= i < |low| ensures low[i] == (if a <= i < a + 4 then "exit"[i - a] else line[i]) {
      ToLowerAsciiAt(line, i);
    }
    var front := TrimStart(low);
    TrimStartShape(low);
    var k := |low| - |front|;
    assert !IsTrimmed(low[a]);
    assert k == a;
    var mid := TrimEnd(front);
    TrimEndShape(front);
    assert !IsTrimmed(front[3]);
    assert |mid| == 4;
    assert mid == low[a..a + 4];
  }

  /** The line "exit" (any case, any surrounding white space) decodes to the empty event. */
  lemma ExitLineDoesNothing(line: string)
    requires IsExitLine(line)
    ensures ProcessMessage(line) == Returned(Empty())
  {
    var a := ExitLineShape(line);
    assert forall i :: 0 <= i < |line| ==> line[i] != Colon;
    var field := StripNul(line);
    if |line| > 1 && line[0] == Nul {
      assert a >= 1;
      assert field == [line[1]];
      ParseRejectsForeignChar(field, 0, MinInt, MaxInt);
    } else {
      ParseRejectsForeignChar(field, a, MinInt, MaxInt);
    }
  }

  /** What the listener reports to the Actions object. */
  datatype Notice = Connected | Forwarded(event: ServerEvent) | Disconnected

  /** Why the read loop stopped. */
  datatype Ending = Exhausted | ExitRequested | Stopped | Crashed

  /** The notices of one connection, the number of lines read, and why reading ended. */
  datatype Session = Session(notices: seq<Notice>, consumed: nat, ending: Ending)

  /** A line as the read loop sees it: what processMessage makes of it, and whether it asks to exit. */
  datatype Line = Line(outcome: Outcome, exit: bool)

  function Scan(line: string): Line
  {
    Line(ProcessMessage(line), IsExitLine(line))
  }

  /** Each line of the stream as the loop sees it. */
  function ScanAll(lines: seq<string>): (ls: seq<Line>)
    ensures |ls| == |lines|
  {
    seq(|lines|, k requires 0 <= k < |lines| => Scan(lines[k]))
  }

  /** Line k of the stream is seen as what Scan makes of the k-th text line. */
  lemma ScanAllAt(lines: seq<string>, k: nat)
    requires k < |lines|
    ensures ScanAll(lines)[k] == Scan(lines[k])
  {
  }

  /** Reads line i of the stream: what processMessage makes of it, and whether it is "exit". */
  method ReadLine(lines: seq<string>, i: nat) returns (outcome: Outcome, exit: bool)
    requires i < |lines|
    ensures Line(outcome, exit) == ScanAll(lines)[i]
  {
    outcome := ProcessMessage(lines[i]);
    exit := IsExitLine(lines[i]);
  }

  /** The event a line is forwarded as (a throwing line is never forwarded). */
  function EventOf(l: Line): ServerEvent
  {
    if l.outcome.Returned? then l.outcome.event else Empty()
  }

  /** One Forwarded notice per line, in order. */
  function Forwards(ls: seq<Line>): (ns: seq<Notice>)
    ensures |ns| == |ls|
  {
    if |ls| == 0 then [] else [Forwarded(EventOf(ls[0]))] + Forwards(ls[1..])
  }

  lemma {:induction false} ForwardsAreEvents(ls: seq<Line>)
    ensures forall k :: 0 <= k < |ls| ==> Forwards(ls)[k] == Forwarded(EventOf(ls[k]))
  {
    if |ls| > 0 {
      ForwardsAreEvents(ls[1..]);
    }
  }

  /**
   * The while loop of Server.run from the point where `i` lines have been
   * read. The stop flag is observed set at the loop test once `stopAt`
   * lines have been read (a `stopAt` beyond the last line means doStop() is
   * not called while the loop runs). Each line is decoded and forwarded,
   * then compared with "exit".
   */
  function ReadLoop(ls: seq<Line>, stopAt: nat, i: nat): (s: Session)
    requires i <= |ls|
    ensures i <= s.consumed <= |ls|
    decreases |ls| - i
  {
    if stopAt <= i then Session([], i, Stopped)
    else if i == |ls| then Session([], i, Exhausted)
    else if ls[i].outcome.ArrayIndexOutOfBounds? then Session([], i + 1, Crashed)
    else if ls[i].exit then Session([Forwarded(ls[i].outcome.event), Disconnected], i + 1, ExitRequested)
    else
      var rest := ReadLoop(ls, stopAt, i + 1);
      Session([Forwarded(ls[i].outcome.event)] + rest.notices, rest.consumed, rest.ending)
  }

  /** One turn of the read loop, stated on the scanned line. */
  lemma ReadLoopTurn(ls: seq<Line>, stopAt: nat, i: nat)
    requires i < |ls| && i < stopAt
    ensures var here := ReadLoop(ls, stopAt, i);
      var rest := ReadLoop(ls, stopAt, i + 1);
      if ls[i].outcome.ArrayIndexOutOfBounds? then here == Session([], i + 1, Crashed)
      else if ls[i].exit then here == Session([Forwarded(ls[i].outcome.event)] + [Disconnected], i + 1, ExitRequested)
      else here == Session([Forwarded(ls[i].outcome.event)] + rest.notices, rest.consumed, rest.ending)
  {
  }

  /** One turn of the read loop, stated on the text of the line. */
  lemma ReadLoopStep(lines: seq<string>, stopAt: nat, i: nat)
    requires i < |lines| && i < stopAt
    ensures var o := ProcessMessage(lines[i]);
      var here := ReadLoop(ScanAll(lines), stopAt, i);
      var rest := ReadLoop(ScanAll(lines), stopAt, i + 1);
      if o.ArrayIndexOutOfBounds? then here == Session([], i + 1, Crashed)
      else if IsExitLine(lines[i]) then here == Session([Forwarded(o.event)] + [Disconnected], i + 1, ExitRequested)
      else here == Session([Forwarded(o.event)] + rest.notices, rest.consumed, rest.ending)
  {
    ScanAllAt(lines, i);
    ReadLoopTurn(ScanAll(lines), stopAt, i);
  }

  /**
   * Server.run after the accept: "connected", the read loop, then one more
   * "disconnected" when no line is left unread. An exception out of
   * processMessage leaves run() before that last test.
   */
  function Listen(ls: seq<Line>, stopAt: nat): (s: Session)
    ensures s.consumed <= |ls| && s.consumed <= stopAt
    ensures |s.notices| >= 1 && s.notices[0] == Connected
  {
    ReadLoopEnding(ls, stopAt, 0);
    var loop := ReadLoop(ls, stopAt, 0);
    var tail := if loop.ending != Crashed && loop.consumed == |ls| then [Disconnected] else [];
    Session([Connected] + loop.notices + tail, loop.consumed, loop.ending)
  }

  /** The lines that were read and forwarded: the last read line is not forwarded when it threw. */
  function ForwardedCount(s: Session): nat
  {
    if s.ending == Crashed && s.consumed > 0 then s.consumed - 1 else s.consumed
  }

  /** Why the read loop, started at line `i`, ended, and which lines it read on the way. */
  lemma {:induction false} ReadLoopEnding(ls: seq<Line>, stopAt: nat, i: nat)
    requires i <= |ls|
    decreases |ls| - i
    ensures var s := ReadLoop(ls, stopAt, i);
      && (s.ending == Crashed ==> s.consumed > i && ls[s.consumed - 1].outcome.ArrayIndexOutOfBounds?)
      && (s.ending == ExitRequested ==> s.consumed > i && ls[s.consumed - 1].exit)
      && (s.ending == Exhausted ==> s.consumed == |ls| < stopAt)
      && (s.ending == Stopped ==> s.consumed == (if stopAt <= i then i else stopAt))
      && (s.ending != Stopped ==> s.consumed <= stopAt)
      && (forall j :: i <= j < ForwardedCount(s) ==> ls[j].outcome.Returned?)
      && (forall j :: i <= j < ForwardedCount(s) && (j + 1 < s.consumed || s.ending != ExitRequested) ==> !ls[j].exit)
  {
    if !(stopAt <= i || i == |ls| || ls[i].outcome.ArrayIndexOutOfBounds? || ls[i].exit) {
      ReadLoopEnding(ls, stopAt, i + 1);
    }
  }

  /** The notices of the read loop started at line `i`: one per forwarded line, and "disconnected" after "exit". */
  lemma {:induction false} ReadLoopNotices(ls: seq<Line>, stopAt: nat, i: nat)
    requires i <= |ls|
    decreases |ls| - i
    ensures var s := ReadLoop(ls, stopAt, i);
      i <= ForwardedCount(s)
      && s.notices == Forwards(ls[i..ForwardedCount(s)]) + (if s.ending == ExitRequested then [Disconnected] else [])
  {
    if stopAt <= i || i == |ls| || ls[i].outcome.ArrayIndexOutOfBounds? {
      assert ls[i..i] == [];
    } else if ls[i].exit {
      assert ls[i..i + 1] == [ls[i]];
    } else {
      ReadLoopNotices(ls, stopAt, i + 1);
      var rest := ReadLoop(ls, stopAt, i + 1);
      var n := ForwardedCount(rest);
      assert ls[i..n][1..] == ls[i + 1..n];
      var x: seq<Notice> := if rest.ending == ExitRequested then [Disconnected] else [];
      Assoc([Forwarded(ls[i].outcome.event)], Forwards(ls[i + 1..n]), x);
    }
  }

  /** Regrouping a concatenation of notice sequences. */
  lemma Assoc(a: seq<Notice>, b: seq<Notice>, c: seq<Notice>)
    ensures a + (b + c) == a + b + c
  {
  }

  /** `count` "disconnected" notices in a row. */
  function Disconnects(count: nat): (ns: seq<Notice>)
    ensures |ns| == count && forall k :: 0 <= k < count ==> ns[k] == Disconnected
  {
    if count == 0 then [] else [Disconnected] + Disconnects(count - 1)
  }

  /** How many "disconnected" notices end the trace, by the reason the loop ended. */
  function DisconnectCount(ending: Ending, drained: bool): nat
  {
    match ending
    case ExitRequested => if drained then 2 else 1
    case Exhausted => if drained then 1 else 0
    case Stopped => if drained then 1 else 0
    case Crashed => 0
  }

  /** The "disconnected" after "exit" and the one after the loop together make DisconnectCount of them. */
  lemma DisconnectTail(ending: Ending, drained: bool)
    ensures (if ending == ExitRequested then [Disconnected] else [])
          + (if ending != Crashed && drained then [Disconnected] else [])
         == Disconnects(DisconnectCount(ending, drained))
  {
    assert Disconnects(0) == [];
    assert Disconnects(1) == [Disconnected] + Disconnects(0);
    assert Disconnects(2) == [Disconnected] + Disconnects(1);
  }

  /**
   * The trace of one connection: "connected", then one notice per line read
   * (up to, not including, a line that throws), then the disconnect
   * notices: an "exit" that is the last line gives two, end of stream gives
   * one, a stop with lines still pending gives none.
   */
  lemma ListenTrace(ls: seq<Line>, stopAt: nat)
    ensures var s := Listen(ls, stopAt);
      var n := ForwardedCount(s);
      n <= |ls|
      && s.notices == [Connected] + Forwards(ls[..n]) + Disconnects(DisconnectCount(s.ending, s.consumed == |ls|))
  {
    ReadLoopNotices(ls, stopAt, 0);
    var loop := ReadLoop(ls, stopAt, 0);
    var n := ForwardedCount(loop);
    var fw := Forwards(ls[..n]);
    assert ls[0..n] == ls[..n];
    var x: seq<Notice> := if loop.ending == ExitRequested then [Disconnected] else [];
    var tail: seq<Notice> := if loop.ending != Crashed && loop.consumed == |ls| then [Disconnected] else [];
    DisconnectTail(loop.ending, loop.consumed == |ls|);
    Assoc([Connected], fw, x);
    Assoc([Connected] + fw, x, tail);
  }

  /**
   * Every line before the last one read was decoded without an exception
   * and forwarded as its event, in order.
   */
  lemma ListenForwardsEachLine(ls: seq<Line>, stopAt: nat, k: nat)
    requires k < ForwardedCount(Listen(ls, stopAt))
    ensures ls[k].outcome.Returned?
    ensures 1 + k < |Listen(ls, stopAt).notices|
         && Listen(ls, stopAt).notices[1 + k] == Forwarded(ls[k].outcome.event)
  {
    var s := Listen(ls, stopAt);
    var n := ForwardedCount(s);
    ListenTrace(ls, stopAt);
    ReadLoopEnding(ls, stopAt, 0);
    ForwardsAreEvents(ls[..n]);
    assert s.notices[1 + k] == Forwards(ls[..n])[k];
  }

  /**
   * Which line ended the loop: the first "exit", a throwing line, the stop
   * point, or the end of the stream; no line before the last one read asked
   * to exit.
   */
  lemma ListenEnding(ls: seq<Line>, stopAt: nat)
    ensures var s := Listen(ls, stopAt);
      && s.consumed <= |ls|
      && (s.ending == ExitRequested ==> 0 < s.consumed <= stopAt && ls[s.consumed - 1].exit)
      && (s.ending == Crashed ==> 0 < s.consumed <= stopAt && ls[s.consumed - 1].outcome.ArrayIndexOutOfBounds?)
      && (s.ending == Exhausted ==> s.consumed == |ls| < stopAt)
      && (s.ending == Stopped ==> s.consumed == stopAt)
      && (forall j :: 0 <= j < s.consumed - 1 ==> !ls[j].exit)
      && (s.ending == Exhausted || s.ending == Stopped ==> forall j :: 0 <= j < s.consumed ==> !ls[j].exit)
  {
    ReadLoopEnding(ls, stopAt, 0);
  }

  /** "connected" comes first and never again. */
  lemma ConnectedOnlyFirst(ls: seq<Line>, stopAt: nat)
    ensures var ns := Listen(ls, stopAt).notices;
      |ns| > 0 && ns[0] == Connected && forall k :: 0 < k < |ns| ==> ns[k] != Connected
  {
    ListenTrace(ls, stopAt);
    var s := Listen(ls, stopAt);
    var n := ForwardedCount(s);
    var fw := Forwards(ls[..n]);
    ForwardsAreEvents(ls[..n]);
    forall k | 0 < k < |s.notices| ensures s.notices[k] != Connected {
      if k <= n {
        assert s.notices[k] == fw[k - 1];
      }
    }
  }

  /** A stop requested before the first line forwards nothing; it reports a disconnect only for an empty stream. */
  lemma StoppedBeforeStartForwardsNothing(ls: seq<Line>)
    ensures Listen(ls, 0).notices == [Connected] + (if |ls| == 0 then [Disconnected] else [])
  {
  }

  /** The accept-once listener of Server.java. */
  class Server {
    /** Set by doStop(), read by keepRunning(). */
    var doStop: bool
    const port: Int32

    constructor()
      ensures !doStop && port == 9991
    {
      doStop := false;
      port := 9991;
    }

    /** Server.doStop(): raises the flag; it is never lowered again. */
    method DoStop()
      modifies this
      ensures doStop
    {
      doStop := true;
    }

    predicate KeepRunning()
      reads this
    {
      !doStop
    }

    /** Server.getPort(): the port as decimal text. */
    function GetPort(): (s: string)
      ensures ParseInt(s) == Some(port)
    {
      ParseIntOfText(port);
      DecimalText(port)
    }

    /**
     * The while loop of Server.run(): reads `lines` until the stop flag,
     * "exit", the end of the stream or an exception out of processMessage.
     * `stopAt` is the number of lines read when another thread calls
     * doStop() (the flag may already be set on entry).
     */
    method ReadLines(lines: seq<string>, stopAt: nat) returns (forwarded: seq<Notice>, read: nat, ending: Ending)
      modifies this
      ensures var s := ReadLoop(ScanAll(lines), if old(doStop) then 0 else stopAt, 0);
        forwarded == s.notices && read == s.consumed && ending == s.ending
      ensures doStop == (old(doStop) || ending == Stopped)
    {
      ghost var effective := if doStop then 0 else stopAt;
      ghost var ls := ScanAll(lines);
      ghost var whole := ReadLoop(ls, effective, 0);
      forwarded := [];
      read := 0;
      if stopAt == 0 { DoStop(); }
      var exited := false;
      while KeepRunning() && read < |lines|
        invariant read <= |lines|
        invariant doStop == (old(doStop) || stopAt <= read)
        invariant var r := ReadLoop(ls, effective, read);
          whole == Session(forwarded + r.notices, r.consumed, r.ending)
        invariant !exited
        decreases |lines| - read
      {
        // The second test of the flag cannot fail here: no other thread runs in the model.
        if !KeepRunning() { break; }
        ReadLoopTurn(ls, effective, read);
        ghost var rest := ReadLoop(ls, effective, read + 1);
        ghost var before := forwarded;
        var outcome, exit := ReadLine(lines, read);
        read := read + 1;
        if outcome.ArrayIndexOutOfBounds? {
          assert whole == Session(forwarded, read, Crashed);
          return forwarded, read, Crashed;
        }
        forwarded := forwarded + [Forwarded(outcome.event)];
        if exit {
          Assoc(before, [Forwarded(outcome.event)], [Disconnected]);
          forwarded := forwarded + [Disconnected];
          exited := true;
          assert whole == Session(forwarded, read, ExitRequested);
          break;
        }
        Assoc(before, [Forwarded(outcome.event)], rest.notices);
        if stopAt == read { DoStop(); }
      }
      if exited {
        ending := ExitRequested;
      } else if !KeepRunning() {
        ending := Stopped;
      } else {
        ending := Exhausted;
      }
      assert whole == Session(forwarded, read, ending);
    }

    /**
     * Server.run() once a client is connected: "connected", the read loop,
     * and "disconnected" when the loop left no line unread; an exception out
     * of processMessage leaves run() before that last test.
     */
    method Run(lines: seq<string>, stopAt: nat) returns (notices: seq<Notice>, ending: Ending)
      modifies this
      ensures var s := Listen(ScanAll(lines), if old(doStop) then 0 else stopAt);
        notices == s.notices && ending == s.ending
      ensures doStop == (old(doStop) || ending == Stopped)
    {
      var forwarded, read;
      forwarded, read, ending := ReadLines(lines, stopAt);
      notices := [Connected] + forwarded;
      if ending != Crashed && read == |lines| {
        notices := notices + [Disconnected];
      }
    }
  }
}
