# Llanfair autosplit listener and history viewport, in Dafny

Llanfair is a speed-run timer. This project models two of its parts.

**The autosplit listener** (`server/Server.java`, `ServerEvent.java`, `ServerAction.java`).
An external program connects over a socket and sends lines such as `1:123456789`.
- `Server.processMessage` decodes each line into a `ServerEvent`: a `ServerAction` and a nanosecond stamp.
- `Server.run` reads the lines of one connection, forwards each decoded event and reports "connected" and "disconnected".
- The loop stops on a line reading "exit", at the end of the stream, or when another thread calls `doStop()`.

The model follows the code as written:
- The decoder always calls the two-argument `ServerEvent` constructor, so codes 4 and 5 decode to `DO_NOTHING`.
- The NUL workaround keeps only the second character of the code field.
- A line of two or more characters throws `ArrayIndexOutOfBoundsException` out of `processMessage` when the split leaves no field at all (`::`), or when field 0 parses as an int and there is no field 1 (`12`, `1:`). A line whose only field does not parse, such as `ab`, `ab:` or `exit`, is caught as a parse failure and asks for nothing. The model ends the connection's trace at a throwing line, without the final "disconnected".
- The one-argument `ServerEvent` constructor maps codes 4 and 5 to END and RESET (ServerEvent.java lines 12-25), but `processMessage` never calls it (Server.java line 89). It is modelled as `FromCode` and is reachable from no line.
- The message comment (Server.java lines 66-70) gives the shape `c:0000000000000`, a stamp padded to thirteen digits. The parser does not enforce the width: leading zeros and a leading `+` are accepted and ignored.

**The history panel** (`gui/History.java`):
- `computeViewport` decides which segment rows are visible.
- `populateRows` decides how many rows exist.
- The update identifiers are bit masks that select which label groups a row update touches.
- The LIVE group has rules for the live and delta columns: their text in `SegmentRow.updateValues` and their colour in `SegmentRow.updateColors`.

Modules:
- `JavaText` (java_text.dfy): the Java library behaviour the decoder relies on.
  - `String.split` with its trailing-empty-field removal.
  - `Integer.parseInt` and `Long.parseLong`.
  - `String.trim` and `toLowerCase`, on ASCII.
  - Decimal text for `Integer.toString`.
- `AutosplitAction`: the `ServerAction` enum.
- `AutosplitEvent`: the three `ServerEvent` constructors.
- `AutosplitServer`:
  - the decoder;
  - the "exit" test;
  - the read loop as a function over the lines (`ReadLoop`, `Listen`);
  - the `Server` class, whose `Run` method is proved against that function.
- `HistoryView`:
  - the identifier masks;
  - the viewport specification (`LastSeg`, `InWindow`, `Visible`, `Visibility`) with its counting lemmas;
  - the `HistoryPanel` class, whose `PopulateRows` and `ComputeViewport` methods work on an `array<bool>` of row visibilities;
  - the row update functions.

Inputs from outside these files are parameters:
- the lines the peer sends;
- the number of lines read before `doStop()` is called;
- the settings;
- what the run reports: current and previous segment, row count, best and better segments, which times are known and their texts.

## Model

| member | source | states |
|---|---|---|
| AutosplitAction.Values | src/main/java/org/fenix/llanfair/server/ServerAction.java:3-12 | the enum has exactly eight constants, in declaration order |
| AutosplitAction.Ordinal | src/main/java/org/fenix/llanfair/server/ServerAction.java:3-12 | each constant sits at its ordinal in values() |
| AutosplitAction.ValuesAreOrdered | src/main/java/org/fenix/llanfair/server/ServerAction.java:3-12 | ordinal and values() are inverse, so no constant is listed twice |
| AutosplitAction.DoNothingIsFirst | src/main/java/org/fenix/llanfair/server/ServerAction.java:4 | DO_NOTHING, the fallback action, is constant 0 |
| AutosplitEvent.Empty | src/main/java/org/fenix/llanfair/server/ServerEvent.java:7-10 | the no-argument constructor gives DO_NOTHING at time 0 |
| AutosplitEvent.FromCode | src/main/java/org/fenix/llanfair/server/ServerEvent.java:12-25 | END exactly for code 4, RESET exactly for code 5, DO_NOTHING otherwise; the time is always 0 |
| AutosplitEvent.FromCodeAndTime | src/main/java/org/fenix/llanfair/server/ServerEvent.java:27-47 | START, SPLIT, PAUSE and RESUME exactly for codes 1, 3, 6 and 7, keeping the time; every other code gives DO_NOTHING with the time reset to 0 |
| AutosplitEvent.TimedCode | src/main/java/org/fenix/llanfair/server/ServerEvent.java:29-41 | an action has a code in the two-argument constructor exactly when the enum marks it as carrying a time |
| AutosplitEvent.TimedCodeRoundTrip | src/main/java/org/fenix/llanfair/server/ServerEvent.java:27-47 | each timed action's code, given any time, yields that action with that time |
| AutosplitEvent.TimedCodeIsUnique | src/main/java/org/fenix/llanfair/server/ServerEvent.java:29-41 | a code that yields a real action is the one code for that action |
| AutosplitEvent.TimedActionsKeepTime | src/main/java/org/fenix/llanfair/server/ServerEvent.java:27-47 | the two-argument constructor yields only timed actions or DO_NOTHING, and timed actions keep the time |
| AutosplitEvent.DoNothingCarriesNoTime | src/main/java/org/fenix/llanfair/server/ServerEvent.java:7-47 | a DO_NOTHING event from any constructor has time 0 |
| AutosplitEvent.RestartIsUnreachable | src/main/java/org/fenix/llanfair/server/ServerAction.java:6 | no constructor produces RESTART |
| JavaText.Fields | src/main/java/org/fenix/llanfair/server/Server.java:75 | cutting at the separator gives at least one field, and no field contains the separator |
| JavaText.DropTrailingEmpty | src/main/java/org/fenix/llanfair/server/Server.java:75 | split keeps a prefix of the fields; only empty fields are dropped, and the last kept field is non-empty |
| JavaText.SplitOn | src/main/java/org/fenix/llanfair/server/Server.java:75 | no part contains the separator; text without a separator is a single part; when a separator was cut, the last part is non-empty |
| JavaText.JoinFields | src/main/java/org/fenix/llanfair/server/Server.java:75 | joining the fields with the separator gives the text back |
| JavaText.FieldsJoin | src/main/java/org/fenix/llanfair/server/Server.java:75 | cutting a join of separator-free fields gives the fields back |
| JavaText.FieldsAfterPlain | src/main/java/org/fenix/llanfair/server/Server.java:75 | a separator-free prefix becomes the first field, and the rest is cut as before |
| JavaText.FieldsAllEmpty | src/main/java/org/fenix/llanfair/server/Server.java:75 | all fields are empty exactly when the text is only separators |
| JavaText.SplitEmptyIff | src/main/java/org/fenix/llanfair/server/Server.java:75 | split returns no parts exactly when the text is non-empty and only separators |
| JavaText.SplitPair | src/main/java/org/fenix/llanfair/server/Server.java:75 | "a:b" with separator-free a and non-empty b splits into [a, b] |
| JavaText.SplitFirstTwo | src/main/java/org/fenix/llanfair/server/Server.java:75 | "a:b:rest" with separator-free a and separator-free, non-empty b splits with a and b as its first two parts, whatever rest is |
| JavaText.SplitTrailingSeparators | src/main/java/org/fenix/llanfair/server/Server.java:75 | a non-empty, separator-free field followed only by separators splits into that field alone |
| JavaText.SplitEmptySecond | src/main/java/org/fenix/llanfair/server/Server.java:75 | "a::rest" with separator-free a and a rest that is not only separators splits with a and an empty field as its first two parts |
| JavaText.DigitsRejectForeign | src/main/java/org/fenix/llanfair/server/Server.java:82-83 | a non-digit anywhere in the digit string makes it unparsable |
| JavaText.ParseInteger | src/main/java/org/fenix/llanfair/server/Server.java:82-83 | parsing succeeds exactly on an optional sign followed by one or more ASCII digits whose value lies in the range, and returns that value |
| JavaText.ParseInt | src/main/java/org/fenix/llanfair/server/Server.java:82 | Integer.parseInt succeeds exactly on integer text whose value fits in an int, and returns that value |
| JavaText.ParseLong | src/main/java/org/fenix/llanfair/server/Server.java:83 | Long.parseLong succeeds exactly on integer text whose value fits in a long, and returns that value |
| JavaText.AllDigitsAppend | src/main/java/org/fenix/llanfair/server/Server.java:82-83 | a text followed by one more character is all digits exactly when the text is and the character is a digit |
| JavaText.DecimalAppend | src/main/java/org/fenix/llanfair/server/Server.java:82-83 | appending a digit multiplies the value by ten and adds the digit |
| JavaText.DigitsValueIsDecimal | src/main/java/org/fenix/llanfair/server/Server.java:82-83 | the left-to-right digit accumulation succeeds exactly on all-digit text and yields its positional value |
| JavaText.LeadingZerosIgnored | src/main/java/org/fenix/llanfair/server/Server.java:82-83 | leading zeros before the digits change neither whether the text parses nor its value |
| JavaText.PlusSignIgnored | src/main/java/org/fenix/llanfair/server/Server.java:82-83 | a leading '+' before the digits changes neither whether the text parses nor its value |
| JavaText.NaturalText | src/main/java/org/fenix/llanfair/server/Server.java:63 | the decimal text of n is all digits, has no leading zero and has digit value n |
| JavaText.DecimalText | src/main/java/org/fenix/llanfair/server/Server.java:63 | the decimal text is a minus sign or digits throughout |
| JavaText.ParseDecimalText | src/main/java/org/fenix/llanfair/server/Server.java:82-83 | parsing the decimal text of an in-range value gives the value back |
| JavaText.ParseIntOfText | src/main/java/org/fenix/llanfair/server/Server.java:82 | Integer.parseInt inverts the decimal text of every int |
| JavaText.ParseLongOfText | src/main/java/org/fenix/llanfair/server/Server.java:83 | Long.parseLong inverts the decimal text of every long |
| JavaText.ParseRejectsForeignChar | src/main/java/org/fenix/llanfair/server/Server.java:82-86 | a non-digit other than a leading sign makes parsing fail |
| JavaText.TrimStartShape | src/main/java/org/fenix/llanfair/server/Server.java:48 | trimming the front removes a prefix of characters up to U+0020 and stops at the first other character |
| JavaText.TrimEndShape | src/main/java/org/fenix/llanfair/server/Server.java:48 | trimming the back removes a suffix of characters up to U+0020 and stops at the last other character |
| JavaText.Trim | src/main/java/org/fenix/llanfair/server/Server.java:48 | the trimmed text is the text with its leading and trailing characters up to U+0020 removed: everything cut off at either end is such a character, and the result neither starts nor ends with one |
| JavaText.ToLowerAscii | src/main/java/org/fenix/llanfair/server/Server.java:48 | lower-casing keeps the length |
| JavaText.ToLowerAsciiAt | src/main/java/org/fenix/llanfair/server/Server.java:48 | lower-casing maps each character independently |
| AutosplitServer.ProcessMessage | src/main/java/org/fenix/llanfair/server/Server.java:71-90 | lines of length 0 or 1 ask for nothing; the decoder never yields END, RESET or RESTART; a DO_NOTHING carries time 0; it throws only on a line of two or more characters with at most one split part |
| AutosplitServer.DecodeFields | src/main/java/org/fenix/llanfair/server/Server.java:71-89 | any "code:stamp" whose code parses as an int after the NUL workaround and whose stamp parses as a long decodes to the two-argument constructor's event for those values |
| AutosplitServer.ExtraFieldsIgnored | src/main/java/org/fenix/llanfair/server/Server.java:75-89 | for colon-free code and a colon-free, non-empty stamp, "code:stamp:rest" decodes exactly as "code:stamp", whatever code and rest hold |
| AutosplitServer.EmptyStampDoesNothing | src/main/java/org/fenix/llanfair/server/Server.java:75-86 | a colon-free field 0, an empty field 1 and a remainder that is not only colons, such as "1::5", "a::5" or "1:::5", ask for nothing: field 0 fails to parse or the empty stamp does, and the failure is caught |
| AutosplitServer.StampText | src/main/java/org/fenix/llanfair/server/Server.java:66-70 | the stamp field is non-empty and colon-free; a non-negative stamp is at least thirteen digits |
| AutosplitServer.ParseStampText | src/main/java/org/fenix/llanfair/server/Server.java:66-70 | Long.parseLong reads the padded stamp field back as the stamp |
| AutosplitServer.FormatMessage | src/main/java/org/fenix/llanfair/server/Server.java:66-70 | a line in the "c:0000000000000" shape splits into exactly the code text and the padded stamp, and has at least fifteen characters for a non-negative stamp |
| AutosplitServer.DecodeFormatted | src/main/java/org/fenix/llanfair/server/Server.java:66-90 | every line in the "c:0000000000000" shape decodes to the two-argument constructor's event for its code and stamp |
| AutosplitServer.PaddedStartText | src/main/java/org/fenix/llanfair/server/Server.java:66-70 | code 1 at stamp 500 is written "1:0000000000500" |
| AutosplitServer.PaddedStartMessage | src/main/java/org/fenix/llanfair/server/Server.java:66-90 | the line "1:0000000000500" decodes to START at 500 |
| AutosplitServer.PlusSignedMessage | src/main/java/org/fenix/llanfair/server/Server.java:82-89 | the line "+1:+500" decodes to START at 500: both parsers take a leading '+' |
| AutosplitServer.EndAndResetCodesDoNothing | src/main/java/org/fenix/llanfair/server/Server.java:89 | "4:t" and "5:t" decode to the empty event, not END or RESET |
| AutosplitServer.NulKeepsSecondCharOnly | src/main/java/org/fenix/llanfair/server/Server.java:76-83 | a NUL-prefixed code field decodes as its first digit alone; the rest of the field is dropped |
| AutosplitServer.OnlyColonsThrow | src/main/java/org/fenix/llanfair/server/Server.java:72-82 | a line of two or more colons throws |
| AutosplitServer.BareCodeThrows | src/main/java/org/fenix/llanfair/server/Server.java:72-83 | on a line of two or more characters, a colon-free code that parses, with no stamp field and with or without trailing colons, throws |
| AutosplitServer.BareWordDoesNothing | src/main/java/org/fenix/llanfair/server/Server.java:75-86 | a single field whose code does not parse, with or without trailing colons, asks for nothing: the parse failure is caught before field 1 is read |
| AutosplitServer.UnparsableFieldsDoNothing | src/main/java/org/fenix/llanfair/server/Server.java:75-86 | "code:stamp" with colon-free fields and a non-empty stamp asks for nothing when either field does not parse |
| AutosplitServer.ExitLineShape | src/main/java/org/fenix/llanfair/server/Server.java:48 | a line that passes the exit test holds "exit" in some letter case, with only characters up to U+0020 around it |
| AutosplitServer.ExitLineFromShape | src/main/java/org/fenix/llanfair/server/Server.java:48 | conversely, "exit" in any letter case with only characters up to U+0020 around it passes the exit test |
| AutosplitServer.ExitLineDoesNothing | src/main/java/org/fenix/llanfair/server/Server.java:46-48 | an exit line decodes to the empty event before the loop ends |
| AutosplitServer.ScanAllAt | src/main/java/org/fenix/llanfair/server/Server.java:44-48 | the loop's k-th line is what processMessage and the exit test make of the k-th text line |
| AutosplitServer.ReadLine | src/main/java/org/fenix/llanfair/server/Server.java:44-48 | reading line i yields the decoded outcome and exit test of that line |
| AutosplitServer.Forwards | src/main/java/org/fenix/llanfair/server/Server.java:46 | one forwarded notice per line |
| AutosplitServer.ForwardsAreEvents | src/main/java/org/fenix/llanfair/server/Server.java:46 | the k-th forwarded notice carries the k-th line's event |
| AutosplitServer.ReadLoop | src/main/java/org/fenix/llanfair/server/Server.java:42-52 | the loop never reads past the stream and never goes back |
| AutosplitServer.ReadLoopTurn | src/main/java/org/fenix/llanfair/server/Server.java:42-52 | one turn over the scanned line: a throwing line ends the loop; an exit line is forwarded and then "disconnected"; any other line is forwarded and the loop goes on |
| AutosplitServer.ReadLoopStep | src/main/java/org/fenix/llanfair/server/Server.java:42-52 | one turn, stated on the text of the line: a throwing line ends the loop; an exit line is forwarded and then "disconnected"; any other line is forwarded and the loop goes on |
| AutosplitServer.ReadLoopEnding | src/main/java/org/fenix/llanfair/server/Server.java:42-52 | the loop ends on the throwing line, on the first exit line, at the stop point or at the end of the stream; every line before that was forwarded and was not "exit" |
| AutosplitServer.ReadLoopNotices | src/main/java/org/fenix/llanfair/server/Server.java:42-52 | the loop's notices are the forwarded lines in order, plus "disconnected" after "exit" |
| AutosplitServer.Listen | src/main/java/org/fenix/llanfair/server/Server.java:40-55 | a connection never reads past the stream or past the stop point, and its trace opens with "connected" |
| AutosplitServer.Disconnects | src/main/java/org/fenix/llanfair/server/Server.java:49-54 | a run of "disconnected" notices of the given length |
| AutosplitServer.DisconnectTail | src/main/java/org/fenix/llanfair/server/Server.java:49-55 | the exit notice and the end-of-stream notice together number two after a final "exit", one at end of stream, none after a stop with lines pending or after an exception |
| AutosplitServer.ListenTrace | src/main/java/org/fenix/llanfair/server/Server.java:40-55 | a connection's trace is "connected", the forwarded events in line order, then the disconnect notices for how the loop ended |
| AutosplitServer.ListenForwardsEachLine | src/main/java/org/fenix/llanfair/server/Server.java:44-46 | every forwarded line decoded without exception, and its event is the trace's entry 1 + k |
| AutosplitServer.ListenEnding | src/main/java/org/fenix/llanfair/server/Server.java:42-55 | which line ended the connection and why; no earlier line asked to exit |
| AutosplitServer.ConnectedOnlyFirst | src/main/java/org/fenix/llanfair/server/Server.java:40 | "connected" opens the trace and never appears again |
| AutosplitServer.StoppedBeforeStartForwardsNothing | src/main/java/org/fenix/llanfair/server/Server.java:42-55 | a stop flag raised before the first read forwards nothing; "disconnected" follows only on an empty stream |
| AutosplitServer.Server.constructor | src/main/java/org/fenix/llanfair/server/Server.java:15-21 | a new server is not stopped and listens on port 9991 |
| AutosplitServer.Server.DoStop | src/main/java/org/fenix/llanfair/server/Server.java:23-25 | the stop flag is raised |
| AutosplitServer.Server.ReadLines | src/main/java/org/fenix/llanfair/server/Server.java:42-52 | the while loop forwards exactly the notices of ReadLoop over the scanned lines, reads exactly as many lines and ends for the same reason; the flag is set afterwards exactly when it was set before or the loop was stopped |
| AutosplitServer.Server.GetPort | src/main/java/org/fenix/llanfair/server/Server.java:62-64 | the port text parses back to the port |
| AutosplitServer.Server.Run | src/main/java/org/fenix/llanfair/server/Server.java:40-55 | the loop emits exactly the notices and ending of Listen over the lines, starting from the stop point or from 0 if already stopped; afterwards the flag is set exactly when it was set before or the loop was stopped |
| HistoryView.SelectsIsSubset | src/main/java/org/fenix/llanfair/gui/History.java:539-622 | an identifier selects a group exactly when or-ing the group into it changes nothing, that is when it already holds every bit of the group |
| HistoryView.IconIsDeltaAndTabs | src/main/java/org/fenix/llanfair/gui/History.java:40-42 | ICON is DELTA and TABS together: an identifier selects ICON exactly when it selects both |
| HistoryView.AllSelectsEveryGroup | src/main/java/org/fenix/llanfair/gui/History.java:35-43 | ALL selects every group, ICON included |
| HistoryView.UnionSelects | src/main/java/org/fenix/llanfair/gui/History.java:35-43 | an or-ed identifier selects a single-bit group exactly when one of its parts does |
| HistoryView.SingleBitsAreDistinct | src/main/java/org/fenix/llanfair/gui/History.java:35-43 | a single-bit identifier selects its own group and no other single-bit group |
| HistoryView.RowCount | src/main/java/org/fenix/llanfair/gui/History.java:378-381 | rowCount never exceeds the setting; without blank rows it never exceeds the run's rows; it equals the setting with blank rows or when the run has at least that many rows, and the run's rows otherwise |
| HistoryView.RealCount | src/main/java/org/fenix/llanfair/gui/History.java:383-384 | the scrolling rows are rowCount, or one fewer exactly when the last segment is pinned |
| HistoryView.EndOffset | src/main/java/org/fenix/llanfair/gui/History.java:383-385 | the window stops two rows from the end exactly when the last segment is pinned, one row otherwise |
| HistoryView.LastSeg | src/main/java/org/fenix/llanfair/gui/History.java:387-391 | the window's last row is never past the run's row count minus endOffset |
| HistoryView.InWindow | src/main/java/org/fenix/llanfair/gui/History.java:393-396 | a row in the window lies after lastSeg - realCount and no later than runRows - endOffset |
| HistoryView.Visible | src/main/java/org/fenix/llanfair/gui/History.java:393-400 | a visible row always has a segment behind it |
| HistoryView.Visibility | src/main/java/org/fenix/llanfair/gui/History.java:393-400 | entry i is row i's visibility, and every row without a segment is hidden |
| HistoryView.LastSegClosedForm | src/main/java/org/fenix/llanfair/gui/History.java:383-391 | the window ends at current + offset, raised to realCount - 1 and capped at runRows - endOffset |
| HistoryView.PinnedRowOutsideWindow | src/main/java/org/fenix/llanfair/gui/History.java:384-391 | with always-show-last, the last segment lies outside the scrolling window |
| HistoryView.DesiredSegmentShown | src/main/java/org/fenix/llanfair/gui/History.java:387-396 | segment current + offset is visible when the window is non-empty and the segment lies within the cap |
| HistoryView.CurrentSegmentShown | src/main/java/org/fenix/llanfair/gui/History.java:387-400 | with no offset and a non-empty window, the current segment is visible |
| HistoryView.ShownCount | src/main/java/org/fenix/llanfair/gui/History.java:393-400 | the rows shown are the window's rows in range plus the pinned last segment |
| HistoryView.ShownAtMost | src/main/java/org/fenix/llanfair/gui/History.java:384-400 | at most realCount window rows plus the pinned one are shown, so never more than a positive rowCount |
| HistoryView.ShownExactly | src/main/java/org/fenix/llanfair/gui/History.java:378-400 | when the run has at least rowCount segments, exactly rowCount rows are shown |
| HistoryView.HistoryPanel.constructor | src/main/java/org/fenix/llanfair/gui/History.java:84-116 | a new panel has its rows populated and its viewport computed for the run |
| HistoryView.HistoryPanel.PopulateRows | src/main/java/org/fenix/llanfair/gui/History.java:325-359 | a fresh row array of length max(setting, runRows); a filler exactly when blank rows are on and some rows have no segment; then the viewport |
| HistoryView.HistoryPanel.ComputeViewport | src/main/java/org/fenix/llanfair/gui/History.java:375-401 | rowCount is the setting, or at most the run's rows without blank rows; each row is visible exactly when it is in the window or is the pinned last segment |
| HistoryView.LiveTarget | src/main/java/org/fenix/llanfair/gui/History.java:564 | the live text goes to the live label, or to the time label exactly when the live column is merged into it |
| HistoryView.DeltaTarget | src/main/java/org/fenix/llanfair/gui/History.java:563 | the delta text goes to the delta label, or to the time label exactly when the delta column is merged into it |
| HistoryView.TargetsDiffer | src/main/java/org/fenix/llanfair/gui/History.java:562-564 | the live and delta texts go to different labels, and one of them takes the time label exactly when a merge is set |
| HistoryView.LiveColor | src/main/java/org/fenix/llanfair/gui/History.java:632-680 | rows after the previous segment are left as they are; a best segment gets the new-record colour; with an unknown delta or live time the colour is neutral |
| HistoryView.LiveColorTable | src/main/java/org/fenix/llanfair/gui/History.java:648-674 | for a known, non-best row, a positive delta gives the behind colours and any other delta the ahead colours; gained or lost follows whether the previous segment was better |
| HistoryView.LiveColorIgnoresIndex | src/main/java/org/fenix/llanfair/gui/History.java:641-679 | among rows up to the previous segment, the colour does not depend on the row's index |
| HistoryView.Bracketed | src/main/java/org/fenix/llanfair/gui/History.java:579-583 | the delta text is bracketed unless the delta is merged into the time column; removing the brackets gives the text back |
| HistoryView.LiveTexts | src/main/java/org/fenix/llanfair/gui/History.java:561-597 | exactly the live and delta targets receive text |
| HistoryView.UnknownLiveShowsQuestionMarks | src/main/java/org/fenix/llanfair/gui/History.java:566-570 | before the current segment, an unknown live time shows "?" and "[?]", brackets included even when the delta is merged |
| HistoryView.KnownLiveShowsDelta | src/main/java/org/fenix/llanfair/gui/History.java:571-583 | before the current segment, a known live time is shown, and the delta text (or "?") is shown as is when merged into the time column and as "[" + text + "]" otherwise |
| HistoryView.PendingRowsShowSetTimeOnlyWhenMerged | src/main/java/org/fenix/llanfair/gui/History.java:585-597 | from the current segment on, only a merged time column has text, and that text is the set time (or "?") |
| HistoryView.RowColors | src/main/java/org/fenix/llanfair/gui/History.java:618-682 | the name is coloured exactly when NAME or MARKER is selected, with the foreground colour under NAME alone; the time label is coloured exactly under TIME or a LIVE repaint of a merged column, with the time colour unless LIVE repaints it; the live and delta labels are coloured exactly when LIVE repaints a row up to the previous segment and the column is not merged away; the icon is never coloured |
| HistoryView.MarkerHighlightsCurrent | src/main/java/org/fenix/llanfair/gui/History.java:625-631 | MARKER overrides NAME: the current segment's name is highlighted, others take the foreground colour |
| HistoryView.LiveColorOnBothColumns | src/main/java/org/fenix/llanfair/gui/History.java:632-680 | the LIVE colour goes to both the live and the delta targets, overriding the time colour when merged |
| HistoryView.LaterRowsKeepLiveColors | src/main/java/org/fenix/llanfair/gui/History.java:641 | rows after the previous segment never get a live or delta colour |
| HistoryView.RowValues | src/main/java/org/fenix/llanfair/gui/History.java:538-601 | the name label gets the segment name exactly under NAME; the time label gets text exactly under TIME or LIVE with a merge, and under TIME alone that text is the set time or "?"; the colours are those of updateColors(index, LIVE) exactly when LIVE is selected and index > -1, none otherwise; the icon is reloaded exactly under ICON and the row laid out again exactly under LINE |
| HistoryView.LiveTextsOverrideTime | src/main/java/org/fenix/llanfair/gui/History.java:542-597 | with LIVE selected, the live texts win over the set time written by TIME |
| HistoryView.NoLiveNoLiveWrites | src/main/java/org/fenix/llanfair/gui/History.java:561-599 | without LIVE, an update leaves the live and delta labels and every colour alone |
| HistoryView.RowVisibility | src/main/java/org/fenix/llanfair/gui/History.java:603-616 | the live, delta and icon labels' visibility is set exactly when LIVE, DELTA or ICON is selected, to live-or-tabular, deltas-or-tabular and icons-with-a-positive-height; the name and time labels are never touched |
| HistoryView.IconRefreshAlsoTouchesDelta | src/main/java/org/fenix/llanfair/gui/History.java:609-615 | refreshing ICON also resets the delta column's visibility, because ICON contains the DELTA bit |

## Left out

- The sockets, the `Scanner` and the `IOException` path of `Server.run` are not modelled. They are network I/O: the connection is the sequence of lines it delivers.
- `synchronized` and the threads are not modelled. The stop flag is plain state, and a `doStop()` from another thread is the point `stopAt` in the stream where the loop first sees it.
- The `Actions` object (`showConnected`, `processServerEvent`, `showDisconnected`) is not modelled. Its calls are the `Notice` sequence. What the run does with the events is not part of this model.
- `printStackTrace` output is not modelled; it is I/O.
- `JavaText.ParseInteger`: `Character.digit` accepts non-ASCII Unicode digits, which this model rejects.
- `JavaText.ToLowerAscii`: lower-cases ASCII letters only. It does not model locale-dependent or non-ASCII case mapping.
- Strings are sequences of characters, so UTF-16 surrogate pairs are not modelled.
- The Scanner's line-terminator handling and UTF-8 decoding are not modelled.
- The `Run`, `Segment`, `Time` and `Settings` classes are not part of this model. What History reads from them enters as parameters.
  - This covers the current and previous segment, the row count, best and better segments, time presence and time texts.
  - The delta's sign is taken as given: `Delta.behind` stands for `compareTo(Time.ZERO) > 0`.
- Java `int` overflow in `current + offset` and the other History arithmetic is not modelled; the model uses unbounded integers.
- `HistoryView.HistoryPanel.ComputeViewport` requires at least as many rows as the run has segments when the last segment is pinned. `populateRows` guarantees this. The `IndexOutOfBoundsException` that line 399 would throw otherwise is not modelled.
- Swing work in History.java is not modelled:
  - `getPreferredSize` and font metrics;
  - `updateColumnWidth`, `updateFonts` and `forceResize`;
  - the GridBag layout;
  - the icon images;
  - `Toolkit.sync`.
- `setVisible`, `setText` and `setForeground` are replaced by the values they would set.
- The ranged and whole-run `updateValues`, `updateColors`, `updateVisibility` and `updateFonts` loops are not modelled. Each applies the per-row rule to every index in a range.
- `processPropertyChangeEvent`, which chooses which update to run for each settings or run change, is not modelled. It is event dispatch.
- Llanfair.java (frame, hotkeys, settings persistence and threads) is not part of this model.
