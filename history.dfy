/**
 * The history panel's bookkeeping (gui/History.java): which segment rows
 * the viewport shows, how many rows populateRows creates, which label
 * groups an update identifier selects, and the text and colour the LIVE
 * group gives the live and delta labels of one row.
 *
 * The Run, its Segments, their Times and the Settings are not part of this
 * model: what the panel reads from them enters as parameters. Swing calls
 * (setVisible, setText, setForeground) are replaced by the values they
 * would be given.
 */
module HistoryView {
  import opened JavaText

  function Min(a: int, b: int): int { if a <= b then a else b }
  function Max(a: int, b: int): int { if a >= b then a else b }

  // ------------------------------------------------------ update identifiers

  const AllGroups: bv32 := 0xff
  const TimeGroup: bv32 := 0x01
  const LiveGroup: bv32 := 0x02
  const NameGroup: bv32 := 0x04
  const MarkerGroup: bv32 := 0x08
  const TabsGroup: bv32 := 0x10
  const DeltaGroup: bv32 := 0x20
  const IconGroup: bv32 := 0x30
  const LineGroup: bv32 := 0x40

  /** The test `(identifier & GROUP) == GROUP` that guards each group of a row update. */
  predicate Selects(identifier: bv32, group: bv32)
  {
    identifier & group == group
  }

  /** A group is selected exactly when adding its bits leaves the identifier unchanged: it holds them all already. */
  lemma SelectsIsSubset(identifier: bv32, group: bv32)
    ensures Selects(identifier, group) ==> identifier | group == identifier
    ensures identifier | group == identifier ==> Selects(identifier, group)
  {
  }

  /** The groups that are a single bit: every identifier constant but ALL and ICON. */
  predicate IsSingleBit(group: bv32)
  {
    group == TimeGroup || group == LiveGroup || group == NameGroup || group == MarkerGroup
    || group == TabsGroup || group == DeltaGroup || group == LineGroup
  }

  /** ICON is not a bit of its own: it is DELTA and TABS together. */
  lemma IconIsDeltaAndTabs(identifier: bv32)
    ensures IconGroup == DeltaGroup | TabsGroup
    ensures Selects(identifier, IconGroup) <==> Selects(identifier, DeltaGroup) && Selects(identifier, TabsGroup)
  {
  }

  /** ALL selects every group, ICON included. */
  lemma AllSelectsEveryGroup(group: bv32)
    requires IsSingleBit(group) || group == IconGroup
    ensures Selects(AllGroups, group)
  {
  }

  /** Combining identifiers with `|` selects exactly the single-bit groups either of them selects. */
  lemma UnionSelects(a: bv32, b: bv32, group: bv32)
    requires IsSingleBit(group)
    ensures Selects(a | b, group) <==> Selects(a, group) || Selects(b, group)
  {
  }

  /** A single-bit group is selected by its own constant and by no other single-bit constant. */
  lemma SingleBitsAreDistinct(g: bv32, h: bv32)
    requires IsSingleBit(g) && IsSingleBit(h)
    ensures Selects(g, h) <==> g == h
  {
  }

  // ------------------------------------------------------------- viewport

  /** The settings the viewport reads. */
  datatype HistorySettings = HistorySettings(
    rowCount: int,          // historyRowCount
    blankRows: bool,        // historyBlankRows
    alwaysShowLast: bool,   // historyAlwaysShowLast
    offset: int)            // historyOffset

  /** What the viewport reads from the run: getCurrent() and getRowCount(). */
  datatype RunPosition = RunPosition(current: int, segments: nat)

  /** Rows in the viewport: the setting with blank rows, otherwise no more than the run has. */
  function RowCount(s: HistorySettings, r: RunPosition): (n: int)
    ensures n <= s.rowCount
    ensures !s.blankRows ==> n <= r.segments
    ensures s.blankRows || r.segments >= s.rowCount ==> n == s.rowCount
    ensures !s.blankRows && r.segments < s.rowCount ==> n == r.segments
  {
    if s.blankRows then s.rowCount else Min(r.segments, s.rowCount)
  }

  /** Rows that scroll: one fewer when the last segment is pinned. */
  function RealCount(s: HistorySettings, r: RunPosition): (n: int)
    ensures RowCount(s, r) - 1 <= n <= RowCount(s, r)
    ensures n < RowCount(s, r) <==> s.alwaysShowLast
  {
    if s.alwaysShowLast then RowCount(s, r) - 1 else RowCount(s, r)
  }

  /** How far from the end of the run the scrolling window must stop: past the pinned row, if any. */
  function EndOffset(s: HistorySettings): (e: int)
    ensures e == 2 <==> s.alwaysShowLast
    ensures e == 1 <==> !s.alwaysShowLast
  {
    if s.alwaysShowLast then 2 else 1
  }

  /** The segment at the end of the scrolling window. */
  function LastSeg(s: HistorySettings, r: RunPosition): (last: int)
    ensures last <= r.segments - EndOffset(s)
  {
    var desired := r.current + s.offset;
    var last := if desired < RealCount(s, r) then RealCount(s, r) - 1 else desired;
    if last > r.segments - EndOffset(s) then r.segments - EndOffset(s) else last
  }

  /** The visibility the loop of computeViewport gives row `i`. */
  predicate InWindow(s: HistorySettings, r: RunPosition, i: int)
    ensures InWindow(s, r, i) ==> i <= r.segments - EndOffset(s) && i > LastSeg(s, r) - RealCount(s, r)
  {
    LastSeg(s, r) - RealCount(s, r) < i <= LastSeg(s, r)
  }

  /** Row `i` after computeViewport: in the window, or the pinned last segment. */
  predicate Visible(s: HistorySettings, r: RunPosition, i: int)
    ensures Visible(s, r, i) ==> i < r.segments
  {
    InWindow(s, r, i) || (s.alwaysShowLast && r.segments > 0 && i == r.segments - 1)
  }

  /** The visibility of the first `n` rows. */
  function Visibility(s: HistorySettings, r: RunPosition, n: nat): (v: seq<bool>)
    ensures |v| == n
    ensures forall i :: 0 <= i < n ==> v[i] == Visible(s, r, i)
    ensures forall i :: r.segments <= i < n ==> !v[i]
  {
    seq(n, i requires 0 <= i < n => Visible(s, r, i))
  }

  /** The number of rows shown. */
  function Shown(v: seq<bool>): nat
  {
    if |v| == 0 then 0 else Shown(v[..|v| - 1]) + (if v[|v| - 1] then 1 else 0)
  }

  /** How many of 0 .. n-1 lie in the range lo < i <= hi. */
  function RangeCount(lo: int, hi: int, n: nat): nat
  {
    Max(0, Min(hi, n - 1) - Max(lo, -1))
  }

  /** The end of the window is the desired segment, raised to fill the window and capped by the run. */
  lemma LastSegClosedForm(s: HistorySettings, r: RunPosition)
    ensures LastSeg(s, r) == Min(Max(r.current + s.offset, RealCount(s, r) - 1), r.segments - EndOffset(s))
  {
  }

  /** With the last segment pinned, the scrolling window stops short of it, so it is never counted twice. */
  lemma PinnedRowOutsideWindow(s: HistorySettings, r: RunPosition)
    requires s.alwaysShowLast
    ensures !InWindow(s, r, r.segments - 1)
  {
  }

  /** The segment current + offset is shown whenever the window is not empty and the segment is not past the cap. */
  lemma DesiredSegmentShown(s: HistorySettings, r: RunPosition)
    requires RealCount(s, r) >= 1
    requires 0 <= r.current + s.offset <= r.segments - EndOffset(s)
    ensures Visible(s, r, r.current + s.offset)
  {
  }

  /** With no offset, the current segment is always on screen (the pinned last one included). */
  lemma CurrentSegmentShown(s: HistorySettings, r: RunPosition)
    requires s.offset == 0 && 0 <= r.current < r.segments
    requires RealCount(s, r) >= 1
    ensures Visible(s, r, r.current)
  {
  }

  lemma {:induction false} RangeCountStep(lo: int, hi: int, n: nat)
    ensures RangeCount(lo, hi, n + 1) == RangeCount(lo, hi, n) + (if lo < n <= hi then 1 else 0)
  {
  }

  /** The rows shown among the first `n`: the part of the window below `n`, plus the pinned segment. */
  lemma {:induction false} ShownCount(s: HistorySettings, r: RunPosition, n: nat)
    ensures Shown(Visibility(s, r, n))
         == RangeCount(LastSeg(s, r) - RealCount(s, r), LastSeg(s, r), n)
          + (if s.alwaysShowLast && 0 < r.segments <= n then 1 else 0)
  {
    if n > 0 {
      var v := Visibility(s, r, n);
      assert v[..n - 1] == Visibility(s, r, n - 1);
      ShownCount(s, r, n - 1);
      RangeCountStep(LastSeg(s, r) - RealCount(s, r), LastSeg(s, r), n - 1);
      if s.alwaysShowLast {
        PinnedRowOutsideWindow(s, r);
      }
    }
  }

  /** The viewport never shows more than its scrolling rows plus the pinned one, so never more than rowCount when that is positive. */
  lemma ShownAtMost(s: HistorySettings, r: RunPosition, n: nat)
    ensures Shown(Visibility(s, r, n))
         <= Max(RealCount(s, r), 0) + (if s.alwaysShowLast && r.segments > 0 then 1 else 0)
    ensures RowCount(s, r) >= 1 ==> Shown(Visibility(s, r, n)) <= RowCount(s, r)
  {
    ShownCount(s, r, n);
  }

  /** When the run has at least rowCount segments, exactly rowCount rows are shown. */
  lemma ShownExactly(s: HistorySettings, r: RunPosition, n: nat)
    requires 1 <= RowCount(s, r) <= r.segments <= n
    ensures Shown(Visibility(s, r, n)) == RowCount(s, r)
  {
    ShownCount(s, r, n);
  }

  /** The panel's rows as the viewport sees them: one visibility flag per SegmentRow. */
  class HistoryPanel {
    /** segmentRows, reduced to whether each row is visible. */
    var rows: array<bool>
    /** The rowCount field. */
    var rowCount: int
    /** Whether populateRows placed the filler panel below the rows. */
    var filler: bool

    /** History(run) and setRun(run): the rows are created for the run. */
    constructor(s: HistorySettings, r: RunPosition)
      ensures rows.Length == Max(s.rowCount, r.segments)
      ensures filler == (s.blankRows && r.segments < rows.Length)
      ensures rowCount == RowCount(s, r)
      ensures rows[..] == Visibility(s, r, rows.Length)
    {
      rows := new bool[0];
      rowCount := 0;
      filler := false;
      new;
      PopulateRows(s, r);
    }

    /**
     * populateRows: one row per segment or per configured row, whichever is
     * more, a filler below them when blank rows are shown and some rows
     * have no segment, then the viewport.
     */
    method PopulateRows(s: HistorySettings, r: RunPosition)
      modifies this
      ensures fresh(rows)
      ensures rows.Length == Max(s.rowCount, r.segments)
      ensures filler == (s.blankRows && r.segments < rows.Length)
      ensures rowCount == RowCount(s, r)
      ensures rows[..] == Visibility(s, r, rows.Length)
    {
      var count := Max(s.rowCount, r.segments);
      rows := new bool[count];
      filler := s.blankRows && r.segments < count;
      ComputeViewport(s, r);
    }

    /**
     * computeViewport: sets rowCount, then the visibility of every row from
     * the window ending at the last segment, then pins the run's last
     * segment if the setting asks for it.
     */
    method ComputeViewport(s: HistorySettings, r: RunPosition)
      requires s.alwaysShowLast && r.segments > 0 ==> r.segments <= rows.Length
      modifies this, rows
      ensures rows == old(rows) && filler == old(filler)
      ensures rowCount == RowCount(s, r)
      ensures forall i :: 0 <= i < rows.Length ==> rows[i] == Visible(s, r, i)
      ensures rows[..] == Visibility(s, r, rows.Length)
    {
      rowCount := s.rowCount;
      if !s.blankRows {
        rowCount := Min(r.segments, rowCount);
      }
      var showLast := s.alwaysShowLast;
      var realCount := if showLast then rowCount - 1 else rowCount;
      var endOffset := if showLast then 2 else 1;
      var desired := r.current + s.offset;
      var lastSeg := if desired < realCount then realCount - 1 else desired;
      if lastSeg > r.segments - endOffset {
        lastSeg := r.segments - endOffset;
      }
      assert lastSeg == LastSeg(s, r) && realCount == RealCount(s, r);
      var i := 0;
      while i < rows.Length
        invariant 0 <= i <= rows.Length
        invariant forall j :: 0 <= j < i ==> rows[j] == InWindow(s, r, j)
        modifies rows
      {
        rows[i] := i > lastSeg - realCount && i <= lastSeg;
        i := i + 1;
      }
      if s.alwaysShowLast && r.segments > 0 {
        rows[r.segments - 1] := true;
      }
      assert rows[..] == Visibility(s, r, rows.Length);
    }
  }

  // ---------------------------------------------------------- row updates

  /** The labels of a SegmentRow. */
  datatype Label = IconLabel | NameLabel | TimeLabel | LiveLabel | DeltaLabel

  /** The historyMerge setting: which column, if any, the time label takes over. */
  datatype Merge = MergeNone | MergeLive | MergeDelta

  /** The colour settings a row label can be painted with. */
  datatype ColorSlot =
    | Foreground          // colorForeground
    | Highlight           // colorHighlight
    | TimeColor           // colorTime, the neutral colour
    | NewRecord           // colorNewRecord
    | GainedWhileAhead
    | LostWhileAhead
    | GainedWhileBehind
    | LostWhileBehind

  /** The label that shows the live time: the time label when merged into it. */
  function LiveTarget(merge: Merge): (l: Label)
    ensures l == LiveLabel || l == TimeLabel
    ensures l == TimeLabel <==> merge == MergeLive
  {
    if merge == MergeLive then TimeLabel else LiveLabel
  }

  /** The label that shows the delta: the time label when merged into it. */
  function DeltaTarget(merge: Merge): (l: Label)
    ensures l == DeltaLabel || l == TimeLabel
    ensures l == TimeLabel <==> merge == MergeDelta
  {
    if merge == MergeDelta then TimeLabel else DeltaLabel
  }

  /** The live and delta texts always go to two different labels. */
  lemma TargetsDiffer(merge: Merge)
    ensures LiveTarget(merge) != DeltaTarget(merge)
    ensures LiveTarget(merge) == TimeLabel || DeltaTarget(merge) == TimeLabel <==> merge != MergeNone
  {
  }

  /** A segment delta as the row sees it: its text (toString(true)) and whether it compares above zero. */
  datatype Delta = Delta(text: string, behind: bool)

  /** What a row reads about its own segment from the run. */
  datatype SegmentTimes = SegmentTimes(
    setTime: Option<string>, // getTime(index, SET), as text
    live: Option<string>,    // getTime(index, LIVE), as text
    delta: Option<Delta>,    // getTime(index, DELTA)
    isBest: bool)            // isBestSegment(index)

  /** What a row reads about the run as a whole. */
  datatype RunState = RunState(current: int, previous: int, previousIsBetter: bool)

  predicate IsBehindColor(c: ColorSlot) { c == GainedWhileBehind || c == LostWhileBehind }
  predicate IsAheadColor(c: ColorSlot) { c == GainedWhileAhead || c == LostWhileAhead }
  predicate IsGainedColor(c: ColorSlot) { c == GainedWhileAhead || c == GainedWhileBehind }

  /**
   * The LIVE colour rule of SegmentRow.updateColors: rows after the
   * previous segment are left as they are; a best segment is a new record;
   * without both a delta and a live time the colour is neutral; otherwise
   * the delta's sign picks behind or ahead and whether the previous segment
   * was better picks gained or lost.
   */
  function LiveColor(index: int, run: RunState, t: SegmentTimes): (c: Option<ColorSlot>)
    ensures c.None? <==> index > run.previous
    ensures c == Some(NewRecord) <==> index <= run.previous && t.isBest
    ensures c == Some(TimeColor) <==> index <= run.previous && !t.isBest && (t.delta.None? || t.live.None?)
  {
    if index > run.previous then None
    else if t.isBest then Some(NewRecord)
    else if t.delta.None? then Some(TimeColor)
    else if t.live.None? then Some(TimeColor)
    else if t.delta.value.behind then
      Some(if run.previousIsBetter then GainedWhileBehind else LostWhileBehind)
    else
      Some(if run.previousIsBetter then GainedWhileAhead else LostWhileAhead)
  }

  /**
   * Once a row is past the gate and known, the delta's sign alone decides
   * behind or ahead, and whether the previous segment was better alone
   * decides gained or lost.
   */
  lemma LiveColorTable(index: int, run: RunState, t: SegmentTimes)
    requires index <= run.previous && !t.isBest && t.delta.Some? && t.live.Some?
    ensures LiveColor(index, run, t).Some?
    ensures IsBehindColor(LiveColor(index, run, t).value) <==> t.delta.value.behind
    ensures IsAheadColor(LiveColor(index, run, t).value) <==> !t.delta.value.behind
    ensures IsGainedColor(LiveColor(index, run, t).value) <==> run.previousIsBetter
  {
  }

  /** The colour depends on the row's own index only through the gate: gained or lost comes from the previous segment. */
  lemma LiveColorIgnoresIndex(i: int, j: int, run: RunState, t: SegmentTimes)
    requires i <= run.previous && j <= run.previous
    ensures LiveColor(i, run, t) == LiveColor(j, run, t)
  {
  }

  /** The `"" + (time == null ? "?" : time)` of the source. */
  function TimeText(t: Option<string>): string
  {
    if t.None? then "?" else t.value
  }

  /** The delta text of a row before the current one: brackets around it unless the delta has the time column to itself. */
  function Bracketed(text: string, merge: Merge): (s: string)
    ensures merge == MergeDelta ==> s == text
    ensures merge != MergeDelta ==> |s| == |text| + 2 && s[0] == '[' && s[|s| - 1] == ']' && s[1..|s| - 1] == text
  {
    if merge == MergeDelta then text else "[" + text + "]"
  }

  /**
   * The texts the LIVE group of SegmentRow.updateValues writes: for a row
   * before the current one, its live time and delta (or question marks);
   * for the current row and those after it, the set time in a merged
   * column and nothing elsewhere.
   */
  function LiveTexts(index: int, run: RunState, merge: Merge, t: SegmentTimes): (m: map<Label, string>)
    ensures m.Keys == {LiveTarget(merge), DeltaTarget(merge)}
  {
    if index < run.current then
      if t.live.None? then
        map[LiveTarget(merge) := "?", DeltaTarget(merge) := "[?]"]
      else
        var text := if t.delta.None? then "?" else t.delta.value.text;
        map[LiveTarget(merge) := t.live.value, DeltaTarget(merge) := Bracketed(text, merge)]
    else
      map[LiveTarget(merge) := if merge == MergeLive then TimeText(t.setTime) else "",
          DeltaTarget(merge) := if merge == MergeDelta then TimeText(t.setTime) else ""]
  }

  /** Before the current segment, an unknown live time shows "?" and "[?]", even when the delta is merged into the time column. */
  lemma UnknownLiveShowsQuestionMarks(index: int, run: RunState, merge: Merge, t: SegmentTimes)
    requires index < run.current && t.live.None?
    ensures LiveTexts(index, run, merge, t)[LiveTarget(merge)] == "?"
    ensures LiveTexts(index, run, merge, t)[DeltaTarget(merge)] == "[?]"
  {
    TargetsDiffer(merge);
  }

  /**
   * Before the current segment with a live time, the live label shows it
   * and the delta label shows the delta (or "?"), bracketed unless merged;
   * removing the brackets gives the delta text back.
   */
  lemma KnownLiveShowsDelta(index: int, run: RunState, merge: Merge, t: SegmentTimes)
    requires index < run.current && t.live.Some?
    ensures var m := LiveTexts(index, run, merge, t);
      var text := if t.delta.None? then "?" else t.delta.value.text;
      var shown := m[DeltaTarget(merge)];
      && m[LiveTarget(merge)] == t.live.value
      && (merge == MergeDelta ==> shown == text)
      && (merge != MergeDelta ==> shown == "[" + text + "]")
  {
    TargetsDiffer(merge);
  }

  /** From the current segment on, only a merged time column shows anything: the set time, or "?". */
  lemma PendingRowsShowSetTimeOnlyWhenMerged(index: int, run: RunState, merge: Merge, t: SegmentTimes)
    requires index >= run.current
    ensures var m := LiveTexts(index, run, merge, t);
      && (forall l :: l in m && m[l] != "" ==> l == TimeLabel)
      && (merge != MergeNone ==> TimeLabel in m && m[TimeLabel] == TimeText(t.setTime))
  {
    TargetsDiffer(merge);
  }

  /** Everything a row update reads besides its index and identifier. */
  datatype RowContext = RowContext(run: RunState, merge: Merge, times: SegmentTimes, name: string)

  /** Whether the LIVE group of updateColors paints the row: selected, and the row not after the previous segment. */
  predicate LiveRepaints(index: int, identifier: bv32, ctx: RowContext)
  {
    Selects(identifier, LiveGroup) && -1 < index <= ctx.run.previous
  }

  /** The label colours one SegmentRow.updateColors call writes, later writes replacing earlier ones. */
  function RowColors(index: int, identifier: bv32, ctx: RowContext): (m: map<Label, ColorSlot>)
    ensures NameLabel in m <==> Selects(identifier, NameGroup) || Selects(identifier, MarkerGroup)
    ensures Selects(identifier, NameGroup) && !Selects(identifier, MarkerGroup) ==> m[NameLabel] == Foreground
    ensures TimeLabel in m <==> Selects(identifier, TimeGroup) || (LiveRepaints(index, identifier, ctx) && ctx.merge != MergeNone)
    ensures Selects(identifier, TimeGroup) && !(LiveRepaints(index, identifier, ctx) && ctx.merge != MergeNone)
        ==> m[TimeLabel] == TimeColor
    ensures LiveLabel in m <==> LiveRepaints(index, identifier, ctx) && ctx.merge != MergeLive
    ensures DeltaLabel in m <==> LiveRepaints(index, identifier, ctx) && ctx.merge != MergeDelta
    ensures IconLabel !in m
  {
    var m1 := if Selects(identifier, NameGroup) then map[NameLabel := Foreground] else map[];
    var m2 := if Selects(identifier, TimeGroup) then m1[TimeLabel := TimeColor] else m1;
    var m3 := if Selects(identifier, MarkerGroup)
      then m2[NameLabel := if ctx.run.current == index then Highlight else Foreground]
      else m2;
    if Selects(identifier, LiveGroup) && index > -1 then
      match LiveColor(index, ctx.run, ctx.times)
      case None => m3
      case Some(c) => m3[LiveTarget(ctx.merge) := c][DeltaTarget(ctx.merge) := c]
    else m3
  }

  /** The marker wins over the plain name colour: the current segment's name is highlighted. */
  lemma MarkerHighlightsCurrent(index: int, identifier: bv32, ctx: RowContext)
    requires Selects(identifier, MarkerGroup)
    ensures RowColors(index, identifier, ctx)[NameLabel] == (if ctx.run.current == index then Highlight else Foreground)
  {
  }

  /** The LIVE colour lands on both the live and the delta column, overriding the time colour when merged. */
  lemma LiveColorOnBothColumns(index: int, identifier: bv32, ctx: RowContext)
    requires Selects(identifier, LiveGroup) && 0 <= index <= ctx.run.previous
    ensures var c := LiveColor(index, ctx.run, ctx.times).value;
      var m := RowColors(index, identifier, ctx);
      m[LiveTarget(ctx.merge)] == c && m[DeltaTarget(ctx.merge)] == c
  {
    TargetsDiffer(ctx.merge);
  }

  /** Rows after the previous segment keep their live and delta colours unless another group repaints them. */
  lemma LaterRowsKeepLiveColors(index: int, identifier: bv32, ctx: RowContext)
    requires index > ctx.run.previous
    ensures LiveLabel !in RowColors(index, identifier, ctx) && DeltaLabel !in RowColors(index, identifier, ctx)
  {
  }

  /** What one SegmentRow.updateValues call writes. */
  datatype RowRefresh = RowRefresh(
    texts: map<Label, string>,
    colors: map<Label, ColorSlot>,
    iconRescaled: bool,     // the icon is reloaded at the configured size
    relaidOut: bool)        // the labels are removed and placed again

  /**
   * SegmentRow.updateValues: the name, the set time, the icon, the layout
   * and the LIVE texts, each when its group is selected; the LIVE group
   * also repaints the row with updateColors(index, LIVE).
   */
  function RowValues(index: int, identifier: bv32, ctx: RowContext): (r: RowRefresh)
    ensures NameLabel in r.texts <==> Selects(identifier, NameGroup)
    ensures Selects(identifier, NameGroup) ==> r.texts[NameLabel] == ctx.name
    ensures TimeLabel in r.texts
        <==> Selects(identifier, TimeGroup) || (Selects(identifier, LiveGroup) && index > -1 && ctx.merge != MergeNone)
    ensures Selects(identifier, TimeGroup) && !(Selects(identifier, LiveGroup) && index > -1 && ctx.merge != MergeNone)
        ==> r.texts[TimeLabel] == TimeText(ctx.times.setTime)
    ensures IconLabel !in r.texts
    ensures Selects(identifier, LiveGroup) && index > -1 ==> r.colors == RowColors(index, LiveGroup, ctx)
    ensures !(Selects(identifier, LiveGroup) && index > -1) ==> r.colors == map[]
    ensures r.iconRescaled <==> Selects(identifier, IconGroup)
    ensures r.relaidOut <==> Selects(identifier, LineGroup)
  {
    var t1 := if Selects(identifier, NameGroup) then map[NameLabel := ctx.name] else map[];
    var t2 := if Selects(identifier, TimeGroup) then t1[TimeLabel := TimeText(ctx.times.setTime)] else t1;
    var live := Selects(identifier, LiveGroup) && index > -1;
    var t3 := if live then t2 + LiveTexts(index, ctx.run, ctx.merge, ctx.times) else t2;
    var colors := if live then RowColors(index, LiveGroup, ctx) else map[];
    RowRefresh(t3, colors, Selects(identifier, IconGroup), Selects(identifier, LineGroup))
  }

  /** With LIVE selected, the live texts win over the set time written by the TIME group in a merged column. */
  lemma LiveTextsOverrideTime(index: int, identifier: bv32, ctx: RowContext)
    requires Selects(identifier, LiveGroup) && index >= 0
    ensures var r := RowValues(index, identifier, ctx);
      var lt := LiveTexts(index, ctx.run, ctx.merge, ctx.times);
      forall l :: l in lt ==> l in r.texts && r.texts[l] == lt[l]
  {
  }

  /** Without LIVE, a row update leaves the live and delta labels and every colour alone. */
  lemma NoLiveNoLiveWrites(index: int, identifier: bv32, ctx: RowContext)
    requires !Selects(identifier, LiveGroup)
    ensures var r := RowValues(index, identifier, ctx);
      LiveLabel !in r.texts && DeltaLabel !in r.texts && r.colors == map[]
  {
  }

  /** The label visibilities one SegmentRow.updateVisibility call sets. */
  function RowVisibility(identifier: bv32, liveTimes: bool, deltas: bool, tabular: bool, icons: bool, maxIconHeight: int)
    : (m: map<Label, bool>)
    ensures LiveLabel in m <==> Selects(identifier, LiveGroup)
    ensures DeltaLabel in m <==> Selects(identifier, DeltaGroup)
    ensures IconLabel in m <==> Selects(identifier, IconGroup)
    ensures LiveLabel in m ==> m[LiveLabel] == (liveTimes || tabular)
    ensures DeltaLabel in m ==> m[DeltaLabel] == (deltas || tabular)
    ensures IconLabel in m ==> m[IconLabel] == (icons && maxIconHeight > 0)
    ensures NameLabel !in m && TimeLabel !in m
  {
    var m1 := if Selects(identifier, LiveGroup) then map[LiveLabel := liveTimes || tabular] else map[];
    var m2 := if Selects(identifier, DeltaGroup) then m1[DeltaLabel := deltas || tabular] else m1;
    if Selects(identifier, IconGroup) then m2[IconLabel := icons && maxIconHeight > 0] else m2
  }

  /** Because ICON includes the DELTA bit, refreshing the icon's visibility refreshes the delta column's too. */
  lemma IconRefreshAlsoTouchesDelta(liveTimes: bool, deltas: bool, tabular: bool, icons: bool, maxIconHeight: int)
    ensures var m := RowVisibility(IconGroup, liveTimes, deltas, tabular, icons, maxIconHeight);
      m.Keys == {DeltaLabel, IconLabel} && m[DeltaLabel] == (deltas || tabular)
  {
  }
}
