/**
 * `PyteTerminalEmulator` of terminal_emulator.py: the adapter the view talks
 * to.  It owns one `CustomHistoryScreen` (created with twice the configured
 * history, since the history is split over two queues) and reports dirty
 * rows, the cursor and colour maps from it.  pyte's own byte stream,
 * `display` property and `resize` are not part of this model: the display
 * rows come in as a parameter.
 */
module Emulator {
  import opened Wrappers
  import opened Colormap
  import opened HistoryScreen
  import PtySession

  /** pyte's cursor position. */
  datatype Cursor = Cursor(x: nat, y: nat)

  /** `cursor()`: (row, column) of the screen's cursor, or (0, 0) when the
      screen has none. */
  function CursorPos(cursor: Option<Cursor>): (p: (nat, nat))
    ensures cursor.Some? ==> p == (cursor.value.y, cursor.value.x)
    ensures cursor.None? ==> p == (0, 0)
  {
    match cursor
    case Some(c) => (c.y, c.x)
    case None => (0, 0)
  }

  /** What `dirty_lines` reports: every dirty row, mapped to its display
      text, or to `None` when the display has fewer rows (after shrinking). */
  function DirtyMap(dirty: set<nat>, display: seq<string>): (lines: map<nat, Option<string>>)
    ensures lines.Keys == dirty
    ensures forall r :: r in lines ==> (lines[r].None? <==> r >= |display|)
    ensures forall r :: r in lines && r < |display| ==> lines[r] == Some(display[r])
  {
    map r | r in dirty :: if r < |display| then Some(display[r]) else None
  }

  /** Redrawing does not change whether `scroll_to_bottom` ends: that
      depends on the history and the position, not on the dirty rows. */
  lemma ReachesBottomIgnoresDirty(s: Screen, d: set<nat>)
    requires ReachesBottom(s)
    ensures ReachesBottom(s.(dirty := d))
  {
    if s.position < s.size {
      assert NextPageState(s.(dirty := d)) == NextPageState(s);
    }
  }

  /** What `resize` leaves in the screen: scrolled to the bottom, then every
      row of the new height marked dirty. */
  ghost function ResizeState(s: Screen, lines: nat): (r: Screen)
    requires ReachesBottom(s)
    ensures r.position >= r.size
    ensures forall row: nat :: row < lines ==> row in r.dirty
  {
    var t := ScrollToBottomState(s);
    t.(dirty := t.dirty + AllRows(lines))
  }

  /** After `resize` the screen is at the bottom of the history, the rows of
      the new height are all dirty, and rows that were dirty at the bottom
      stay dirty. */
  lemma ResizeMarksRows(s: Screen, lines: nat)
    requires ReachesBottom(s)
    ensures var r := ResizeState(s, lines);
      && r.position >= r.size
      && (forall row: nat :: row < lines ==> row in r.dirty)
      && ScrollToBottomState(s).dirty <= r.dirty
      && r.(dirty := ScrollToBottomState(s).dirty) == ScrollToBottomState(s)
  {
  }

  /** A page step as the adapter does it: the page, then width
      normalisation.  Every row ends up exactly `columns` wide, and the
      history queues and position are those of the page step. */
  lemma PageThenFit(s: Screen)
    ensures var p := EnsureScreenWidthState(PrevPageState(s));
      && (forall i :: 0 <= i < |p.buffer| ==> |p.buffer[i]| == s.columns)
      && p.top == PrevPageState(s).top && p.bottom == PrevPageState(s).bottom
      && p.position == PrevPageState(s).position
    ensures var n := EnsureScreenWidthState(NextPageState(s));
      && (forall i :: 0 <= i < |n.buffer| ==> |n.buffer[i]| == s.columns)
      && n.top == NextPageState(s).top && n.bottom == NextPageState(s).bottom
      && n.position == NextPageState(s).position
  {
  }

  class PyteTerminalEmulator {
    const screen: CustomHistoryScreen

    /** The screen keeps twice the configured history and starts with every
        row dirty. */
    constructor (cols: nat, lines: nat, history: nat, ratio: Ratio)
      ensures fresh(screen)
      ensures screen.State() == Screen(lines, cols, seq(lines, _ => seq(cols, _ => DefaultCell)),
                                       [], [], ratio, history * 2, history * 2, AllRows(lines), false, true)
    {
      screen := new CustomHistoryScreen(cols, lines, history * 2, ratio);
    }

    /** `feed`: scroll to the bottom before the bytes go to pyte's parser. */
    method Feed(data: seq<PtySession.byte>)
      requires ReachesBottom(screen.State())
      modifies screen
      ensures screen.State() == ScrollToBottomState(old(screen.State()))
    {
      screen.ScrollToBottom();
    }

    /** `resize`: scroll to the bottom and mark the new rows dirty; pyte's
        own resize of the buffer is not part of this model. */
    method Resize(lines: nat, cols: nat)
      requires ReachesBottom(screen.State())
      modifies screen
      ensures screen.State() == ResizeState(old(screen.State()), lines)
    {
      screen.ScrollToBottom();
      screen.dirty := screen.dirty + AllRows(lines);
    }

    method PrevPage()
      modifies screen
      ensures screen.State() == EnsureScreenWidthState(PrevPageState(old(screen.State())))
    {
      screen.PrevPage();
      screen.EnsureScreenWidth();
    }

    method NextPage()
      modifies screen
      ensures screen.State() == EnsureScreenWidthState(NextPageState(old(screen.State())))
    {
      screen.NextPage();
      screen.EnsureScreenWidth();
    }

    /** `dirty_lines`: one entry per dirty row, built row by row. */
    method DirtyLines(display: seq<string>) returns (lines: map<nat, Option<string>>)
      ensures lines == DirtyMap(screen.dirty, display)
    {
      lines := map[];
      if |screen.dirty| > 0 {
        var remaining := screen.dirty;
        while remaining != {}
          invariant remaining <= screen.dirty
          invariant lines.Keys == screen.dirty - remaining
          invariant forall r :: r in lines ==> lines[r] == if r < |display| then Some(display[r]) else None
          decreases |remaining|
        {
          var line :| line in remaining;
          if line >= |display| {
            lines := lines[line := None];
          } else {
            lines := lines[line := Some(display[line])];
          }
          remaining := remaining - {line};
        }
      }
    }

    method ClearDirty()
      modifies screen
      ensures screen.State() == old(screen.State()).(dirty := {})
    {
      screen.dirty := {};
    }

    /** `color_map(lines)`: the colour map of the requested rows of the
        screen buffer. */
    method ColorMap(lines: seq<nat>) returns (colorMap: ColorMap)
      ensures colorMap == BufferColorMap(screen.buffer, lines)
    {
      colorMap := ConvertPyteBufferToColormap(screen.buffer, lines);
    }
  }
}
