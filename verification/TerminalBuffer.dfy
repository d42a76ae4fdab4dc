/**
 * The two earlier generations of the terminal buffer, each with its own
 * `view_size` and `update_view`.
 *
 * sublime_terminal_buffer.py keeps its state on the editor view (the
 * scroll request, the last cursor position, the time of the last update,
 * the emulator) and updates the view through the `TerminalViewUpdate`
 * command; `update_view` reports success by whether that command stamped a
 * new update time.  SublimeTerminalBuffer.py drives a plain pyte screen and
 * redraws every dirty row straight from its display.
 */
module TerminalBuffer {
  import opened Wrappers
  import opened Colormap
  import opened HistoryScreen
  import opened DisplaySync
  import opened TerminalView
  import LegacyColormap
  import Emulator
  import TextCommands

  // ---------------------------------------------------------------------
  // view_size

  /** sublime_terminal_buffer.py: one column kept free, at least one row
      and one column. */
  function BufferViewSize(m: Metrics): (size: (nat, nat))
    ensures m.lineHeight == 0 || m.emWidth == 0 ==> size == (0, 0)
    ensures m.lineHeight > 0 && m.emWidth > 0 ==> size.0 >= 1 && size.1 >= 1
  {
    CellGrid(m, SizePolicy(0, 1, 1, 1))
  }

  /** SublimeTerminalBuffer.py: two columns kept free, at least 20 rows and
      40 columns. */
  function LegacyViewSize(m: Metrics): (size: (nat, nat))
    ensures m.lineHeight == 0 || m.emWidth == 0 ==> size == (0, 0)
    ensures m.lineHeight > 0 && m.emWidth > 0 ==> size.0 >= 20 && size.1 >= 40
  {
    CellGrid(m, SizePolicy(0, 2, 20, 40))
  }

  /** A 300 x 200 pixel view of 5 x 10 pixel cells is 20 rows of 59
      columns; zero metrics give (0, 0); otherwise the size is at least one
      cell, and above that floor it is what fits less one column. */
  lemma BufferViewSizes(m: Metrics)
    ensures BufferViewSize(Metrics(300, 200, 10, 5)) == (20, 59)
    ensures BufferViewSize(Metrics(300, 200, 10, 0)) == (0, 0)
    ensures m.lineHeight > 0 && m.emWidth > 0 ==>
      var (rows, cols) := BufferViewSize(m);
      && rows >= 1 && cols >= 1
      && (rows > 1 ==> rows * m.lineHeight <= m.pixelHeight < (rows + 1) * m.lineHeight)
      && (cols > 1 ==> (cols + 1) * m.emWidth <= m.pixelWidth < (cols + 2) * m.emWidth)
  {
    CellGridFits(m, SizePolicy(0, 1, 1, 1));
  }

  /** The same view is 20 rows of 58 columns in the earliest generation,
      which never reports fewer than 20 rows or 40 columns. */
  lemma LegacyViewSizes(m: Metrics)
    ensures LegacyViewSize(Metrics(300, 200, 10, 5)) == (20, 58)
    ensures LegacyViewSize(Metrics(100, 100, 10, 5)) == (20, 40)
    ensures LegacyViewSize(Metrics(300, 200, 0, 5)) == (0, 0)
    ensures m.lineHeight > 0 && m.emWidth > 0 ==>
      var (rows, cols) := LegacyViewSize(m);
      && rows >= 20 && cols >= 40
      && (rows > 20 ==> rows * m.lineHeight <= m.pixelHeight < (rows + 1) * m.lineHeight)
      && (cols > 40 ==> (cols + 2) * m.emWidth <= m.pixelWidth < (cols + 3) * m.emWidth)
  {
    CellGridFits(m, SizePolicy(0, 2, 20, 40));
  }

  // ---------------------------------------------------------------------
  // sublime_terminal_buffer.py

  /** The attributes `SublimeTerminalBuffer` keeps on the editor view. */
  datatype Attributes = Attributes(
    hasEmulator: bool,                  // `hasattr(view, "terminal_view_emulator")`
    scroll: Option<ScrollRequest>,      // `terminal_view_scroll`
    lastCursorPos: Option<(nat, nat)>,  // `terminal_view_last_cursor_pos`
    selections: seq<(nat, nat)>,        // where the selection was placed, in order
    lastUpdate: int                     // `terminal_view_last_update`
  )

  /** The editor view with the attributes `SublimeTerminalBuffer` stores on
      it, and the `TerminalViewScroll` and `TerminalViewUpdate` commands
      that use them. */
  class BufferView {
    const showColors: bool
    const emulator: Emulator.PyteTerminalEmulator
    const sync: LineSync

    var hasEmulator: bool
    var scroll: Option<ScrollRequest>
    var lastCursorPos: Option<(nat, nat)>
    ghost var selections: seq<(nat, nat)>
    var lastUpdate: int

    ghost function State(): Attributes
      reads this
    {
      Attributes(hasEmulator, scroll, lastCursorPos, selections, lastUpdate)
    }

    ghost predicate Valid()
      reads this, sync
    {
      sync.Valid()
    }

    /** `SublimeTerminalBuffer.__init__`: an 80 x 24 emulator with the
        configured history and every row dirty, nothing shown, no request pending. */
    constructor (showColors: bool, history: nat, ratio: Ratio)
      ensures Valid() && fresh(emulator) && fresh(emulator.screen) && fresh(sync)
      ensures State() == Attributes(true, None, None, [], 0)
      ensures emulator.screen.State() == Screen(24, 80, seq(24, _ => seq(80, _ => DefaultCell)),
                                                [], [], ratio, history * 2, history * 2, AllRows(24), false, true)
      ensures sync.State() == Sync(map[], map[], "", [])
    {
      this.showColors := showColors;
      emulator := new Emulator.PyteTerminalEmulator(80, 24, history, ratio);
      sync := new LineSync();
      hasEmulator, scroll, lastCursorPos, selections, lastUpdate := true, None, None, [], 0;
    }

    /** Reloading the plugin leaves the view without its attributes. */
    method PluginReloaded()
      modifies this
      ensures State() == old(State()).(hasEmulator := false)
    {
      hasEmulator := false;
    }

    /** `TerminalViewScroll.run`: leave a request for the update loop. */
    method RequestScroll(forward: bool, line: bool)
      modifies this
      ensures State() == old(State()).(scroll := Some(TextCommands.ScrollRequestFor(forward, line)))
    {
      var request := TextCommands.ScrollRequestFor(forward, line);
      scroll := Some(request);
    }

    /** `TerminalViewUpdate._update_scrolling`: serve a pending request once
        and clear it; a line request raises before the slot is cleared. */
    method UpdateScrolling() returns (raised: bool)
      modifies this, emulator.screen
      ensures old(scroll).None? ==> !raised && State() == old(State()) && emulator.screen.State() == old(emulator.screen.State())
      ensures old(scroll).Some? ==>
        var call := ScrollCallFor(old(scroll).value);
        && raised == !Supported(call)
        && emulator.screen.State() == ScrolledScreen(call, old(emulator.screen.State()))
        && State() == (if raised then old(State()) else old(State()).(scroll := None))
    {
      raised := false;
      if scroll.Some? {
        var index, direction := scroll.value.index, scroll.value.direction;
        if index == "line" {
          raised := true;
          return;
        } else if direction == "up" {
          emulator.PrevPage();
        } else {
          emulator.NextPage();
        }
        scroll := None;
      }
    }

    /** The dirty-row part of `TerminalViewUpdate.run`. */
    method Redraw(display: seq<string>) returns (redrawn: bool)
      requires Valid()
      modifies sync, emulator.screen
      ensures Valid()
      ensures redrawn == (old(emulator.screen.dirty) != {})
      ensures sync.State() == RedrawState(old(sync.State()), old(emulator.screen.State()), display, showColors)
      ensures emulator.screen.State() == old(emulator.screen.State()).(dirty := {})
    {
      var dirtyLines := emulator.DirtyLines(display);
      redrawn := |dirtyLines| > 0;
      if redrawn {
        RedrawRows(dirtyLines);
      }
    }

    /** Redraw the rows of `dirtyLines`, coloured when colours are shown,
        then clear the screen's dirty rows. */
    method RedrawRows(dirtyLines: map<nat, Option<string>>)
      requires Valid()
      modifies sync, emulator.screen
      ensures Valid()
      ensures var rows := Ascending(dirtyLines.Keys);
        sync.State() == UpdateLinesState(old(sync.State()), rows, dirtyLines,
                                         if showColors then BufferColorMap(old(emulator.screen.buffer), rows) else map[])
      ensures emulator.screen.State() == old(emulator.screen.State()).(dirty := {})
    {
      var colorMap: ColorMap := map[];
      if showColors {
        colorMap := emulator.ColorMap(Ascending(dirtyLines.Keys));
      }
      sync.UpdateLines(dirtyLines, colorMap);
      emulator.ClearDirty();
    }

    /** `TerminalViewUpdate._update_cursor`: skip when the stored position
        equals the cursor. */
    method UpdateCursor(cursor: Option<Emulator.Cursor>)
      modifies this
      ensures var (last, moves) := CursorStep(old(lastCursorPos), Emulator.CursorPos(cursor));
        State() == old(State()).(lastCursorPos := last, selections := old(selections) + moves)
    {
      var cursorPos := Emulator.CursorPos(cursor);
      if lastCursorPos == Some(cursorPos) {
        assert lastCursorPos.value.0 == cursorPos.0 && lastCursorPos.value.1 == cursorPos.1;
        return;
      }
      selections := selections + [cursorPos];
      lastCursorPos := Some(cursorPos);
    }

    /** `SublimeTerminalBuffer.update_view` with the `TerminalViewUpdate`
        command it runs.  The command does nothing on a view without an
        emulator; an exception inside it is caught by the editor, so it
        only leaves the update time alone.  Success means a new update
        time was stamped. */
    method UpdateView(display: seq<string>, cursor: Option<Emulator.Cursor>, now: int) returns (success: bool)
      requires Valid()
      modifies this, sync, emulator.screen
      ensures Valid()
      ensures var raised := old(scroll).Some? && !Supported(ScrollCallFor(old(scroll).value));
        success <==> old(hasEmulator) && !raised && now != old(lastUpdate)
      ensures !old(hasEmulator) || (old(scroll).Some? && !Supported(ScrollCallFor(old(scroll).value))) ==>
        State() == old(State()) && sync.State() == old(sync.State()) && emulator.screen.State() == old(emulator.screen.State())
      ensures old(hasEmulator) && !(old(scroll).Some? && !Supported(ScrollCallFor(old(scroll).value))) ==>
        var scrolled := if old(scroll).Some? then ScrolledScreen(ScrollCallFor(old(scroll).value), old(emulator.screen.State()))
                        else old(emulator.screen.State());
        var (stored, moves) := CursorStep(if scrolled.dirty != {} then None else old(lastCursorPos), Emulator.CursorPos(cursor));
        && sync.State() == RedrawState(old(sync.State()), scrolled, display, showColors)
        && emulator.screen.State() == scrolled.(dirty := {})
        && State() == old(State()).(scroll := None, lastCursorPos := stored,
                                    selections := old(selections) + moves, lastUpdate := now)
    {
      var previous := lastUpdate;
      if hasEmulator {
        var raised := UpdateScrolling();
        if !raised {
          Present(display, cursor, now);
        }
      }
      success := lastUpdate != previous;
    }

    /** What `update_view` does once the scroll request is served: redraw
        the dirty rows (forgetting the stored cursor position when there
        are any), place the cursor and stamp the update time. */
    method Present(display: seq<string>, cursor: Option<Emulator.Cursor>, now: int)
      requires Valid()
      modifies this, sync, emulator.screen
      ensures Valid()
      ensures sync.State() == RedrawState(old(sync.State()), old(emulator.screen.State()), display, showColors)
      ensures emulator.screen.State() == old(emulator.screen.State()).(dirty := {})
      ensures var last := if old(emulator.screen.dirty) != {} then None else old(lastCursorPos);
        var (stored, moves) := CursorStep(last, Emulator.CursorPos(cursor));
        State() == old(State()).(lastCursorPos := stored, selections := old(selections) + moves, lastUpdate := now)
    {
      var redrawn := Redraw(display);
      if redrawn {
        lastCursorPos := None;
      }
      UpdateCursor(cursor);
      lastUpdate := now;
    }

  }

  // ---------------------------------------------------------------------
  // SublimeTerminalBuffer.py

  /** `SublimeTerminalBuffer` of the earliest generation: pyte's screen
      (its rows and dirty set) and the editor view it redraws. */
  /** What the old `update_view` leaves in the view when rows are dirty:
      the dirty rows the display has, in ascending order, redrawn from the
      display, coloured with the earliest colour map when colours are shown. */
  ghost function LegacyRedrawState(s: Sync, buffer: seq<seq<Cell>>, dirty: set<nat>, display: seq<string>, showColors: bool): (r: Sync)
    requires Mirrored(s)
    ensures Mirrored(r)
  {
    var rows := Ascending(dirty);
    UpdateLinesState(s, TakeBelow(rows, |display|), DisplayRows(display),
                     if showColors then LegacyColormap.LegacyBufferColorMap(buffer, rows) else map[])
  }

  /** The old redraw writes every dirty row the display has, with its
      newline, erases no row, and leaves every other row alone. */
  lemma LegacyRedrawShowsDisplay(s: Sync, buffer: seq<seq<Cell>>, dirty: set<nat>, display: seq<string>, showColors: bool)
    requires Mirrored(s)
    ensures var r := LegacyRedrawState(s, buffer, dirty, display, showColors);
      && r.view == Rendered(r.contents)
      && forall i: nat :: && RowText(r.contents, i) == (if i in dirty && i < |display| then display[i] + "\n" else RowText(s.contents, i))
                     && (i in s.contents ==> i in r.contents)
  {
    var colorMap := if showColors then LegacyColormap.LegacyBufferColorMap(buffer, Ascending(dirty)) else map[];
    DisplayUpdateContents(s, dirty, display, colorMap);
  }

  class LegacyTerminalBuffer {
    const showColors: bool
    const sync: LineSync
    var buffer: seq<seq<Cell>>
    var dirty: set<nat>
    ghost var selections: seq<(nat, nat)>

    ghost predicate Valid()
      reads this, sync
    {
      sync.Valid()
    }

    /** A new buffer over a screen in the state pyte gives it. */
    constructor (showColors: bool, buffer: seq<seq<Cell>>, dirty: set<nat>)
      ensures Valid() && fresh(sync)
      ensures this.buffer == buffer && this.dirty == dirty && selections == []
      ensures sync.State() == Sync(map[], map[], "", [])
    {
      this.showColors, this.buffer, this.dirty := showColors, buffer, dirty;
      sync := new LineSync();
      selections := [];
    }

    /** `update_view`: when rows are dirty, redraw them from the display
        (coloured with the earliest colour map when colours are shown) and
        report true; place the cursor whenever there is one; always clear
        the dirty rows. */
    method UpdateView(display: seq<string>, cursor: Option<Emulator.Cursor>) returns (ret: bool)
      requires Valid()
      modifies this, sync
      ensures Valid()
      ensures ret == (old(dirty) != {})
      ensures dirty == {} && buffer == old(buffer)
      ensures ret ==> sync.State() == LegacyRedrawState(old(sync.State()), buffer, old(dirty), display, showColors)
      ensures !ret ==> sync.State() == old(sync.State())
      ensures selections == old(selections) + if cursor.Some? then [Emulator.CursorPos(cursor)] else []
    {
      ret := Redraw(display);
      if cursor.Some? {
        selections := selections + [Emulator.CursorPos(cursor)];
      }
      dirty := {};
    }

    /** The dirty-row part of `update_view`. */
    method Redraw(display: seq<string>) returns (ret: bool)
      requires Valid()
      modifies sync
      ensures Valid()
      ensures ret == (dirty != {})
      ensures ret ==> sync.State() == LegacyRedrawState(old(sync.State()), buffer, dirty, display, showColors)
      ensures !ret ==> sync.State() == old(sync.State())
    {
      ret := false;
      if |dirty| > 0 {
        var colorMap: ColorMap := map[];
        if showColors {
          colorMap := LegacyColormap.ConvertPyteBufferLinesToColormap(buffer, Ascending(dirty));
        }
        sync.UpdateLinesFromDisplay(dirty, display, colorMap);
        ret := true;
      }
    }
  }
}
