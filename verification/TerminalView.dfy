/**
 * The controller of TerminalView2.py: the object that glues the shell
 * process, the emulator and the editor view together and drives them once
 * per frame.  Its own state is a handful of fields (the pending scroll
 * request, the last cursor position placed in the view, the stored screen
 * size, whether it believes the shell runs); the view, the emulator and the
 * shell are the objects modelled in DisplaySync, Emulator and PtySession.
 *
 * Pixel metrics, the clock, the display rows and the cursor that pyte
 * computes, and whether the editor view is still valid are inputs.
 */
module TerminalView {
  import opened Wrappers
  import opened Colormap
  import opened HistoryScreen
  import opened DisplaySync
  import Emulator
  import PtySession

  // ---------------------------------------------------------------------
  // The size of the view in character cells

  /** What the editor reports: the viewport in pixels and one cell's size. */
  datatype Metrics = Metrics(pixelWidth: nat, pixelHeight: nat, lineHeight: nat, emWidth: nat)

  /** How one generation of `view_size` turns pixels into cells: a margin
      taken off each dimension, and a floor under each. */
  datatype SizePolicy = SizePolicy(bottomMargin: int, rightMargin: int, minRows: nat, minCols: nat)

  /** (rows, columns) of the view: (0, 0) when a cell dimension is zero,
      otherwise the whole lines and columns that fit, less the margins, but
      never below the floors. */
  function CellGrid(m: Metrics, p: SizePolicy): (size: (nat, nat))
    ensures m.lineHeight == 0 || m.emWidth == 0 ==> size == (0, 0)
    ensures m.lineHeight > 0 && m.emWidth > 0 ==> size.0 >= p.minRows && size.1 >= p.minCols
  {
    if m.lineHeight == 0 || m.emWidth == 0 then (0, 0)
    else (Max(p.minRows, m.pixelHeight / m.lineHeight - p.bottomMargin) as nat,
          Max(p.minCols, m.pixelWidth / m.emWidth - p.rightMargin) as nat)
  }

  /** TerminalView2's policy: the configured margins (by default 0 below and
      3 on the right), at least one row and one column. */
  function ViewSize(m: Metrics, bottomMargin: int, rightMargin: int): (size: (nat, nat))
    ensures m.lineHeight == 0 || m.emWidth == 0 ==> size == (0, 0)
    ensures m.lineHeight > 0 && m.emWidth > 0 ==> size.0 >= 1 && size.1 >= 1
  {
    CellGrid(m, SizePolicy(bottomMargin, rightMargin, 1, 1))
  }

  /** The grid, stated without division: above its floor, a dimension plus
      its margin is the number of whole cells that fit in the pixels. */
  lemma CellGridFits(m: Metrics, p: SizePolicy)
    ensures m.lineHeight == 0 || m.emWidth == 0 ==> CellGrid(m, p) == (0, 0)
    ensures m.lineHeight > 0 && m.emWidth > 0 ==>
      var (rows, cols) := CellGrid(m, p);
      && rows >= p.minRows && cols >= p.minCols
      && (rows > p.minRows ==>
            (rows + p.bottomMargin) * m.lineHeight <= m.pixelHeight < (rows + p.bottomMargin + 1) * m.lineHeight)
      && (cols > p.minCols ==>
            (cols + p.rightMargin) * m.emWidth <= m.pixelWidth < (cols + p.rightMargin + 1) * m.emWidth)
  {
    if m.lineHeight > 0 && m.emWidth > 0 {
      var h, w := m.pixelHeight / m.lineHeight, m.pixelWidth / m.emWidth;
      assert h * m.lineHeight <= m.pixelHeight < (h + 1) * m.lineHeight;
      assert w * m.emWidth <= m.pixelWidth < (w + 1) * m.emWidth;
    }
  }

  /** With the default margins a 300 x 200 pixel view of 5 x 10 pixel cells
      is 20 rows of 57 columns; a view too small for one cell still gets
      one. */
  lemma ViewSizeExamples()
    ensures ViewSize(Metrics(300, 200, 10, 5), 0, 3) == (20, 57)
    ensures ViewSize(Metrics(2, 2, 10, 5), 0, 3) == (1, 1)
    ensures ViewSize(Metrics(300, 200, 0, 5), 0, 3) == (0, 0)
  {
  }

  // ---------------------------------------------------------------------
  // Scroll requests

  /** A pending scroll request `(index, direction)`. */
  datatype ScrollRequest = ScrollRequest(index: string, direction: string)

  /** The emulator method `_update_scrolling` calls for a request. */
  datatype ScrollCall = PrevLine | NextLine | PrevPage | NextPage

  function ScrollCallFor(r: ScrollRequest): (call: ScrollCall)
    ensures Supported(call) <==> r.index != "line"
    ensures (call == PrevLine || call == PrevPage) <==> r.direction == "up"
  {
    if r.index == "line" then (if r.direction == "up" then PrevLine else NextLine)
    else if r.direction == "up" then PrevPage else NextPage
  }

  /** `PyteTerminalEmulator` defines `prev_page` and `next_page` but no
      `prev_line` or `next_line`: a line request raises. */
  predicate Supported(c: ScrollCall)
  {
    c.PrevPage? || c.NextPage?
  }

  /** The screen after a page request was served: the page step, then width
      normalisation. */
  function ScrolledScreen(c: ScrollCall, s: Screen): Screen
  {
    match c
    case PrevPage => EnsureScreenWidthState(PrevPageState(s))
    case NextPage => EnsureScreenWidthState(NextPageState(s))
    case _ => s
  }

  /** Only the word "line" selects a line step and only "up" selects the
      backward direction: every other index pages and every other direction
      goes forward. */
  lemma ScrollDispatch(r: ScrollRequest)
    ensures Supported(ScrollCallFor(r)) <==> r.index != "line"
    ensures ScrollCallFor(r) in {PrevLine, PrevPage} <==> r.direction == "up"
  {
  }

  // ---------------------------------------------------------------------
  // The cursor cache

  /** `_update_cursor`: the stored position, and the selection moves made,
      given the stored position and the emulator's cursor. */
  function CursorStep(last: Option<(nat, nat)>, pos: (nat, nat)): (step: (Option<(nat, nat)>, seq<(nat, nat)>))
    ensures step.0 == Some(pos)
    ensures step.1 == if last == Some(pos) then [] else [pos]
  {
    if last.Some? && last.value.0 == pos.0 && last.value.1 == pos.1 then (last, [])
    else (Some(pos), [pos])
  }

  /** The selection is moved exactly when the stored position differs from
      the cursor; the cursor is stored afterwards, so the next frame with the
      same cursor moves nothing; a redraw (which clears the stored position)
      always moves it. */
  lemma CursorCache(last: Option<(nat, nat)>, pos: (nat, nat))
    ensures CursorStep(last, pos).1 == (if last == Some(pos) then [] else [pos])
    ensures CursorStep(last, pos).0 == Some(pos)
    ensures CursorStep(CursorStep(last, pos).0, pos).1 == []
    ensures CursorStep(None, pos).1 == [pos]
  {
  }

  // ---------------------------------------------------------------------
  // Stopping and resizing

  /** `_stop`: the shell is stopped only while the view believes it runs,
      and that belief is then cleared. */
  function ViewStop(running: bool, pty: PtySession.PtyState): (r: (bool, PtySession.PtyState))
    ensures !r.0 && r.1.kills <= pty.kills + 1
    ensures running ==> !PtySession.Running(r.1)
    ensures !running ==> r.1 == pty
  {
    if running then (false, PtySession.StopState(pty)) else (running, pty)
  }

  /** However often `_stop` runs, the process is killed at most once, and
      only if both the view and the process considered it running. */
  lemma StopAtMostOnce(running: bool, pty: PtySession.PtyState)
    ensures var (r1, p1) := ViewStop(running, pty);
      && !r1 && ViewStop(r1, p1) == (r1, p1)
      && p1.kills == pty.kills + (if running && PtySession.Running(pty) then 1 else 0)
      && (running ==> !PtySession.Running(p1))
  {
    PtySession.StopIsIdempotent(pty);
  }

  /** `_resize_screen_if_needed`: the size to move to, when it differs
      from the stored one. */
  function ResizeTarget(stored: (nat, nat), size: (nat, nat)): (r: Option<(nat, nat)>)
    ensures r.Some? <==> stored != size
    ensures r.Some? ==> r.value == size
  {
    if stored.0 != size.0 || stored.1 != size.1 then Some(size) else None
  }

  /** The shell and the emulator hear of a size exactly when it changes:
      once the new size is stored, the same metrics ask for nothing. */
  lemma ResizeOnChangeOnly(stored: (nat, nat), m: Metrics, bottomMargin: int, rightMargin: int)
    ensures var size := ViewSize(m, bottomMargin, rightMargin);
      && (ResizeTarget(stored, size).Some? <==> stored != size)
      && ResizeTarget(size, size).None?
  {
  }

  // ---------------------------------------------------------------------
  // A frame

  /** The rows `update_view` redraws and what the view then holds: the dirty
      rows of the screen in ascending order, their display text or `None`,
      and the colour map of those rows when colours are shown. */
  ghost function RedrawState(s: Sync, screen: Screen, display: seq<string>, showColors: bool): (r: Sync)
    requires Mirrored(s)
    ensures Mirrored(r)
  {
    var rows := Ascending(screen.dirty);
    UpdateLinesState(s, rows, Emulator.DirtyMap(screen.dirty, display),
                     if showColors then BufferColorMap(screen.buffer, rows) else map[])
  }

  /** After a redraw the view still shows the tracked rows in order; every
      dirty row the display has holds its display text and a newline, every
      dirty row past the display is gone, and no other row changes. */
  lemma RedrawShowsDisplay(s: Sync, screen: Screen, display: seq<string>, showColors: bool)
    requires Mirrored(s)
    ensures var r := RedrawState(s, screen, display, showColors);
      && r.view == Rendered(r.contents)
      && forall i: nat :: && (i in screen.dirty && i < |display| ==> i in r.contents && r.contents[i] == display[i] + "\n")
                     && (i in screen.dirty && i >= |display| ==> i !in r.contents)
                     && (i !in screen.dirty ==> RowText(r.contents, i) == RowText(s.contents, i))
  {
    var rows := Ascending(screen.dirty);
    var dirty := Emulator.DirtyMap(screen.dirty, display);
    var colorMap := if showColors then BufferColorMap(screen.buffer, rows) else map[];
    LinesContents(s, rows, dirty, colorMap);
  }

  /** The controller's own fields. */
  datatype Controls = Controls(
    scroll: Option<ScrollRequest>,     // `_scroll`
    lastCursorPos: Option<(nat, nat)>, // the "terminal_view_last_cursor_pos" setting
    selections: seq<(nat, nat)>,       // where the selection was placed, in order
    lastUpdate: int,                   // `_last_update`
    rows: nat,                         // `_rows`
    cols: nat,                         // `_cols`
    shellIsRunning: bool,              // `_shell_is_running`
    fed: seq<seq<PtySession.byte>>     // output handed to the emulator, in order
  )

  /** What one pass of `_main_update_loop` ends with. */
  datatype TickResult =
    | Continue  // go round again
    | Exit      // the loop breaks
    | Raised    // an exception escapes the loop

  /** The maximum number of bytes one poll reads from the shell. */
  const MaxReadSize: nat := 4096

  /** Everything one pass of `_main_update_loop` leaves behind. */
  datatype Pass = Pass(result: TickResult, controls: Controls, pty: PtySession.PtyState, screen: Screen, sync: Sync)

  /** The end of a pass whose `update_view` succeeded:
      `_resize_screen_if_needed` stores a changed size and notifies the
      shell, where a size `struct.pack` refuses raises out of the loop before
      the emulator is resized; then a closed view or an exited child stops
      the shell. */
  ghost function SettlePass(c: Controls, pty: PtySession.PtyState, screen: Screen, s: Sync,
                            size: (nat, nat), viewIsValid: bool): (p: Pass)
    requires ReachesBottom(screen)
    ensures p.sync == s && p.controls.lastUpdate == c.lastUpdate && (p.controls.rows, p.controls.cols) == size
    ensures p.result == Raised <==>
      (c.rows, c.cols) != size && (size.0 > PtySession.MaxUnsignedShort || size.1 > PtySession.MaxUnsignedShort)
    ensures p.pty.kills <= pty.kills + 1
  {
    var changed := ResizeTarget((c.rows, c.cols), size).Some?;
    var sized := c.(rows := size.0, cols := size.1);
    var notified := PtySession.ScreenSizeState(pty, size.0, size.1);
    if changed && notified.None? then Pass(Raised, sized, pty, screen, s)
    else
      var pty' := if changed then notified.value else pty;
      var screen' := if changed then Emulator.ResizeState(screen, size.0) else screen;
      if viewIsValid && PtySession.Running(pty') then Pass(Continue, sized, pty', screen', s)
      else
        var (running, stopped) := ViewStop(c.shellIsRunning, pty');
        Pass(Exit, sized.(shellIsRunning := running), stopped, screen', s)
  }

  /** One pass after the poll, with no scroll request pending: `update_view`
      redraws the dirty rows, places the cursor and stamps the time; a stamp
      equal to the stored one is a failed update, which stops the shell;
      otherwise the pass settles. */
  ghost function FramePass(c: Controls, pty: PtySession.PtyState, screen: Screen, s: Sync, display: seq<string>,
                           cursor: Option<Emulator.Cursor>, now: int, size: (nat, nat), viewIsValid: bool,
                           showColors: bool): (p: Pass)
    requires Mirrored(s) && ReachesBottom(screen)
    ensures p.sync == RedrawState(s, screen, display, showColors) && p.controls.lastUpdate == now
    ensures now == c.lastUpdate ==> p.result == Exit && !p.controls.shellIsRunning
    ensures p.pty.kills <= pty.kills + 1
  {
    var drawn := RedrawState(s, screen, display, showColors);
    Emulator.ReachesBottomIgnoresDirty(screen, {});
    ConcludePass(UpdatedControls(c, screen, cursor, now), pty, screen.(dirty := {}), drawn, size, viewIsValid,
                 now != c.lastUpdate)
  }

  /** The controls after `update_view` served no scroll request: the stored
      cursor is forgotten when rows were dirty, the cursor goes through the
      cache, and the time is stamped. */
  function UpdatedControls(c: Controls, screen: Screen, cursor: Option<Emulator.Cursor>, now: int): (r: Controls)
    ensures var pos := Emulator.CursorPos(cursor);
      && r.lastUpdate == now && r.lastCursorPos == Some(pos)
      && r.selections == c.selections + (if screen.dirty == {} && c.lastCursorPos == Some(pos) then [] else [pos])
      && r.(lastCursorPos := c.lastCursorPos, selections := c.selections, lastUpdate := c.lastUpdate) == c
  {
    var last := if screen.dirty != {} then None else c.lastCursorPos;
    var (stored, moves) := CursorStep(last, Emulator.CursorPos(cursor));
    c.(lastCursorPos := stored, selections := c.selections + moves, lastUpdate := now)
  }

  /** What follows `update_view`: a failed update stops the shell, a
      successful one settles. */
  ghost function ConcludePass(c: Controls, pty: PtySession.PtyState, screen: Screen, s: Sync,
                              size: (nat, nat), viewIsValid: bool, success: bool): (p: Pass)
    requires ReachesBottom(screen)
    ensures p.sync == s && p.controls.lastUpdate == c.lastUpdate && p.pty.kills <= pty.kills + 1
    ensures !success ==> p.result == Exit && !p.controls.shellIsRunning && p.screen == screen
  {
    if success then SettlePass(c, pty, screen, s, size, viewIsValid)
    else
      var (running, stopped) := ViewStop(c.shellIsRunning, pty);
      Pass(Exit, c.(shellIsRunning := running), stopped, screen, s)
  }

  /** How a pass ends, in terms of its inputs.  It goes on exactly when the
      stamp is new, the size could be sent, the view is valid and the child
      runs; it raises exactly when a changed size does not fit the 16-bit
      window-size fields; every other pass exits, and exactly those leave the
      shell stopped.  The view always shows the redraw and the stamp is
      always stored; the size is stored once the update succeeded; at most
      one kill is sent; the screen is left with no dirty rows unless it was
      resized, and then every row of the new height is dirty. */
  lemma FrameOutcome(c: Controls, pty: PtySession.PtyState, screen: Screen, s: Sync, display: seq<string>,
                     cursor: Option<Emulator.Cursor>, now: int, size: (nat, nat), viewIsValid: bool,
                     showColors: bool)
    requires Mirrored(s) && ReachesBottom(screen) && c.shellIsRunning
    ensures var p := FramePass(c, pty, screen, s, display, cursor, now, size, viewIsValid, showColors);
      var stamped := now != c.lastUpdate;
      var tooLarge := size.0 > PtySession.MaxUnsignedShort || size.1 > PtySession.MaxUnsignedShort;
      var resized := stamped && (c.rows, c.cols) != size && !tooLarge;
      && (p.result == Continue <==>
            stamped && !((c.rows, c.cols) != size && tooLarge) && viewIsValid && PtySession.Running(pty))
      && (p.result == Raised <==> stamped && (c.rows, c.cols) != size && tooLarge)
      && (p.result == Exit <==> !p.controls.shellIsRunning)
      && (p.result == Exit ==> !PtySession.Running(p.pty))
      && p.sync == RedrawState(s, screen, display, showColors)
      && p.controls.lastUpdate == now
      && (stamped ==> (p.controls.rows, p.controls.cols) == size)
      && p.pty.kills <= pty.kills + 1
      && (resized ==> forall row: nat :: row < size.0 ==> row in p.screen.dirty)
      && (!resized ==> p.screen.dirty == {})
  {
    var p := FramePass(c, pty, screen, s, display, cursor, now, size, viewIsValid, showColors);
    Emulator.ReachesBottomIgnoresDirty(screen, {});
    var cleared := screen.(dirty := {});
    if now != c.lastUpdate && (c.rows, c.cols) != size && !(size.0 > PtySession.MaxUnsignedShort || size.1 > PtySession.MaxUnsignedShort) {
      Emulator.ResizeMarksRows(cleared, size.0);
    }
  }

  class TerminalView2 {
    const showColors: bool
    const bottomMargin: int
    const rightMargin: int
    const emulator: Emulator.PyteTerminalEmulator
    const shell: PtySession.LinuxPty
    const sync: LineSync

    var scroll: Option<ScrollRequest>
    var lastCursorPos: Option<(nat, nat)>
    ghost var selections: seq<(nat, nat)>
    var lastUpdate: int
    var rows: nat
    var cols: nat
    var shellIsRunning: bool
    ghost var fed: seq<seq<PtySession.byte>>

    ghost function State(): Controls
      reads this
    {
      Controls(scroll, lastCursorPos, selections, lastUpdate, rows, cols, shellIsRunning, fed)
    }

    ghost predicate Valid()
      reads this, sync
    {
      sync.Valid()
    }

    /** A new terminal view: an 80 x 24 emulator with the configured history
        and every row dirty, nothing shown, no size stored yet, and the shell running unless
        spawning it failed.  A failed spawn leaves a shell object without a
        process, which never runs and is never consulted, since the view
        already believes the shell stopped. */
    constructor (showColors: bool, bottomMargin: int, rightMargin: int, history: nat, ratio: Ratio, spawned: bool)
      ensures Valid() && fresh(emulator) && fresh(emulator.screen) && fresh(shell) && fresh(sync)
      ensures State() == Controls(None, None, [], 0, 0, 0, spawned, [])
      ensures emulator.screen.State() == Screen(24, 80, seq(24, _ => seq(80, _ => DefaultCell)),
                                                [], [], ratio, history * 2, history * 2, AllRows(24), false, true)
      ensures sync.State() == Sync(map[], map[], "", [])
      ensures shell.State() == PtySession.PtyState(spawned, false, [], [], 0, [])
    {
      this.showColors, this.bottomMargin, this.rightMargin := showColors, bottomMargin, rightMargin;
      emulator := new Emulator.PyteTerminalEmulator(80, 24, history, ratio);
      sync := new LineSync();
      shell := new PtySession.LinuxPty();
      scroll, lastCursorPos, selections, lastUpdate := None, None, [], 0;
      rows, cols, shellIsRunning, fed := 0, 0, spawned, [];
      new;
      if !spawned {
        shell.hasProcess := false;
      }
    }

    /** `_update_scrolling`: serve a pending request once and clear it.  A
        line request raises before the slot is cleared. */
    method UpdateScrolling() returns (raised: bool)
      modifies this, emulator.screen
      ensures old(scroll).None? ==> !raised && State() == old(State()) && emulator.screen.State() == old(emulator.screen.State())
      ensures old(scroll).Some? ==>
        var call := ScrollCallFor(old(scroll).value);
        && raised == !Supported(call)
        && emulator.screen.State() == ScrolledScreen(call, old(emulator.screen.State()))
        && State() == (if raised then old(State()) else old(State()).(scroll := None))
    {
      raised := false;
      if scroll.Some? {
        var index, direction := scroll.value.index, scroll.value.direction;
        if index == "line" {
          raised := true;
          return;
        } else {
          if direction == "up" {
            emulator.PrevPage();
          } else {
            emulator.NextPage();
          }
        }
        scroll := None;
      }
    }

    /** `_update_cursor`: move the selection to the cursor unless it is the
        stored position, then store it. */
    method UpdateCursor(cursor: Option<Emulator.Cursor>)
      modifies this
      ensures var (last, moves) := CursorStep(old(lastCursorPos), Emulator.CursorPos(cursor));
        State() == old(State()).(lastCursorPos := last, selections := old(selections) + moves)
    {
      var cursorPos := Emulator.CursorPos(cursor);
      if lastCursorPos.Some? && lastCursorPos.value.0 == cursorPos.0 && lastCursorPos.value.1 == cursorPos.1 {
        return;
      }
      selections := selections + [cursorPos];
      lastCursorPos := Some(cursorPos);
    }

    /** The dirty-row part of `update_view`: when the screen has dirty rows,
        forget the stored cursor position, redraw those rows (coloured when
        colours are shown) and clear them. */
    method Redraw(display: seq<string>) returns (redrawn: bool)
      requires Valid()
      modifies sync, emulator.screen
      ensures Valid()
      ensures redrawn == (old(emulator.screen.dirty) != {})
      ensures sync.State() == RedrawState(old(sync.State()), old(emulator.screen.State()), display, showColors)
      ensures emulator.screen.State() == old(emulator.screen.State()).(dirty := {})
    {
      var dirtyLines := emulator.DirtyLines(display);
      redrawn := |dirtyLines| > 0;
      if redrawn {
        RedrawRows(dirtyLines);
      }
    }

    /** Redraw the rows of `dirtyLines`, coloured when colours are shown,
        then clear the screen's dirty rows. */
    method RedrawRows(dirtyLines: map<nat, Option<string>>)
      requires Valid()
      modifies sync, emulator.screen
      ensures Valid()
      ensures var rows := Ascending(dirtyLines.Keys);
        sync.State() == UpdateLinesState(old(sync.State()), rows, dirtyLines,
                                         if showColors then BufferColorMap(old(emulator.screen.buffer), rows) else map[])
      ensures emulator.screen.State() == old(emulator.screen.State()).(dirty := {})
    {
      var colorMap: ColorMap := map[];
      if showColors {
        colorMap := emulator.ColorMap(Ascending(dirtyLines.Keys));
      }
      sync.UpdateLines(dirtyLines, colorMap);
      emulator.ClearDirty();
    }

    /** `update_view`: serve the scroll request, redraw the dirty rows, then
        place the cursor.  `now` is the clock reading; the update counts as
        a success when it differs from the previous one. */
    method UpdateView(display: seq<string>, cursor: Option<Emulator.Cursor>, now: int) returns (raised: bool, success: bool)
      requires Valid()
      modifies this, sync, emulator.screen
      ensures Valid()
      ensures raised <==> old(scroll).Some? && !Supported(ScrollCallFor(old(scroll).value))
      ensures raised ==> State() == old(State()) && sync.State() == old(sync.State())
                         && emulator.screen.State() == old(emulator.screen.State())
      ensures !raised ==>
        var scrolled := if old(scroll).Some? then ScrolledScreen(ScrollCallFor(old(scroll).value), old(emulator.screen.State()))
                        else old(emulator.screen.State());
        var last := if scrolled.dirty != {} then None else old(lastCursorPos);
        var (stored, moves) := CursorStep(last, Emulator.CursorPos(cursor));
        && sync.State() == RedrawState(old(sync.State()), scrolled, display, showColors)
        && emulator.screen.State() == scrolled.(dirty := {})
        && success == (now != old(lastUpdate))
        && State() == old(State()).(scroll := None, lastCursorPos := stored,
                                    selections := old(selections) + moves, lastUpdate := now)
    {
      var previous := lastUpdate;
      raised := UpdateScrolling();
      if raised {
        success := false;
        return;
      }
      Present(display, cursor, now);
      success := lastUpdate != previous;
    }

    /** What `update_view` does once the scroll request is served: redraw
        the dirty rows (forgetting the stored cursor position when there
        are any), place the cursor and stamp the update time. */
    method Present(display: seq<string>, cursor: Option<Emulator.Cursor>, now: int)
      requires Valid()
      modifies this, sync, emulator.screen
      ensures Valid()
      ensures sync.State() == RedrawState(old(sync.State()), old(emulator.screen.State()), display, showColors)
      ensures emulator.screen.State() == old(emulator.screen.State()).(dirty := {})
      ensures var last := if old(emulator.screen.dirty) != {} then None else old(lastCursorPos);
        var (stored, moves) := CursorStep(last, Emulator.CursorPos(cursor));
        State() == old(State()).(lastCursorPos := stored, selections := old(selections) + moves, lastUpdate := now)
    {
      var redrawn := Redraw(display);
      if redrawn {
        lastCursorPos := None;
      }
      UpdateCursor(cursor);
      lastUpdate := now;
    }


    /** `_poll_shell_output`: read what the shell wrote and feed it to the
        emulator. */
    method PollShellOutput()
      requires ReachesBottom(emulator.screen.State())
      modifies this, shell, emulator.screen
      ensures var (pty, data) := PtySession.ReceiveState(old(shell.State()), MaxReadSize);
        && shell.State() == pty
        && (data.None? ==> State() == old(State()) && emulator.screen.State() == old(emulator.screen.State()))
        && (data.Some? ==> State() == old(State()).(fed := old(fed) + [data.value])
                           && emulator.screen.State() == ScrollToBottomState(old(emulator.screen.State())))
      ensures ReachesBottom(emulator.screen.State())
      ensures shell.State().kills == old(shell.State()).kills
    {
      var data := shell.ReceiveOutput(MaxReadSize);
      if data.Some? {
        emulator.Feed(data.value);
        fed := fed + [data.value];
        ScrollAtBottomIsIdentity(emulator.screen.State());
      }
    }

    /** `_resize_screen_if_needed`: when the view's size differs from the
        stored one, store it, tell the shell, then resize the emulator.
        `ok` is false where the shell's notification raises. */
    method ResizeScreenIfNeeded(m: Metrics) returns (ok: bool)
      requires ReachesBottom(emulator.screen.State())
      modifies this, shell, emulator.screen
      ensures var size := ViewSize(m, bottomMargin, rightMargin);
        match ResizeTarget((old(rows), old(cols)), size)
        case None =>
          ok && State() == old(State()) && shell.State() == old(shell.State())
          && emulator.screen.State() == old(emulator.screen.State())
        case Some(_) =>
          var notified := PtySession.ScreenSizeState(old(shell.State()), size.0, size.1);
          && State() == old(State()).(rows := size.0, cols := size.1)
          && ok == notified.Some?
          && (ok ==> shell.State() == notified.value
                     && emulator.screen.State() == Emulator.ResizeState(old(emulator.screen.State()), size.0))
          && (!ok ==> shell.State() == old(shell.State()) && emulator.screen.State() == old(emulator.screen.State()))
      ensures (rows, cols) == ViewSize(m, bottomMargin, rightMargin)
      ensures shellIsRunning == old(shellIsRunning)
      ensures shell.State().kills == old(shell.State()).kills
    {
      var size := ViewSize(m, bottomMargin, rightMargin);
      ok := true;
      if rows != size.0 || cols != size.1 {
        rows, cols := size.0, size.1;
        ok := shell.UpdateScreenSize(rows, cols);
        if ok {
          emulator.Resize(rows, cols);
        }
      }
    }

    /** `_stop`. */
    method Stop()
      modifies this, shell
      ensures (shellIsRunning, shell.State()) == ViewStop(old(shellIsRunning), old(shell.State()))
      ensures State() == old(State()).(shellIsRunning := shellIsRunning)
      ensures !shellIsRunning && shell.State().kills <= old(shell.State()).kills + 1
    {
      if shellIsRunning {
        shell.Stop();
        shellIsRunning := false;
      }
    }

    /** One pass of `_main_update_loop`, for a view with no scroll request
        pending (nothing in TerminalView2.py ever sets one).  The editor's
        metrics, display rows, cursor, clock and validity are inputs.  A
        view whose shell already stopped exits at once; otherwise the pass
        polls the shell and then runs `FramePass` on what the poll left. */
    method Tick(m: Metrics, display: seq<string>, cursor: Option<Emulator.Cursor>, now: int, viewIsValid: bool)
      returns (result: TickResult)
      requires Valid() && scroll.None?
      requires ReachesBottom(emulator.screen.State())
      modifies this, sync, shell, emulator.screen
      ensures Valid()
      ensures !old(shellIsRunning) ==>
        && result == Exit && State() == old(State()) && shell.State() == old(shell.State())
        && emulator.screen.State() == old(emulator.screen.State()) && sync.State() == old(sync.State())
      ensures old(shellIsRunning) ==>
        var (pty, data) := PtySession.ReceiveState(old(shell.State()), MaxReadSize);
        var polled := if data.Some? then ScrollToBottomState(old(emulator.screen.State()))
                      else old(emulator.screen.State());
        var fedNow := if data.Some? then old(fed) + [data.value] else old(fed);
        && ReachesBottom(polled)
        && Pass(result, State(), shell.State(), emulator.screen.State(), sync.State())
           == FramePass(old(State()).(fed := fedNow), pty, polled, old(sync.State()), display, cursor, now,
                        ViewSize(m, bottomMargin, rightMargin), viewIsValid, showColors)
      ensures result == Continue ==>
        && shellIsRunning && PtySession.Running(shell.State()) && viewIsValid && now != old(lastUpdate)
        && (rows, cols) == ViewSize(m, bottomMargin, rightMargin)
      ensures result == Exit ==> !shellIsRunning
      ensures result == Raised ==> (rows, cols) == ViewSize(m, bottomMargin, rightMargin)
      ensures shell.State().kills <= old(shell.State()).kills + 1
      ensures scroll.None?
    {
      if !shellIsRunning {
        return Exit;
      }
      PollShellOutput();
      result := Frame(m, display, cursor, now, viewIsValid);
    }

    /** The pass after the poll: update the view, stop when that failed,
        otherwise settle. */
    method Frame(m: Metrics, display: seq<string>, cursor: Option<Emulator.Cursor>, now: int, viewIsValid: bool)
      returns (result: TickResult)
      requires Valid() && scroll.None? && shellIsRunning
      requires ReachesBottom(emulator.screen.State())
      modifies this, sync, shell, emulator.screen
      ensures Valid()
      ensures Pass(result, State(), shell.State(), emulator.screen.State(), sync.State())
              == FramePass(old(State()), old(shell.State()), old(emulator.screen.State()), old(sync.State()),
                           display, cursor, now, ViewSize(m, bottomMargin, rightMargin), viewIsValid, showColors)
      ensures result == Continue ==>
        && shellIsRunning && PtySession.Running(shell.State()) && viewIsValid && now != old(lastUpdate)
        && (rows, cols) == ViewSize(m, bottomMargin, rightMargin)
      ensures result == Exit ==> !shellIsRunning
      ensures result == Raised ==> (rows, cols) == ViewSize(m, bottomMargin, rightMargin)
      ensures shell.State().kills <= old(shell.State()).kills + 1
      ensures scroll.None?
    {
      FrameOutcome(State(), shell.State(), emulator.screen.State(), sync.State(), display, cursor, now,
                   ViewSize(m, bottomMargin, rightMargin), viewIsValid, showColors);
      result := Step(m, display, cursor, now, viewIsValid);
    }

    /** The pass itself: `update_view`, then what the loop does with its
        answer. */
    method Step(m: Metrics, display: seq<string>, cursor: Option<Emulator.Cursor>, now: int, viewIsValid: bool)
      returns (result: TickResult)
      requires Valid() && scroll.None?
      requires ReachesBottom(emulator.screen.State())
      modifies this, sync, shell, emulator.screen
      ensures Valid()
      ensures Pass(result, State(), shell.State(), emulator.screen.State(), sync.State())
              == FramePass(old(State()), old(shell.State()), old(emulator.screen.State()), old(sync.State()),
                           display, cursor, now, ViewSize(m, bottomMargin, rightMargin), viewIsValid, showColors)
    {
      ghost var c, screen := State(), emulator.screen.State();
      Emulator.ReachesBottomIgnoresDirty(screen, {});
      var raised, success := UpdateView(display, cursor, now);
      assert State() == UpdatedControls(c, screen, cursor, now);
      result := Conclude(m, viewIsValid, success);
    }

    /** What the loop does after `update_view`: stop when the update
        failed, otherwise settle. */
    method Conclude(m: Metrics, viewIsValid: bool, success: bool) returns (result: TickResult)
      requires Valid() && ReachesBottom(emulator.screen.State())
      modifies this, shell, emulator.screen
      ensures Valid()
      ensures Pass(result, State(), shell.State(), emulator.screen.State(), sync.State())
              == ConcludePass(old(State()), old(shell.State()), old(emulator.screen.State()), sync.State(),
                              ViewSize(m, bottomMargin, rightMargin), viewIsValid, success)
    {
      if !success {
        Stop();
        return Exit;
      }
      result := Settle(m, viewIsValid);
    }

    /** The end of a pass whose update succeeded: resize, then stop when
        the view closed or the shell exited. */
    method Settle(m: Metrics, viewIsValid: bool) returns (result: TickResult)
      requires Valid() && ReachesBottom(emulator.screen.State())
      modifies this, shell, emulator.screen
      ensures Valid()
      ensures Pass(result, State(), shell.State(), emulator.screen.State(), sync.State())
              == SettlePass(old(State()), old(shell.State()), old(emulator.screen.State()), sync.State(),
                            ViewSize(m, bottomMargin, rightMargin), viewIsValid)
    {
      var ok := ResizeScreenIfNeeded(m);
      if !ok {
        return Raised;
      }
      if !viewIsValid || !shell.IsRunning() {
        Stop();
        return Exit;
      }
      return Continue;
    }
  }
}
