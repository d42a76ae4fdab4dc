/**
 * `CustomHistoryScreen` of terminal_emulator.py: the scrollback of the
 * emulated screen.  Rows leave the screen buffer into two bounded history
 * queues, `top` (rows above the screen, at most size / 2) and `bottom` (rows
 * below it, at most size), and come back from them when paging; `position`
 * counts where the screen sits in the history, and equals `size` at the
 * bottom.  Paging and width normalisation are modelled on sequences; the
 * float `ratio` is a fraction `num / den`.
 */
module HistoryScreen {
  import opened Wrappers
  import opened Colormap

  type Row = seq<Cell>

  type Positive = n: nat | n > 0 witness 1

  /** The scroll ratio as a fraction. */
  datatype Ratio = Ratio(num: nat, den: Positive)

  /** The blank cell the screen pads with. */
  const DefaultCell: Cell := Cell(Default, Default)

  /** Everything the history methods read or change. */
  datatype Screen = Screen(
    lines: nat,          // screen height
    columns: nat,        // screen width
    buffer: seq<Row>,    // the rows on screen
    top: seq<Row>,       // history above the screen, oldest first
    bottom: seq<Row>,    // history below the screen, nearest first
    ratio: Ratio,        // fraction of a page moved per page step
    size: nat,           // history size
    position: nat,       // where the screen sits; `size` means at the bottom
    dirty: set<nat>,     // rows to redraw
    cursorHidden: bool,
    dectcem: bool        // DECTCEM (show cursor) mode is set
  )

  // ---------------------------------------------------------------------
  // Sequence helpers with Python's semantics

  /** `take(n, iterable)`: the first n items, or all of them if fewer. */
  function Take<T>(n: nat, s: seq<T>): (r: seq<T>)
    ensures |r| == Min(n, |s|)
    ensures r <= s
  {
    if n <= |s| then s[..n] else s
  }

  /** A bounded deque after `extend`: items beyond `maxlen` fall off the left. */
  function KeepLast<T>(s: seq<T>, maxlen: nat): (r: seq<T>)
    ensures |r| == Min(|s|, maxlen)
    ensures exists k :: 0 <= k <= |s| && r == s[k..]
  {
    if |s| <= maxlen then (assert s == s[0..]; s) else s[|s| - maxlen..]
  }

  /** A bounded deque after `extendleft`: items beyond `maxlen` fall off the
      right. */
  function KeepFirst<T>(s: seq<T>, maxlen: nat): (r: seq<T>)
    ensures |r| == Min(|s|, maxlen)
    ensures r <= s
  {
    if |s| <= maxlen then s else s[..maxlen]
  }

  /** `buffer[-mid:]`.  Python reads `-0` as `0`, so for mid == 0 this is the
      whole sequence. */
  function TailSlice<T>(s: seq<T>, mid: nat): seq<T>
  {
    if mid == 0 then s else if mid >= |s| then s else s[|s| - mid..]
  }

  /** `buffer[:-mid]`.  For mid == 0 this is empty. */
  function DropTailSlice<T>(s: seq<T>, mid: nat): seq<T>
  {
    if mid == 0 then [] else if mid >= |s| then [] else s[..|s| - mid]
  }

  /** The two slices split the sequence when mid > 0; for mid == 0 both are
      taken from the wrong end, and the pair holds the sequence and nothing. */
  lemma TailSlices<T>(s: seq<T>, mid: nat)
    ensures mid > 0 ==> DropTailSlice(s, mid) + TailSlice(s, mid) == s
    ensures mid > 0 ==> |TailSlice(s, mid)| == Min(mid, |s|)
    ensures mid == 0 ==> TailSlice(s, mid) == s && DropTailSlice(s, mid) == []
  {
  }

  /** `int(math.ceil(lines * ratio))`. */
  function PageStep(lines: nat, ratio: Ratio): (n: nat)
    ensures n * ratio.den >= lines * ratio.num
    ensures n == 0 || (n - 1) * ratio.den < lines * ratio.num
  {
    (lines * ratio.num + ratio.den - 1) / ratio.den
  }

  /** `set(range(lines))`. */
  function AllRows(lines: nat): (rows: set<nat>)
    ensures forall r: nat :: r in rows <==> r < lines
  {
    if lines == 0 then {} else AllRows(lines - 1) + {lines - 1}
  }

  // ---------------------------------------------------------------------
  // Paging

  predicate PrevActs(s: Screen): (r: bool)
    ensures r <==> s.lines < s.position && s.top != []
  {
    s.position > s.lines && |s.top| > 0
  }

  predicate NextActs(s: Screen): (r: bool)
    ensures r <==> s.position < s.size && s.bottom != []
  {
    s.position < s.size && |s.bottom| > 0
  }

  /** `prev_page`: the last `mid` screen rows go to the front of `bottom`, the
      last `mid` rows of `top` come onto the screen above the rest. */
  function PrevPageState(s: Screen): (r: Screen)
    ensures r.position == if PrevActs(s) then s.position - s.lines else s.position
    ensures PrevActs(s) ==> r.dirty == AllRows(s.lines) && |r.top| <= |s.top|
    ensures r.(buffer := s.buffer, top := s.top, bottom := s.bottom, position := s.position, dirty := s.dirty) == s
  {
    if !PrevActs(s) then s
    else
      var mid := Min(|s.top|, PageStep(s.lines, s.ratio));
      s.(bottom := KeepFirst(TailSlice(s.buffer, mid) + s.bottom, s.size),
         position := s.position - s.lines,
         buffer := s.top[|s.top| - mid..] + DropTailSlice(s.buffer, mid),
         top := s.top[..|s.top| - mid],
         dirty := AllRows(s.lines))
  }

  /** `next_page`: the first `mid` screen rows go to the end of `top`, the
      first `mid` rows of `bottom` come onto the screen below the rest. */
  function NextPageState(s: Screen): (r: Screen)
    ensures r.position == if NextActs(s) then s.position + s.lines else s.position
  {
    if !NextActs(s) then s
    else
      var mid := Min(|s.bottom|, PageStep(s.lines, s.ratio));
      var moved := Take(mid, s.buffer);
      s.(top := KeepLast(s.top + moved, s.size / 2),
         position := s.position + s.lines,
         buffer := s.buffer[|moved|..] + s.bottom[..mid],
         bottom := s.bottom[mid..],
         dirty := AllRows(s.lines))
  }

  /** The deque bounds. */
  predicate QueuesBounded(s: Screen)
  {
    |s.top| <= s.size / 2 && |s.bottom| <= s.size
  }

  /** Paging keeps the deques within their bounds, moves the position by
      exactly one screen height and marks every row dirty, or does nothing. */
  lemma PagingSteps(s: Screen)
    requires QueuesBounded(s)
    ensures QueuesBounded(PrevPageState(s)) && QueuesBounded(NextPageState(s))
    ensures PrevActs(s) ==>
      (PrevPageState(s).position == s.position - s.lines && PrevPageState(s).dirty == AllRows(s.lines))
    ensures !PrevActs(s) ==> PrevPageState(s) == s
    ensures NextActs(s) ==> NextPageState(s).dirty == AllRows(s.lines)
    ensures !NextActs(s) ==> NextPageState(s) == s
  {
  }

  /** A page moves `mid` rows: the screen keeps its height whenever
      1 <= mid <= height. */
  lemma PagingKeepsHeight(s: Screen)
    ensures var mid := Min(|s.top|, PageStep(s.lines, s.ratio));
      PrevActs(s) && 1 <= mid <= |s.buffer| ==> |PrevPageState(s).buffer| == |s.buffer|
    ensures var mid := Min(|s.bottom|, PageStep(s.lines, s.ratio));
      NextActs(s) && mid <= |s.buffer| ==> |NextPageState(s).buffer| == |s.buffer|
  {
  }

  /** With a step of zero rows (ratio 0), `prev_page` reads `buffer[-0:]` as
      the whole screen: every row goes to `bottom` and the screen is left
      empty. */
  lemma PrevPageWithZeroStep(s: Screen)
    requires PrevActs(s) && PageStep(s.lines, s.ratio) == 0
    requires |s.buffer| + |s.bottom| <= s.size
    ensures PrevPageState(s).buffer == []
    ensures PrevPageState(s).bottom == s.buffer + s.bottom
  {
  }

  /** No row is lost or duplicated: the rows of top, screen and bottom, read
      in order, are the same before and after a page step, as long as no
      deque overflows and the step fits the screen. */
  lemma PrevPageConservesRows(s: Screen)
    requires PrevActs(s)
    requires var mid := Min(|s.top|, PageStep(s.lines, s.ratio));
      1 <= mid <= |s.buffer| && |s.bottom| + mid <= s.size
    ensures var r := PrevPageState(s);
      r.top + r.buffer + r.bottom == s.top + s.buffer + s.bottom
  {
    var mid := Min(|s.top|, PageStep(s.lines, s.ratio));
    TailSlices(s.buffer, mid);
    var r := PrevPageState(s);
    calc {
      r.top + r.buffer + r.bottom;
      s.top[..|s.top| - mid] + (s.top[|s.top| - mid..] + DropTailSlice(s.buffer, mid))
        + (TailSlice(s.buffer, mid) + s.bottom);
      (s.top[..|s.top| - mid] + s.top[|s.top| - mid..])
        + (DropTailSlice(s.buffer, mid) + TailSlice(s.buffer, mid)) + s.bottom;
      { assert s.top[..|s.top| - mid] + s.top[|s.top| - mid..] == s.top; }
      s.top + s.buffer + s.bottom;
    }
  }

  lemma NextPageConservesRows(s: Screen)
    requires NextActs(s)
    requires var mid := Min(|s.bottom|, PageStep(s.lines, s.ratio));
      mid <= |s.buffer| && |s.top| + mid <= s.size / 2
    ensures var r := NextPageState(s);
      r.top + r.buffer + r.bottom == s.top + s.buffer + s.bottom
  {
    var mid := Min(|s.bottom|, PageStep(s.lines, s.ratio));
    var r := NextPageState(s);
    assert Take(mid, s.buffer) == s.buffer[..mid];
    assert r.top == s.top + s.buffer[..mid];
    assert r.buffer == s.buffer[mid..] + s.bottom[..mid];
    assert r.bottom == s.bottom[mid..];
    calc {
      r.top + r.buffer + r.bottom;
      s.top + (s.buffer[..mid] + s.buffer[mid..]) + (s.bottom[..mid] + s.bottom[mid..]);
      { assert s.buffer[..mid] + s.buffer[mid..] == s.buffer;
        assert s.bottom[..mid] + s.bottom[mid..] == s.bottom; }
      s.top + s.buffer + s.bottom;
    }
  }

  /** Paging down undoes paging up: the screen and both deques come back, and
      only the dirty set (every row) differs, provided a full step was
      available above, nothing overflowed, and the page down is allowed. */
  lemma NextPageUndoesPrevPage(s: Screen)
    requires QueuesBounded(s) && PrevActs(s)
    requires var step := PageStep(s.lines, s.ratio);
      1 <= step <= |s.top| && step <= |s.buffer| && |s.bottom| + step <= s.size
    requires s.position - s.lines < s.size
    ensures NextPageState(PrevPageState(s)) == s.(dirty := AllRows(s.lines))
  {
    var step := PageStep(s.lines, s.ratio);
    var p := PrevPageState(s);
    TailSlices(s.buffer, step);
    assert |p.bottom| == |s.bottom| + step;
    assert NextActs(p);
    var q := NextPageState(p);
    assert Take(step, p.buffer) == s.top[|s.top| - step..];
    assert p.top + Take(step, p.buffer) == s.top;
    assert q.top == s.top;
    assert q.buffer == DropTailSlice(s.buffer, step) + TailSlice(s.buffer, step);
    assert q.bottom == s.bottom;
  }

  /** The screen reaches the bottom of the history by paging down:
      `scroll_to_bottom` ends only then. */
  ghost predicate ReachesBottom(s: Screen): (r: bool)
    ensures s.position >= s.size ==> r
    ensures r && s.position < s.size ==> s.lines > 0 && s.bottom != []
    decreases s.size - s.position
  {
    s.position >= s.size || (s.lines > 0 && NextActs(s) && ReachesBottom(NextPageState(s)))
  }

  /** The state `scroll_to_bottom` leaves behind. */
  ghost function ScrollToBottomState(s: Screen): (r: Screen)
    requires ReachesBottom(s)
    ensures r.position >= r.size && r.size == s.size && r.lines == s.lines
    decreases s.size - s.position
  {
    if s.position >= s.size then s else ScrollToBottomState(NextPageState(s))
  }

  /** When `bottom` is empty above the bottom (or the screen has no rows),
      `next_page` changes nothing, so `scroll_to_bottom` would never return. */
  lemma ScrollStalls(s: Screen)
    requires s.position < s.size && (s.bottom == [] || s.lines == 0)
    ensures s.bottom == [] ==> NextPageState(s) == s
    ensures !ReachesBottom(s)
  {
  }

  /** A screen at the bottom is left alone by `scroll_to_bottom`. */
  lemma ScrollAtBottomIsIdentity(s: Screen)
    requires s.position >= s.size
    ensures ReachesBottom(s) && ScrollToBottomState(s) == s
  {
  }

  /** Enough rows below reach the bottom: with a positive height and a step
      of at least one row, `scroll_to_bottom` ends whenever `bottom` holds at
      least (size - position) / lines steps' worth of rows. */
  lemma {:induction false} ReachesBottomFromBelow(s: Screen)
    requires s.lines > 0 && PageStep(s.lines, s.ratio) >= 1
    requires s.position < s.size ==>
      |s.bottom| * s.lines >= (s.size - s.position) * PageStep(s.lines, s.ratio)
    ensures ReachesBottom(s)
    decreases s.size - s.position
  {
    if s.position < s.size {
      var step, lines, gap := PageStep(s.lines, s.ratio), s.lines, s.size - s.position;
      MulAtLeast(gap, step);
      assert |s.bottom| > 0;
      var t := NextPageState(s);
      if |s.bottom| < step {
        MulLess(|s.bottom|, step, lines);
        LessByFactor(gap, lines, step);
        assert t.position >= t.size;
      } else {
        assert |t.bottom| == |s.bottom| - step;
        if t.position < t.size {
          MulSub(|s.bottom|, step, lines);
          MulSub(gap, lines, step);
          assert t.size - t.position == gap - lines;
        }
      }
      ReachesBottomFromBelow(t);
    }
  }

  lemma MulAtLeast(a: nat, b: nat)
    requires a >= 1 && b >= 1
    ensures a * b >= b
  {
  }

  lemma MulLess(a: nat, b: nat, c: nat)
    requires a < b && c > 0
    ensures a * c < b * c
  {
  }

  lemma LessByFactor(a: nat, b: nat, c: nat)
    requires c > 0 && a * c < b * c
    ensures a < b
  {
  }

  lemma MulSub(a: nat, b: nat, c: nat)
    requires b <= a
    ensures (a - b) * c == a * c - b * c
  {
  }

  // ---------------------------------------------------------------------
  // Width normalisation and history reset

  /** A row cut or padded with default cells to exactly `columns` cells. */
  function FitWidth(row: Row, columns: nat): (r: Row)
    ensures |r| == columns
    ensures forall c :: 0 <= c < Min(|row|, columns) ==> r[c] == row[c]
    ensures forall c :: |row| <= c < columns ==> r[c] == DefaultCell
  {
    if |row| > columns then row[..columns]
    else if |row| < columns then row + Take(columns - |row|, seq(columns, _ => DefaultCell))
    else row
  }

  /** Fitting twice is fitting once. */
  lemma FitWidthIdempotent(row: Row, columns: nat)
    ensures FitWidth(FitWidth(row, columns), columns) == FitWidth(row, columns)
  {
  }

  /** The cursor is shown only within one screen of the bottom and with
      DECTCEM set. */
  function CursorHidden(s: Screen): (hidden: bool)
    ensures !hidden ==> s.dectcem && s.lines > 0
    ensures s.position == s.size ==> (hidden <==> !s.dectcem || s.lines == 0)
  {
    var distance := if s.position >= s.size then s.position - s.size else s.size - s.position;
    !(distance < s.lines && s.dectcem)
  }

  function EnsureScreenWidthState(s: Screen): (r: Screen)
    ensures |r.buffer| == |s.buffer|
    ensures forall i :: 0 <= i < |r.buffer| ==> |r.buffer[i]| == s.columns
  {
    s.(buffer := seq(|s.buffer|, i requires 0 <= i < |s.buffer| => FitWidth(s.buffer[i], s.columns)),
       cursorHidden := CursorHidden(s))
  }

  /** At the bottom of the history the cursor shows exactly when DECTCEM is
      set, as long as the screen has rows. */
  lemma CursorShownAtBottom(s: Screen)
    requires s.position == s.size && s.lines > 0
    ensures EnsureScreenWidthState(s).cursorHidden == !s.dectcem
  {
  }

  function ResetHistoryState(s: Screen): (r: Screen)
    ensures r.top == [] && r.bottom == [] && r.position == r.size
    ensures !PrevActs(r) && !NextActs(r)
    ensures r.(top := s.top, bottom := s.bottom, position := s.position) == s
  {
    s.(top := [], bottom := [], position := s.size)
  }

  /** After a reset the screen is at the bottom, with nothing to page to. */
  lemma ResetHistoryIsAtBottom(s: Screen)
    ensures var r := ResetHistoryState(s);
      !PrevActs(r) || r.position > r.lines
    ensures var r := ResetHistoryState(s);
      !NextActs(r) && PrevPageState(r) == r && ReachesBottom(r) && QueuesBounded(r)
  {
  }

  // ---------------------------------------------------------------------
  // The deque pops of the page steps

  /** `list(reversed([queue.pop() for _ in range(n)]))`: the last n items, in
      their order, and what is left.  The pops are collected front-first,
      which is the reversed list. */
  method PopRight<T>(queue: seq<T>, n: nat) returns (rest: seq<T>, popped: seq<T>)
    requires n <= |queue|
    ensures rest + popped == queue && |popped| == n
  {
    rest, popped := queue, [];
    var i := 0;
    while i < n
      invariant i <= n
      invariant rest == queue[..|queue| - i] && popped == queue[|queue| - i..]
    {
      var item := rest[|rest| - 1];
      assert queue[|queue| - (i + 1)..] == [item] + queue[|queue| - i..];
      rest := rest[..|rest| - 1];
      popped := [item] + popped;
      i := i + 1;
    }
  }

  /** `[queue.popleft() for _ in range(n)]`: the first n items and what is
      left. */
  method PopLeft<T>(queue: seq<T>, n: nat) returns (rest: seq<T>, popped: seq<T>)
    requires n <= |queue|
    ensures popped + rest == queue && |popped| == n
  {
    rest, popped := queue, [];
    var i := 0;
    while i < n
      invariant i <= n
      invariant rest == queue[i..] && popped == queue[..i]
    {
      assert queue[..i + 1] == popped + [rest[0]];
      popped := popped + [rest[0]];
      rest := rest[1..];
      i := i + 1;
    }
  }

  // ---------------------------------------------------------------------

  /** The screen object: its history fields are updated in place. */
  class CustomHistoryScreen {
    var lines: nat
    var columns: nat
    var buffer: seq<Row>
    var top: seq<Row>
    var bottom: seq<Row>
    var ratio: Ratio
    var size: nat
    var position: nat
    var dirty: set<nat>
    var cursorHidden: bool
    var dectcem: bool

    function State(): Screen
      reads this
    {
      Screen(lines, columns, buffer, top, bottom, ratio, size, position, dirty, cursorHidden, dectcem)
    }

    /** Both deques start empty and the screen at the bottom of the history.
        The screen's construction runs `reset`, which marks every row dirty. */
    constructor (columns: nat, lines: nat, history: nat, ratio: Ratio)
      ensures State() == Screen(lines, columns, seq(lines, _ => seq(columns, _ => DefaultCell)),
                                [], [], ratio, history, history, AllRows(lines), false, true)
    {
      this.lines, this.columns := lines, columns;
      this.buffer := seq(lines, _ => seq(columns, _ => DefaultCell));
      this.top, this.bottom := [], [];
      this.ratio, this.size, this.position := ratio, history, history;
      this.dirty, this.cursorHidden, this.dectcem := AllRows(lines), false, true;
    }

    method PrevPage()
      modifies this
      ensures State() == PrevPageState(old(State()))
    {
      if position > lines && |top| > 0 {
        var mid := Min(|top|, PageStep(lines, ratio));
        bottom := KeepFirst(TailSlice(buffer, mid) + bottom, size);
        position := position - lines;
        var rest, popped := PopRight(top, mid);
        top := rest;
        buffer := popped + DropTailSlice(buffer, mid);
        dirty := AllRows(lines);
      }
    }

    method NextPage()
      modifies this
      ensures State() == NextPageState(old(State()))
    {
      if position < size && |bottom| > 0 {
        var mid := Min(|bottom|, PageStep(lines, ratio));
        var moved := Take(mid, buffer);
        top := KeepLast(top + moved, size / 2);
        position := position + lines;
        var rest, popped := PopLeft(bottom, mid);
        bottom := rest;
        buffer := buffer[|moved|..] + popped;
        dirty := AllRows(lines);
      }
    }

    /** Loops `next_page` while above the bottom; callable only from states
        where that loop ends. */
    method ScrollToBottom()
      requires ReachesBottom(State())
      modifies this
      ensures State() == ScrollToBottomState(old(State()))
    {
      while position < size
        invariant ReachesBottom(State())
        invariant ScrollToBottomState(State()) == ScrollToBottomState(old(State()))
        decreases size - position
      {
        NextPage();
      }
    }

    method EnsureScreenWidth()
      modifies this
      ensures State() == EnsureScreenWidthState(old(State()))
    {
      var rows := buffer;
      var idx := 0;
      while idx < |rows|
        invariant |rows| == |buffer| && idx <= |rows|
        invariant forall i :: 0 <= i < idx ==> rows[i] == FitWidth(buffer[i], columns)
        invariant forall i :: idx <= i < |rows| ==> rows[i] == buffer[i]
      {
        var line := rows[idx];
        if |line| > columns {
          rows := rows[idx := line[..columns]];
        } else if |line| < columns {
          rows := rows[idx := line + Take(columns - |line|, seq(columns, _ => DefaultCell))];
        }
        idx := idx + 1;
      }
      cursorHidden := CursorHidden(State());
      buffer := rows;
    }

    method ResetHistory()
      modifies this
      ensures State() == ResetHistoryState(old(State()))
    {
      top := [];
      bottom := [];
      position := size;
    }
  }
}
