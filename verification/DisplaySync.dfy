/**
 * The row-span display sync of TerminalView2.py (`_update_lines` and its
 * helpers): the view keeps a local copy of the text of every row it has
 * written, and that copy is the only source of text offsets.  Row n starts
 * where the tracked rows above it end; a dirty row replaces its span with
 * its new text and a newline, or erases it; colour regions are keyed
 * "row,col" and kept per row in a deque that is emptied before the row is
 * rewritten.
 *
 * The editor itself is a ghost text plus a log of the calls made on it.
 */
module DisplaySync {
  import opened Wrappers
  import opened Colormap

  /** The tracked text of each written row, newline included. */
  type Contents = map<nat, string>

  /** A row's tracked text; an untracked row takes no room. */
  function RowText(m: Contents, i: nat): string
  {
    if i in m then m[i] else ""
  }

  /** The tracked rows lo .. hi - 1, in ascending order, concatenated. */
  function Between(m: Contents, lo: nat, hi: nat): string
    decreases hi
  {
    if hi <= lo then "" else Between(m, lo, hi - 1) + RowText(m, hi - 1)
  }

  lemma {:induction false} BetweenSplit(m: Contents, lo: nat, mid: nat, hi: nat)
    requires lo <= mid <= hi
    ensures Between(m, lo, hi) == Between(m, lo, mid) + Between(m, mid, hi)
    decreases hi
  {
    if hi > mid {
      BetweenSplit(m, lo, mid, hi - 1);
    }
  }

  /** Only the rows inside the range matter. */
  lemma {:induction false} BetweenLocal(m: Contents, m': Contents, lo: nat, hi: nat)
    requires forall i :: lo <= i < hi ==> RowText(m, i) == RowText(m', i)
    ensures Between(m, lo, hi) == Between(m', lo, hi)
    decreases hi
  {
    if hi > lo {
      BetweenLocal(m, m', lo, hi - 1);
    }
  }

  lemma {:induction false} BetweenBeyond(m: Contents, lo: nat, hi: nat)
    requires forall k :: k in m ==> k < lo
    ensures Between(m, lo, hi) == ""
    decreases hi
  {
    if hi > lo {
      BetweenBeyond(m, lo, hi - 1);
    }
  }

  /** A bound above every tracked row. */
  ghost function KeyBound(m: Contents): (b: nat)
    ensures forall k :: k in m ==> k < b
    decreases |m|
  {
    if m == map[] then 0
    else
      var k :| k in m;
      var rest := m - {k};
      assert rest.Keys == m.Keys - {k};
      assert |rest| < |m|;
      assert forall j :: j in m ==> j == k || j in rest;
      Max(k + 1, KeyBound(rest))
  }

  /** The text the view must hold: every tracked row, in ascending order. */
  ghost function Rendered(m: Contents): string
  {
    Between(m, 0, KeyBound(m))
  }

  /** Any bound above the tracked rows gives the same text. */
  lemma RenderedUpTo(m: Contents, hi: nat)
    requires forall k :: k in m ==> k < hi
    ensures Between(m, 0, hi) == Rendered(m)
  {
    var b := KeyBound(m);
    if hi >= b {
      BetweenSplit(m, 0, b, hi);
      BetweenBeyond(m, b, hi);
    } else {
      BetweenSplit(m, 0, hi, b);
      BetweenBeyond(m, hi, b);
    }
  }

  /** Where row n starts: the summed length of the tracked rows above it. */
  function SpanStart(m: Contents, n: nat): nat
  {
    |Between(m, 0, n)|
  }

  /** Where row n ends: its start plus its tracked length. */
  function SpanEnd(m: Contents, n: nat): nat
  {
    SpanStart(m, n) + |RowText(m, n)|
  }

  /** Row n's span in the rendered text holds exactly row n's tracked text,
      and everything before it is the rows above. */
  lemma SpanIsRow(m: Contents, n: nat)
    ensures SpanEnd(m, n) <= |Rendered(m)|
    ensures Rendered(m)[SpanStart(m, n)..SpanEnd(m, n)] == RowText(m, n)
    ensures Rendered(m)[..SpanStart(m, n)] == Between(m, 0, n)
  {
    var hi := Max(KeyBound(m), n + 1);
    RenderedUpTo(m, hi);
    BetweenSplit(m, 0, n, hi);
    BetweenSplit(m, n, n + 1, hi);
    assert Between(m, n, n + 1) == RowText(m, n);
  }

  /** The rendered text cut around row n. */
  lemma RenderedAround(m: Contents, n: nat, hi: nat)
    requires n < hi && forall k :: k in m ==> k < hi
    ensures Rendered(m) == Between(m, 0, n) + RowText(m, n) + Between(m, n + 1, hi)
  {
    RenderedUpTo(m, hi);
    BetweenSplit(m, 0, n, hi);
    BetweenSplit(m, n, n + 1, hi);
    assert Between(m, n, n + 1) == RowText(m, n);
  }

  /** Replacing row n's span by another text for row n gives the rendering of
      the changed rows: the mirror invariant survives a replace or an erase. */
  lemma SpliceRow(m: Contents, m': Contents, n: nat)
    requires forall i :: i != n ==> RowText(m, i) == RowText(m', i)
    ensures var v := Rendered(m);
      && SpanEnd(m, n) <= |v|
      && v[..SpanStart(m, n)] + RowText(m', n) + v[SpanEnd(m, n)..] == Rendered(m')
  {
    var hi := Max(Max(KeyBound(m), KeyBound(m')), n + 1);
    var above, below := Between(m, 0, n), Between(m, n + 1, hi);
    RenderedAround(m, n, hi);
    RenderedAround(m', n, hi);
    BetweenLocal(m, m', 0, n);
    BetweenLocal(m, m', n + 1, hi);
    var v := Rendered(m);
    assert v == above + RowText(m, n) + below;
    assert v[..|above|] == above;
    assert v[|above| + |RowText(m, n)|..] == below;
  }

  /** When every row above n is tracked with `width` characters, row n
      starts at n * width. */
  lemma {:induction false} SpanOfUniformRows(m: Contents, n: nat, width: nat)
    requires forall i :: 0 <= i < n ==> i in m && |m[i]| == width
    ensures SpanStart(m, n) == n * width
  {
    if n > 0 {
      SpanOfUniformRows(m, n - 1, width);
    }
  }

  // ---------------------------------------------------------------------
  // Region keys and scopes

  predicate IsDigit(ch: char)
  {
    '0' <= ch <= '9'
  }

  function DigitChar(d: nat): char
    requires d < 10
  {
    (48 + d) as char
  }

  /** `"%i" % n` for a natural number. */
  function NatToString(n: nat): (s: string)
    ensures |s| > 0 && forall i :: 0 <= i < |s| ==> IsDigit(s[i])
    decreases n
  {
    if n < 10 then [DigitChar(n)] else NatToString(n / 10) + [DigitChar(n % 10)]
  }

  /** The number a string of decimal digits denotes. */
  function DigitsValue(s: string): nat
  {
    if s == [] then 0
    else
      var d := s[|s| - 1] as int - 48;
      DigitsValue(s[..|s| - 1]) * 10 + (if 0 <= d < 10 then d else 0)
  }

  lemma {:induction false} NatToStringRoundTrip(n: nat)
    ensures DigitsValue(NatToString(n)) == n
    decreases n
  {
    if n >= 10 {
      NatToStringRoundTrip(n / 10);
      var s := NatToString(n);
      assert s[..|s| - 1] == NatToString(n / 10);
    }
  }

  /** The index of the first comma, or the length when there is none. */
  function CommaIndex(s: string): (i: nat)
    ensures i <= |s|
  {
    if s == [] || s[0] == ',' then 0 else 1 + CommaIndex(s[1..])
  }

  lemma {:induction false} CommaAfterDigits(a: string, b: string)
    requires forall i :: 0 <= i < |a| ==> IsDigit(a[i])
    ensures CommaIndex(a + "," + b) == |a|
  {
    if a != [] {
      assert (a + "," + b)[1..] == a[1..] + "," + b;
      CommaAfterDigits(a[1..], b);
    }
  }

  /** The colour-region key of a run: `"%i,%s" % (line_no, idx)`. */
  function RegionKey(row: nat, col: nat): (key: string)
    ensures |NatToString(row)| < |key| && key[|NatToString(row)|] == ','
    ensures forall i :: 0 <= i < |key| && i != |NatToString(row)| ==> IsDigit(key[i])
  {
    NatToString(row) + "," + NatToString(col)
  }

  /** Reads a region key back into (row, column). */
  function ParseKey(key: string): (nat, nat)
  {
    var i := CommaIndex(key);
    (DigitsValue(key[..i]), if i < |key| then DigitsValue(key[i + 1..]) else 0)
  }

  lemma RegionKeyRoundTrip(row: nat, col: nat)
    ensures ParseKey(RegionKey(row, col)) == (row, col)
  {
    var a, b := NatToString(row), NatToString(col);
    CommaAfterDigits(a, b);
    var key := a + "," + b;
    assert key[..|a|] == a;
    assert key[|a| + 1..] == b;
    NatToStringRoundTrip(row);
    NatToStringRoundTrip(col);
  }

  /** Two runs share a region key only when they have the same row and
      column, so no region overwrites another. */
  lemma RegionKeysDistinct(r1: nat, c1: nat, r2: nat, c2: nat)
    ensures RegionKey(r1, c1) == RegionKey(r2, c2) <==> r1 == r2 && c1 == c2
  {
    RegionKeyRoundTrip(r1, c1);
    RegionKeyRoundTrip(r2, c2);
  }

  /** The region scope `"terminalview.%s_%s" % (bg, fg)`. */
  function Scope(color: ColorPair): (scope: string)
    ensures "terminalview." <= scope
  {
    "terminalview." + ColorText(color.bg) + "_" + ColorText(color.fg)
  }

  // ---------------------------------------------------------------------
  // Ascending order

  /** A set with an element no larger than x has a least element. */
  lemma {:induction false} MinBelow(s: set<nat>, x: nat)
    requires x in s
    ensures exists m :: m in s && forall y :: y in s ==> m <= y
    decreases x
  {
    if exists y :: y in s && y < x {
      var y :| y in s && y < x;
      MinBelow(s, y);
    } else {
      assert forall y :: y in s ==> x <= y;
    }
  }

  /** The smallest element of a non-empty set. */
  function Least(s: set<nat>): (m: nat)
    requires s != {}
    ensures m in s && forall y :: y in s ==> m <= y
  {
    var x :| x in s;
    MinBelow(s, x);
    var m :| m in s && forall y :: y in s ==> m <= y;
    m
  }

  /** `sorted(s)`: the elements of the set in strictly ascending order. */
  function Ascending(s: set<nat>): (r: seq<nat>)
    ensures forall x :: x in r <==> x in s
    ensures forall i, j :: 0 <= i < j < |r| ==> r[i] < r[j]
    decreases |s|
  {
    if s == {} then []
    else
      var m := Least(s);
      var rest := Ascending(s - {m});
      assert forall i :: 0 <= i < |rest| ==> m < rest[i];
      [m] + rest
  }

  // ---------------------------------------------------------------------
  // The view and the bookkeeping of `_update_lines`

  /** One call on the editor. */
  datatype ViewCall =
    | Replace(start: nat, end: nat, text: string)
    | Erase(start: nat, end: nat)
    | AddRegion(key: string, start: nat, end: nat, scope: string)
    | EraseRegion(key: string)

  /** Everything `_update_lines` reads or changes. */
  datatype Sync = Sync(
    contents: Contents,              // `_buffer_contents`
    regions: map<nat, seq<string>>,  // `_color_regions`, each deque front first
    view: string,                    // the editor's text
    calls: seq<ViewCall>             // the calls made on the editor, in order
  )

  /** The headline invariant: the editor shows the tracked rows in ascending
      order and nothing else. */
  ghost predicate Mirrored(s: Sync)
  {
    s.view == Rendered(s.contents)
  }

  /** A row's deque of region keys; a row without one has none. */
  function Deque(regions: map<nat, seq<string>>, row: nat): seq<string>
  {
    if row in regions then regions[row] else []
  }

  /** One region erasure per key, front first. */
  function EraseCalls(keys: seq<string>): (calls: seq<ViewCall>)
    ensures |calls| == |keys|
    ensures forall i :: 0 <= i < |keys| ==> calls[i] == EraseRegion(keys[i])
  {
    if keys == [] then [] else [EraseRegion(keys[0])] + EraseCalls(keys[1..])
  }

  /** Erasing one more key of a deque. */
  lemma {:induction false} EraseCallsSnoc(keys: seq<string>, n: nat)
    requires n < |keys|
    ensures EraseCalls(keys[..n + 1]) == EraseCalls(keys[..n]) + [EraseRegion(keys[n])]
  {
    if n > 0 {
      EraseCallsSnoc(keys[1..], n - 1);
      assert keys[1..][..n] == keys[..n + 1][1..];
      assert keys[1..][..n - 1] == keys[..n][1..];
    }
  }

  /** `_remove_color_regions_on_line`. */
  function RemoveRegionsState(s: Sync, row: nat): (r: Sync)
    ensures r.contents == s.contents && r.view == s.view
    ensures Deque(r.regions, row) == []
    ensures forall i :: i != row ==> Deque(r.regions, i) == Deque(s.regions, i)
    ensures r.calls == s.calls + EraseCalls(Deque(s.regions, row))
  {
    if row in s.regions then s.(regions := s.regions[row := []], calls := s.calls + EraseCalls(s.regions[row]))
    else s
  }

  /** `_update_line_content`: the row's span is replaced by the text and a
      newline, or erased, and the tracked copy follows. */
  function UpdateContentState(s: Sync, row: nat, content: Option<string>): (r: Sync)
    requires Mirrored(s)
    ensures Mirrored(r)
    ensures content.None? ==> row !in r.contents
    ensures content.Some? ==> row in r.contents && r.contents[row] == content.value + "\n"
    ensures forall i :: i != row ==> (i in r.contents <==> i in s.contents)
    ensures forall i :: i != row && i in s.contents ==> r.contents[i] == s.contents[i]
    ensures r.regions == s.regions
  {
    var start, end := SpanStart(s.contents, row), SpanEnd(s.contents, row);
    match content
    case None =>
      var m := s.contents - {row};
      SpliceRow(s.contents, m, row);
      assert s.view[..start] + s.view[end..] == s.view[..start] + RowText(m, row) + s.view[end..];
      s.(view := s.view[..start] + s.view[end..], contents := m, calls := s.calls + [Erase(start, end)])
    case Some(text) =>
      var m := s.contents[row := text + "\n"];
      SpliceRow(s.contents, m, row);
      s.(view := s.view[..start] + (text + "\n") + s.view[end..], contents := m,
         calls := s.calls + [Replace(start, end, text + "\n")])
  }

  /** The region a run of the row gets: keyed "row,col", over the run's
      columns counted from the row's start, with the run's scope. */
  function AddRegionFor(m: Contents, row: nat, lineMap: LineMap, col: nat): (call: ViewCall)
    requires col in lineMap
    ensures call.AddRegion? && "terminalview." <= call.scope
    ensures call.start <= call.end && call.end - call.start == lineMap[col].fieldLength
  {
    var start := SpanStart(m, row) + col;
    AddRegion(RegionKey(row, col), start, start + lineMap[col].fieldLength, Scope(lineMap[col].color))
  }

  /** The region calls of a row's runs, in column order. */
  function AddCalls(m: Contents, row: nat, lineMap: LineMap, cols: seq<nat>): seq<ViewCall>
    requires forall c :: c in cols ==> c in lineMap
  {
    seq(|cols|, i requires 0 <= i < |cols| => AddRegionFor(m, row, lineMap, cols[i]))
  }

  /** The row's keys as `appendleft` leaves them: last registered first. */
  function PushedKeys(row: nat, cols: seq<nat>): (keys: seq<string>)
    ensures |keys| == |cols|
  {
    seq(|cols|, i requires 0 <= i < |cols| => RegionKey(row, cols[|cols| - 1 - i]))
  }

  /** The deques after pushing the keys of `cols` on the row's, one by one;
      no key, no deque. */
  function PushAll(regions: map<nat, seq<string>>, row: nat, cols: seq<nat>): map<nat, seq<string>>
  {
    if cols == [] then regions else regions[row := PushedKeys(row, cols) + Deque(regions, row)]
  }

  /** Pushing only touches the row's deque, which gains the keys at its
      front, the last column's first. */
  lemma PushAllDeques(regions: map<nat, seq<string>>, row: nat, cols: seq<nat>, other: nat)
    ensures cols == [] ==> PushAll(regions, row, cols) == regions
    ensures Deque(PushAll(regions, row, cols), row) == PushedKeys(row, cols) + Deque(regions, row)
    ensures other != row ==> Deque(PushAll(regions, row, cols), other) == Deque(regions, other)
    ensures forall i :: 0 <= i < |cols| ==> PushedKeys(row, cols)[|cols| - 1 - i] == RegionKey(row, cols[i])
  {
  }

  /** `_update_line_colors`: one region per run, in ascending column order,
      each key pushed on the front of the row's deque; a row without runs
      gets no deque. */
  function ColorsState(s: Sync, row: nat, lineMap: LineMap): (r: Sync)
    ensures r.contents == s.contents && r.view == s.view
    ensures lineMap == map[] ==> r == s
  {
    var cols := Ascending(lineMap.Keys);
    if cols == [] then s
    else s.(calls := s.calls + AddCalls(s.contents, row, lineMap, cols),
            regions := PushAll(s.regions, row, cols))
  }

  /** One dirty row: clear its regions, rewrite it, then colour it. */
  function UpdateRowState(s: Sync, row: nat, content: Option<string>, colorMap: ColorMap): (r: Sync)
    requires Mirrored(s)
    ensures Mirrored(r)
    ensures content.None? ==> row !in r.contents
    ensures content.Some? ==> row in r.contents && r.contents[row] == content.value + "\n"
  {
    var written := UpdateContentState(RemoveRegionsState(s, row), row, content);
    if row in colorMap then ColorsState(written, row, colorMap[row])
    else written
  }

  /** The dirty rows `rows`, in that order. */
  function UpdateLinesState(s: Sync, rows: seq<nat>, dirty: map<nat, Option<string>>, colorMap: ColorMap): (r: Sync)
    requires Mirrored(s)
    requires forall i :: i in rows ==> i in dirty
    ensures Mirrored(r)
    decreases |rows|
  {
    if rows == [] then s
    else
      var row := rows[|rows| - 1];
      UpdateRowState(UpdateLinesState(s, rows[..|rows| - 1], dirty, colorMap), row, dirty[row], colorMap)
  }

  // ---------------------------------------------------------------------
  // What the update promises

  /** The deque lists the keys of the region calls in reverse. */
  lemma KeysReverseAdds(m: Contents, row: nat, lineMap: LineMap, cols: seq<nat>)
    requires forall c :: c in cols ==> c in lineMap
    ensures forall i :: 0 <= i < |cols| ==>
      PushedKeys(row, cols)[i] == AddCalls(m, row, lineMap, cols)[|cols| - 1 - i].key
  {
  }

  /** Removal runs in reverse registration order: after a row is coloured
      from an empty deque, clearing it erases the pushed keys front first
      (the regions last-added first, by `KeysReverseAdds`), and leaves the
      deque empty. */
  lemma RegionsRemovedInReverse(s: Sync, row: nat, lineMap: LineMap)
    requires Deque(s.regions, row) == []
    ensures var cols := Ascending(lineMap.Keys);
      var coloured := ColorsState(s, row, lineMap);
      var cleared := RemoveRegionsState(coloured, row);
      var adds := AddCalls(s.contents, row, lineMap, cols);
      && coloured.calls == s.calls + adds
      && cleared.calls == coloured.calls + EraseCalls(PushedKeys(row, cols))
      && Deque(cleared.regions, row) == []
  {
    var cols := Ascending(lineMap.Keys);
    var keys := PushedKeys(row, cols);
    if cols == [] {
      assert AddCalls(s.contents, row, lineMap, cols) == [];
      assert EraseCalls(keys) == [];
    } else {
      assert keys + [] == keys;
    }
  }

  /** The tracked text a row gets from `content`: the text and a newline,
      or nothing when the row is erased. */
  function Written(content: Option<string>): string
  {
    if content.Some? then content.value + "\n" else ""
  }

  /** One dirty row: its tracked text is replaced, and no other row's is
      touched. */
  lemma RowContentsStep(s: Sync, row: nat, content: Option<string>, colorMap: ColorMap)
    requires Mirrored(s)
    ensures var r := UpdateRowState(s, row, content, colorMap);
      && (forall i :: i in r.contents <==> if i == row then content.Some? else i in s.contents)
      && (forall i :: RowText(r.contents, i) == if i == row then Written(content) else RowText(s.contents, i))
  {
  }

  /** Colouring a row puts its keys in front of its deque and leaves the
      other rows' deques alone. */
  lemma ColorsDeque(w: Sync, row: nat, lineMap: LineMap)
    ensures forall i :: Deque(ColorsState(w, row, lineMap).regions, i) ==
                        if i == row then PushedKeys(row, Ascending(lineMap.Keys)) + Deque(w.regions, row)
                        else Deque(w.regions, i)
  {
    if Ascending(lineMap.Keys) == [] {
      assert PushedKeys(row, []) + Deque(w.regions, row) == Deque(w.regions, row);
    }
  }

  /** One dirty row: its deque holds the keys of its runs, last registered
      first, and no other row's deque is touched. */
  lemma RowRegionsStep(s: Sync, row: nat, content: Option<string>, colorMap: ColorMap)
    requires Mirrored(s)
    ensures var r := UpdateRowState(s, row, content, colorMap);
      forall i :: Deque(r.regions, i) ==
        if i != row then Deque(s.regions, i)
        else if row in colorMap then PushedKeys(row, Ascending(colorMap[row].Keys))
        else []
  {
    var cleared := RemoveRegionsState(s, row);
    assert forall i :: Deque(cleared.regions, i) == if i == row then [] else Deque(s.regions, i);
    var written := UpdateContentState(cleared, row, content);
    assert written.regions == cleared.regions;
    if row in colorMap {
      ColorsDeque(written, row, colorMap[row]);
      assert PushedKeys(row, Ascending(colorMap[row].Keys)) + [] == PushedKeys(row, Ascending(colorMap[row].Keys));
    }
  }

  lemma LastOrInit(rows: seq<nat>, i: nat)
    requires rows != [] && i in rows
    ensures i in rows[..|rows| - 1] || i == rows[|rows| - 1]
  {
    var k :| 0 <= k < |rows| && rows[k] == i;
    if k < |rows| - 1 {
      assert rows[..|rows| - 1][k] == i;
    }
  }

  /** After the update every dirty row holds its new text and a newline, or
      is gone when the screen no longer has it, and every other row keeps
      its text. */
  lemma {:induction false} LinesContents(s: Sync, rows: seq<nat>, dirty: map<nat, Option<string>>, colorMap: ColorMap)
    requires Mirrored(s)
    requires forall i :: i in rows ==> i in dirty
    ensures var r := UpdateLinesState(s, rows, dirty, colorMap);
      forall i :: && (i in r.contents <==> if i in rows then dirty[i].Some? else i in s.contents)
                  && RowText(r.contents, i) == if i in rows then Written(dirty[i]) else RowText(s.contents, i)
    decreases |rows|
  {
    if rows != [] {
      var init, row := rows[..|rows| - 1], rows[|rows| - 1];
      LinesContents(s, init, dirty, colorMap);
      var before := UpdateLinesState(s, init, dirty, colorMap);
      RowContentsStep(before, row, dirty[row], colorMap);
      forall i | i in rows
        ensures i in init || i == row
      {
        LastOrInit(rows, i);
      }
    }
  }

  /** After the update every dirty row's deque holds exactly the keys of its
      new runs, last registered first, and every other row's deque is
      unchanged. */
  lemma {:induction false} LinesRegions(s: Sync, rows: seq<nat>, dirty: map<nat, Option<string>>, colorMap: ColorMap)
    requires Mirrored(s)
    requires forall i :: i in rows ==> i in dirty
    ensures var r := UpdateLinesState(s, rows, dirty, colorMap);
      forall i :: Deque(r.regions, i) ==
        if i !in rows then Deque(s.regions, i)
        else if i in colorMap then PushedKeys(i, Ascending(colorMap[i].Keys))
        else []
    decreases |rows|
  {
    if rows != [] {
      var init, row := rows[..|rows| - 1], rows[|rows| - 1];
      LinesRegions(s, init, dirty, colorMap);
      var before := UpdateLinesState(s, init, dirty, colorMap);
      RowRegionsStep(before, row, dirty[row], colorMap);
      forall i | i in rows
        ensures i in init || i == row
      {
        LastOrInit(rows, i);
      }
    }
  }

  /** A column range inside row `row`'s tracked text, read in the rendered
      text at the row's start. */
  lemma SliceOfRow(m: Contents, row: nat, text: string, col: nat, len: nat)
    requires RowText(m, row) == text + "\n" && col + len <= |text|
    ensures SpanStart(m, row) + col + len <= |Rendered(m)|
    ensures Rendered(m)[SpanStart(m, row) + col..SpanStart(m, row) + col + len] == text[col..col + len]
  {
    SpanIsRow(m, row);
    var v, a, b := Rendered(m), SpanStart(m, row), SpanEnd(m, row);
    assert v[a + col..a + col + len] == v[a..b][col..col + len];
  }

  /** A rewritten row's colour calls come right after its rewrite, one per
      run in column order, and leave the text alone. */
  lemma RowColorCalls(s: Sync, row: nat, text: string, colorMap: ColorMap)
    requires Mirrored(s) && row in colorMap
    ensures var written := UpdateContentState(RemoveRegionsState(s, row), row, Some(text));
      var r := UpdateRowState(s, row, Some(text), colorMap);
      && r.view == written.view
      && RowText(written.contents, row) == text + "\n"
      && r.calls == written.calls + AddCalls(written.contents, row, colorMap[row], Ascending(colorMap[row].Keys))
  {
    var written := UpdateContentState(RemoveRegionsState(s, row), row, Some(text));
    if Ascending(colorMap[row].Keys) == [] {
      assert AddCalls(written.contents, row, colorMap[row], []) == [];
    }
  }

  /** The regions sit on the row's text: a run's region starts `col`
      characters into the row's span, and when the run fits the row's text
      the region covers exactly the run's characters. */
  lemma RunRegionsCoverText(w: Sync, row: nat, text: string, lineMap: LineMap)
    requires Mirrored(w) && RowText(w.contents, row) == text + "\n"
    ensures forall col :: col in lineMap && col + lineMap[col].fieldLength <= |text| ==>
      && AddRegionFor(w.contents, row, lineMap, col).end <= |w.view|
      && w.view[AddRegionFor(w.contents, row, lineMap, col).start..AddRegionFor(w.contents, row, lineMap, col).end]
         == text[col..col + lineMap[col].fieldLength]
  {
    forall col | col in lineMap && col + lineMap[col].fieldLength <= |text|
      ensures && AddRegionFor(w.contents, row, lineMap, col).end <= |w.view|
              && w.view[AddRegionFor(w.contents, row, lineMap, col).start..AddRegionFor(w.contents, row, lineMap, col).end]
                 == text[col..col + lineMap[col].fieldLength]
    {
      SliceOfRow(w.contents, row, text, col, lineMap[col].fieldLength);
    }
  }

  /** The test layout: when rows 0 .. k are tracked `width` characters each,
      rewriting row k replaces [k * width, k * width + width). */
  lemma ReplaceOffsetsOfUniformRows(s: Sync, k: nat, text: string, width: nat)
    requires Mirrored(s)
    requires forall i :: 0 <= i <= k ==> i in s.contents && |s.contents[i]| == width
    ensures UpdateContentState(s, k, Some(text)).calls == s.calls + [Replace(k * width, k * width + width, text + "\n")]
  {
    SpanOfUniformRows(s.contents, k, width);
  }

  // ---------------------------------------------------------------------
  // The earlier generation: rows straight from the display

  /** The rows up to the first one past the display (`break`). */
  function TakeBelow(rows: seq<nat>, n: nat): (r: seq<nat>)
    ensures r <= rows
    ensures forall x :: x in r ==> x < n
  {
    if rows == [] || rows[0] > n - 1 then [] else [rows[0]] + TakeBelow(rows[1..], n)
  }

  /** On ascending rows the `break` skips exactly the rows past the display. */
  lemma {:induction false} TakeBelowSorted(rows: seq<nat>, n: nat)
    requires forall i, j :: 0 <= i < j < |rows| ==> rows[i] < rows[j]
    ensures forall x :: x in TakeBelow(rows, n) <==> x in rows && x < n
  {
    if rows != [] {
      TakeBelowSorted(rows[1..], n);
      if rows[0] >= n {
        forall x | x in rows
          ensures x >= n
        {
          var k :| 0 <= k < |rows| && rows[k] == x;
          if k > 0 {
            assert rows[0] < rows[k];
          }
        }
      }
      assert forall x :: x in rows <==> x == rows[0] || x in rows[1..];
    }
  }

  /** Every row of the display, as the dirty map of the earlier code. */
  function DisplayRows(display: seq<string>): (dirty: map<nat, Option<string>>)
    ensures forall r: nat :: r in dirty <==> r < |display|
  {
    map r: nat | r < |display| :: Some(display[r])
  }

  /** The earlier generation writes every dirty row the display has, never
      erases a row, and leaves the rows past the display alone. */
  lemma DisplayUpdateContents(s: Sync, lines: set<nat>, display: seq<string>, colorMap: ColorMap)
    requires Mirrored(s)
    ensures var r := UpdateLinesState(s, TakeBelow(Ascending(lines), |display|), DisplayRows(display), colorMap);
      forall i: nat :: && RowText(r.contents, i) == (if i in lines && i < |display| then display[i] + "\n" else RowText(s.contents, i))
                  && (i in s.contents ==> i in r.contents)
  {
    var rows := TakeBelow(Ascending(lines), |display|);
    TakeBelowSorted(Ascending(lines), |display|);
    LinesContents(s, rows, DisplayRows(display), colorMap);
  }

  /** One more column of the colouring loop. */
  lemma ColorsPrefixStep(m: Contents, row: nat, lineMap: LineMap, cols: seq<nat>, j: nat)
    requires j < |cols| && forall c :: c in cols ==> c in lineMap
    ensures AddCalls(m, row, lineMap, cols[..j + 1])
         == AddCalls(m, row, lineMap, cols[..j]) + [AddRegionFor(m, row, lineMap, cols[j])]
    ensures PushedKeys(row, cols[..j + 1]) == [RegionKey(row, cols[j])] + PushedKeys(row, cols[..j])
  {
  }

  /** Pushing one more key on the row's deque. */
  lemma PushAllStep(regions: map<nat, seq<string>>, row: nat, cols: seq<nat>, j: nat)
    requires j < |cols|
    ensures var before := PushAll(regions, row, cols[..j]);
      PushAll(regions, row, cols[..j + 1]) == before[row := [RegionKey(row, cols[j])] + Deque(before, row)]
  {
    var keys := PushedKeys(row, cols[..j + 1]);
    assert keys == [RegionKey(row, cols[j])] + PushedKeys(row, cols[..j]);
    assert |cols[..j + 1]| > 0;
    if j == 0 {
      assert cols[..j] == [];
      assert keys == [RegionKey(row, cols[j])];
    } else {
      assert |cols[..j]| > 0;
      assert keys + Deque(regions, row) == [RegionKey(row, cols[j])] + (PushedKeys(row, cols[..j]) + Deque(regions, row));
    }
  }

  /** One more row before the `break`: every row so far is on the display. */
  lemma DisplayStep(rows: seq<nat>, j: nat, display: seq<string>)
    requires j < |rows| && rows[j] < |display|
    requires forall k :: 0 <= k < j ==> rows[k] < |display|
    ensures forall k :: 0 <= k < j + 1 ==> rows[k] < |display|
    ensures forall i :: i in rows[..j + 1] ==> i in DisplayRows(display)
    ensures DisplayRows(display)[rows[j]] == Some(display[rows[j]])
  {
  }

  /** One more row of `UpdateLinesState`. */
  lemma LinesStep(s: Sync, rows: seq<nat>, j: nat, dirty: map<nat, Option<string>>, colorMap: ColorMap)
    requires Mirrored(s) && j < |rows|
    requires forall i :: i in rows[..j + 1] ==> i in dirty
    ensures forall i :: i in rows[..j] ==> i in dirty
    ensures UpdateLinesState(s, rows[..j + 1], dirty, colorMap)
         == UpdateRowState(UpdateLinesState(s, rows[..j], dirty, colorMap), rows[j], dirty[rows[j]], colorMap)
  {
    assert rows[..j + 1][..j] == rows[..j];
    forall i | i in rows[..j]
      ensures i in rows[..j + 1]
    {
      var k :| 0 <= k < j && rows[k] == i;
      assert rows[..j + 1][k] == i;
    }
  }

  /** The `break` at row j: every row before it is on the display and row j,
      if any, is not. */
  lemma {:induction false} TakeBelowPrefix(rows: seq<nat>, j: nat, n: nat)
    requires j <= |rows|
    requires forall k :: 0 <= k < j ==> rows[k] < n
    requires j == |rows| || rows[j] >= n
    ensures TakeBelow(rows, n) == rows[..j]
  {
    if j > 0 {
      TakeBelowPrefix(rows[1..], j - 1, n);
      assert rows[1..][..j - 1] == rows[1..j];
      assert rows[..j] == [rows[0]] + rows[1..j];
    }
  }

  // ---------------------------------------------------------------------

  /** The view-side state of the terminal view: the tracked rows and colour
      deques, with the editor's text and the calls on it as ghost state. */
  class LineSync {
    var bufferContents: Contents
    var colorRegions: map<nat, seq<string>>
    ghost var view: string
    ghost var calls: seq<ViewCall>

    ghost function State(): Sync
      reads this
    {
      Sync(bufferContents, colorRegions, view, calls)
    }

    ghost predicate Valid()
      reads this
    {
      Mirrored(State())
    }

    /** A fresh view: nothing tracked, nothing shown. */
    constructor ()
      ensures State() == Sync(map[], map[], "", []) && Valid()
    {
      bufferContents, colorRegions := map[], map[];
      view, calls := "", [];
      assert KeyBound(map[]) == 0;
    }

    /** `_get_line_start_and_end_points`: sums the tracked rows above. */
    method GetLineStartAndEndPoints(lineNo: nat) returns (startPoint: nat, endPoint: nat)
      ensures startPoint == SpanStart(bufferContents, lineNo)
      ensures endPoint == SpanEnd(bufferContents, lineNo)
    {
      startPoint := 0;
      var i := 0;
      while i < lineNo
        invariant i <= lineNo
        invariant startPoint == |Between(bufferContents, 0, i)|
      {
        if i in bufferContents {
          startPoint := startPoint + |bufferContents[i]|;
        }
        i := i + 1;
      }
      endPoint := startPoint;
      if lineNo in bufferContents {
        endPoint := endPoint + |bufferContents[lineNo]|;
      }
    }

    /** `_remove_color_regions_on_line`: pops the row's keys front first,
        erasing each region. */
    method RemoveColorRegionsOnLine(lineNo: nat)
      modifies this
      ensures State() == RemoveRegionsState(old(State()), lineNo)
    {
      if lineNo in colorRegions {
        var regionDeque := colorRegions[lineNo];
        ghost var keys := regionDeque;
        ghost var popped: nat := 0;
        ghost var erased: seq<ViewCall> := [];
        while regionDeque != []
          invariant popped <= |keys| && regionDeque == keys[popped..]
          invariant erased == EraseCalls(keys[..popped])
          invariant State() == old(State())
        {
          var region := regionDeque[0];
          EraseCallsSnoc(keys, popped);
          regionDeque := regionDeque[1..];
          erased := erased + [EraseRegion(region)];
          popped := popped + 1;
        }
        assert |keys[popped..]| == 0;
        assert keys[..popped] == keys;
        calls := calls + erased;
        colorRegions := colorRegions[lineNo := regionDeque];
      }
    }

    /** `_update_line_content`. */
    method UpdateLineContent(lineNo: nat, content: Option<string>)
      requires Valid()
      modifies this
      ensures State() == UpdateContentState(old(State()), lineNo, content)
    {
      var lineStart, lineEnd := GetLineStartAndEndPoints(lineNo);
      SpanIsRow(bufferContents, lineNo);
      if content.None? {
        view := view[..lineStart] + view[lineEnd..];
        calls := calls + [Erase(lineStart, lineEnd)];
        if lineNo in bufferContents {
          bufferContents := bufferContents - {lineNo};
        } else {
          assert bufferContents - {lineNo} == bufferContents;
        }
      } else {
        var contentWithNewline := content.value + "\n";
        view := view[..lineStart] + contentWithNewline + view[lineEnd..];
        calls := calls + [Replace(lineStart, lineEnd, contentWithNewline)];
        bufferContents := bufferContents[lineNo := contentWithNewline];
      }
    }

    /** `_register_color_region`: `appendleft`, creating the deque when the
        row has none. */
    method RegisterColorRegion(lineNo: nat, key: string)
      modifies this
      ensures colorRegions == old(colorRegions)[lineNo := [key] + Deque(old(colorRegions), lineNo)]
      ensures bufferContents == old(bufferContents) && view == old(view) && calls == old(calls)
    {
      if lineNo in colorRegions {
        colorRegions := colorRegions[lineNo := [key] + colorRegions[lineNo]];
      } else {
        assert [key] + Deque(colorRegions, lineNo) == [key];
        colorRegions := colorRegions[lineNo := [key]];
      }
    }

    /** The body of the loop of `_update_line_colors`: one region over the
        run at column `idx`, registered in the row's deque. */
    method ColorRun(lineNo: nat, lineColorMap: LineMap, idx: nat)
      requires idx in lineColorMap
      modifies this
      ensures calls == old(calls) + [AddRegionFor(bufferContents, lineNo, lineColorMap, idx)]
      ensures colorRegions == old(colorRegions)[lineNo := [RegionKey(lineNo, idx)] + Deque(old(colorRegions), lineNo)]
      ensures bufferContents == old(bufferContents) && view == old(view)
    {
      var field := lineColorMap[idx];
      var colorScope := Scope(field.color);
      var lineStart, lineEnd := GetLineStartAndEndPoints(lineNo);
      var colorStart := lineStart + idx;
      var regionKey := RegionKey(lineNo, idx);
      ghost var call := AddRegion(regionKey, colorStart, colorStart + field.fieldLength, colorScope);
      ghost var spec := AddRegionFor(bufferContents, lineNo, lineColorMap, idx);
      assert spec.key == regionKey && spec.scope == colorScope;
      assert spec.start == colorStart && spec.end == colorStart + field.fieldLength;
      assert call == spec;
      calls := calls + [call];
      RegisterColorRegion(lineNo, regionKey);
    }

    /** `_update_line_colors`, visiting the runs in ascending column order
        (the order the colour map inserted them). */
    method UpdateLineColors(lineNo: nat, lineColorMap: LineMap)
      modifies this
      ensures State() == ColorsState(old(State()), lineNo, lineColorMap)
    {
      var cols := Ascending(lineColorMap.Keys);
      var j := 0;
      while j < |cols|
        invariant j <= |cols|
        invariant bufferContents == old(bufferContents) && view == old(view)
        invariant calls == old(calls) + AddCalls(old(bufferContents), lineNo, lineColorMap, cols[..j])
        invariant colorRegions == PushAll(old(colorRegions), lineNo, cols[..j])
      {
        ColorsPrefixStep(bufferContents, lineNo, lineColorMap, cols, j);
        PushAllStep(old(colorRegions), lineNo, cols, j);
        ghost var prev := AddCalls(old(bufferContents), lineNo, lineColorMap, cols[..j]);
        ColorRun(lineNo, lineColorMap, cols[j]);
        assert calls == old(calls) + (prev + [AddRegionFor(bufferContents, lineNo, lineColorMap, cols[j])]);
        j := j + 1;
      }
      assert cols[..|cols|] == cols;
    }

    /** The body of the row loop of `_update_lines`: clear the row's regions,
        rewrite it, colour it when the colour map has it. */
    method UpdateRow(lineNo: nat, content: Option<string>, colorMap: ColorMap)
      requires Valid()
      modifies this
      ensures State() == UpdateRowState(old(State()), lineNo, content, colorMap)
    {
      RemoveColorRegionsOnLine(lineNo);
      UpdateLineContent(lineNo, content);
      if lineNo in colorMap {
        UpdateLineColors(lineNo, colorMap[lineNo]);
      }
    }

    /** `_update_lines`: the dirty rows in ascending order, each cleared,
        rewritten and coloured. */
    method UpdateLines(dirtyLines: map<nat, Option<string>>, colorMap: ColorMap)
      requires Valid()
      modifies this
      ensures Valid()
      ensures State() == UpdateLinesState(old(State()), Ascending(dirtyLines.Keys), dirtyLines, colorMap)
    {
      var rows := Ascending(dirtyLines.Keys);
      var j := 0;
      while j < |rows|
        invariant j <= |rows|
        invariant State() == UpdateLinesState(old(State()), rows[..j], dirtyLines, colorMap)
      {
        var lineNo := rows[j];
        LinesStep(old(State()), rows, j, dirtyLines, colorMap);
        ghost var before := State();
        UpdateRow(lineNo, dirtyLines[lineNo], colorMap);
        assert State() == UpdateRowState(before, lineNo, dirtyLines[lineNo], colorMap);
        j := j + 1;
      }
      assert rows[..|rows|] == rows;
    }

    /** `TerminalViewUpdateLines.run` of the earlier generation: rows in
        ascending order straight from the display, stopping at the first row
        past it, each always replaced. */
    method UpdateLinesFromDisplay(lines: set<nat>, display: seq<string>, colorMap: ColorMap)
      requires Valid()
      modifies this
      ensures Valid()
      ensures State() == UpdateLinesState(old(State()), TakeBelow(Ascending(lines), |display|), DisplayRows(display), colorMap)
    {
      var rows := Ascending(lines);
      var j := 0;
      while j < |rows|
        invariant j <= |rows|
        invariant forall k :: 0 <= k < j ==> rows[k] < |display|
        invariant State() == UpdateLinesState(old(State()), rows[..j], DisplayRows(display), colorMap)
      {
        var lineNo := rows[j];
        if lineNo > |display| - 1 {
          break;
        }
        DisplayStep(rows, j, display);
        LinesStep(old(State()), rows, j, DisplayRows(display), colorMap);
        ghost var before := State();
        UpdateRow(lineNo, Some(display[lineNo]), colorMap);
        assert State() == UpdateRowState(before, lineNo, Some(display[lineNo]), colorMap);
        j := j + 1;
      }
      TakeBelowPrefix(rows, j, |display|);
    }
  }
}
