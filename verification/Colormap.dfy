/**
 * `convert_pyte_buffer_to_colormap` of terminal_emulator.py: the colour runs
 * of the requested screen lines.  A cell's colour pair is its (bg, fg) after
 * mapping a default background to black and a default foreground to white.
 * For each requested line the result holds one entry per maximal run of equal
 * colour pairs that is not plain black-on-white, keyed by the run's first
 * column, with the run's length.
 */
module Colormap {
  import opened Wrappers

  /** A pyte colour name.  pyte names colours by strings ("default", "red",
      a hex code, ...); the three strings the code compares against get
      constructors of their own and every other string is carried as is. */
  datatype ColorName = Default | Black | White | Other(name: string)

  /** A name as pyte spells it; `Other` carries any other string. */
  predicate Canonical(c: ColorName)
  {
    c.Other? ==> c.name != "default" && c.name != "black" && c.name != "white"
  }

  /** Reading pyte's colour string. */
  function ParseColor(s: string): (c: ColorName)
    ensures Canonical(c)
  {
    if s == "default" then Default
    else if s == "black" then Black
    else if s == "white" then White
    else Other(s)
  }

  function ColorText(c: ColorName): string
  {
    match c
    case Default => "default"
    case Black => "black"
    case White => "white"
    case Other(name) => name
  }

  /** The representation loses nothing: comparing names compares the strings. */
  lemma ParseColorRoundTrip(s: string, c: ColorName)
    ensures ColorText(ParseColor(s)) == s
    ensures Canonical(c) ==> ParseColor(ColorText(c)) == c
  {
  }

  /** A pyte character cell, reduced to the two attributes read here. */
  datatype Cell = Cell(bg: ColorName, fg: ColorName)

  /** A (bg, fg) pair after default mapping. */
  datatype ColorPair = ColorPair(bg: ColorName, fg: ColorName)

  /** One entry of a line's colour map: `{"color": ..., "field_length": ...}`. */
  datatype Field = Field(color: ColorPair, fieldLength: nat)

  type LineMap = map<nat, Field>

  type ColorMap = map<nat, LineMap>

  /** The colours nobody needs to paint. */
  const Plain: ColorPair := ColorPair(Black, White)

  /** Default background is black, default foreground is white. */
  function MapColor(c: Cell): (p: ColorPair)
    ensures p.bg != Default && p.fg != Default
    ensures c.bg != Default ==> p.bg == c.bg
    ensures c.fg != Default ==> p.fg == c.fg
  {
    ColorPair(if c.bg == Default then Black else c.bg,
              if c.fg == Default then White else c.fg)
  }

  /** The cells that map to the plain pair: a default or black background
      with a default or white foreground. */
  lemma PlainCells(c: Cell)
    ensures MapColor(c) == Plain <==> (c.bg == Default || c.bg == Black) && (c.fg == Default || c.fg == White)
  {
  }

  function Colors(line: seq<Cell>): seq<ColorPair>
  {
    seq(|line|, i requires 0 <= i < |line| => MapColor(line[i]))
  }

  // ---------------------------------------------------------------------
  // Runs of equal colour

  /** Column `i` begins a run: it is the first column or differs from its left
      neighbour. */
  predicate RunStart(cs: seq<ColorPair>, i: nat)
  {
    i < |cs| && (i == 0 || cs[i - 1] != cs[i])
  }

  /** Length of the maximal run of equal colours that begins at column `i`. */
  function RunLength(cs: seq<ColorPair>, i: nat): (n: nat)
    requires i < |cs|
    ensures 1 <= n <= |cs| - i
    decreases |cs| - i
  {
    if i + 1 < |cs| && cs[i + 1] == cs[i] then 1 + RunLength(cs, i + 1) else 1
  }

  /** The run is what its name says: every column in it has the colour of its
      first column, and the colour changes (or the line ends) right after it. */
  lemma {:induction false} RunIsMaximal(cs: seq<ColorPair>, i: nat)
    requires i < |cs|
    ensures forall j :: i <= j < i + RunLength(cs, i) ==> cs[j] == cs[i]
    ensures i + RunLength(cs, i) == |cs| || cs[i + RunLength(cs, i)] != cs[i]
    decreases |cs| - i
  {
    if i + 1 < |cs| && cs[i + 1] == cs[i] {
      RunIsMaximal(cs, i + 1);
    }
  }

  /** The colour map of one line: every run that is not plain, by start column. */
  function LineColorMap(cs: seq<ColorPair>): (m: LineMap)
    ensures forall i {:trigger m[i]} :: i in m ==>
      && i < |cs| && m[i].color == cs[i] && m[i].color != Plain
      && 1 <= m[i].fieldLength && i + m[i].fieldLength <= |cs|
  {
    map i: nat | i < |cs| && RunStart(cs, i) && cs[i] != Plain :: Field(cs[i], RunLength(cs, i))
  }

  /** The start of the run that contains column `j`. */
  function StartOfRun(cs: seq<ColorPair>, j: nat): (s: nat)
    requires j < |cs|
    ensures s <= j && RunStart(cs, s)
    ensures forall c :: s <= c <= j ==> cs[c] == cs[j]
  {
    if j == 0 || cs[j - 1] != cs[j] then j else StartOfRun(cs, j - 1)
  }

  /** The start of a run is the start of every column it covers. */
  lemma {:induction false} StartOfRunInside(cs: seq<ColorPair>, s: nat, j: nat)
    requires RunStart(cs, s) && s <= j < |cs|
    requires forall c :: s <= c <= j ==> cs[c] == cs[s]
    ensures StartOfRun(cs, j) == s
    decreases j
  {
    if j > s {
      assert cs[j - 1] == cs[j];
      StartOfRunInside(cs, s, j - 1);
    }
  }

  /** Column `j` lies inside the run that `StartOfRun` names. */
  lemma RunCoversColumn(cs: seq<ColorPair>, j: nat)
    requires j < |cs|
    ensures j < StartOfRun(cs, j) + RunLength(cs, StartOfRun(cs, j))
  {
    RunReaches(cs, StartOfRun(cs, j), j);
  }

  /** A run that begins before another run start ends before it. */
  lemma RunEndsBeforeNextStart(cs: seq<ColorPair>, i: nat, s: nat)
    requires RunStart(cs, i) && RunStart(cs, s) && i < s
    ensures i + RunLength(cs, i) <= s
  {
    RunIsMaximal(cs, i);
  }

  /** A run whose first k + 1 - last columns agree is at least that long. */
  lemma RunReaches(cs: seq<ColorPair>, last: nat, k: nat)
    requires last <= k < |cs|
    requires forall j :: last <= j <= k ==> cs[j] == cs[last]
    ensures RunLength(cs, last) >= k + 1 - last
  {
    RunIsMaximal(cs, last);
  }

  // ---------------------------------------------------------------------
  // The scan of one line

  /** What the scan does at column j: the run containing it is recorded, if
      it is painted, with the length it has so far. */
  function RecordRun(m: LineMap, cs: seq<ColorPair>, j: nat): LineMap
    requires j < |cs|
  {
    var s := StartOfRun(cs, j);
    if cs[s] != Plain then m[s := Field(cs[s], j + 1 - s)] else m
  }

  /** What the scan has recorded after the first `k` columns. */
  function ScannedColorMap(cs: seq<ColorPair>, k: nat): LineMap
    requires k <= |cs|
  {
    if k == 0 then map[] else RecordRun(ScannedColorMap(cs, k - 1), cs, k - 1)
  }

  /** The runs begun in the first `k` columns, each cut at column `k`. */
  function CutColorMap(cs: seq<ColorPair>, k: nat): LineMap
    requires k <= |cs|
  {
    map i: nat | i < k && RunStart(cs, i) && cs[i] != Plain :: Field(cs[i], Min(RunLength(cs, i), k - i))
  }

  /** A column other than the current run's start has the same entry before
      and after one more column. */
  lemma CutKeepsOtherRuns(cs: seq<ColorPair>, k: nat, last: nat, i: nat)
    requires k < |cs| && last <= k && RunStart(cs, last) && i != last
    requires forall j :: last <= j <= k ==> cs[j] == cs[last]
    ensures i in CutColorMap(cs, k + 1) <==> i in CutColorMap(cs, k)
    ensures i in CutColorMap(cs, k) ==> CutColorMap(cs, k + 1)[i] == CutColorMap(cs, k)[i]
  {
    if i < last && RunStart(cs, i) {
      RunEndsBeforeNextStart(cs, i, last);
    }
  }

  /** One more column extends only the run that contains it. */
  lemma CutStep(cs: seq<ColorPair>, k: nat)
    requires k < |cs|
    ensures var s := StartOfRun(cs, k);
      cs[s] != Plain ==> CutColorMap(cs, k + 1) == CutColorMap(cs, k)[s := Field(cs[s], k + 1 - s)]
    ensures var s := StartOfRun(cs, k);
      cs[s] == Plain ==> CutColorMap(cs, k + 1) == CutColorMap(cs, k)
  {
    var last := StartOfRun(cs, k);
    var before, after := CutColorMap(cs, k), CutColorMap(cs, k + 1);
    RunReaches(cs, last, k);
    forall i: nat | i != last
      ensures i in after <==> i in before
      ensures i in after ==> after[i] == before[i]
    {
      CutKeepsOtherRuns(cs, k, last, i);
    }
    if cs[last] != Plain {
      var expected := before[last := Field(cs[last], k + 1 - last)];
      assert after.Keys == expected.Keys;
    } else {
      assert after.Keys == before.Keys;
    }
  }

  /** The scan records exactly the runs begun so far, cut at the scan
      position; at the end of the line that is the line's colour map. */
  lemma {:induction false} ScanIsCut(cs: seq<ColorPair>, k: nat)
    requires k <= |cs|
    ensures ScannedColorMap(cs, k) == CutColorMap(cs, k)
  {
    if k > 0 {
      var j := k - 1;
      ScanIsCut(cs, j);
      assert ScannedColorMap(cs, k) == RecordRun(CutColorMap(cs, j), cs, j);
      CutStep(cs, j);
    }
  }

  lemma ScanComplete(cs: seq<ColorPair>)
    ensures ScannedColorMap(cs, |cs|) == LineColorMap(cs)
  {
    ScanIsCut(cs, |cs|);
  }

  /** The loop over the cells of one line, as written in the source, including
      the re-recording of the current run after every cell. */
  method ScanLine(line: seq<Cell>) returns (lineMap: LineMap)
    requires |line| > 0
    ensures lineMap == LineColorMap(Colors(line))
  {
    ghost var cs := Colors(line);
    var lastColor := MapColor(line[0]);
    var lastIndex: nat := 0;
    var fieldLength: nat := 0;
    lineMap := map[];
    var charIndex: nat := 0;
    while charIndex < |line|
      invariant charIndex <= |line| && lastIndex <= charIndex
      invariant charIndex == 0 ==> lastColor == cs[0] && lastIndex == 0
      invariant charIndex > 0 ==> StartOfRun(cs, charIndex - 1) == lastIndex && lastColor == cs[charIndex - 1]
      invariant fieldLength == charIndex - lastIndex
      invariant lineMap == ScannedColorMap(cs, charIndex)
    {
      ghost var next := RecordRun(lineMap, cs, charIndex);
      var color := MapColor(line[charIndex]);
      assert color == cs[charIndex];
      if lastColor == color {
        fieldLength := fieldLength + 1;
      } else {
        // The run just ended was recorded with this length after the
        // previous cell: recording it again changes nothing.
        if lastColor != Plain {
          lineMap := lineMap[lastIndex := Field(lastColor, fieldLength)];
        }
        lastColor := color;
        lastIndex := charIndex;
        fieldLength := 1;
      }
      assert StartOfRun(cs, charIndex) == lastIndex;
      // The run in progress is recorded after every cell, so a run reaching
      // the end of the line is recorded with its full length.
      if lastColor != Plain {
        lineMap := lineMap[lastIndex := Field(lastColor, fieldLength)];
      }
      assert lineMap == next;
      charIndex := charIndex + 1;
    }
    ScanComplete(cs);
  }

  // ---------------------------------------------------------------------
  // Properties of a line's colour map

  /** Decoding a line's colour map gives back every cell's colour: a column is
      covered by an entry iff its colour is not plain, and the entry covering
      it has the cell's colour. */
  lemma LineColorMapCovers(cs: seq<ColorPair>, j: nat)
    requires j < |cs|
    ensures cs[j] != Plain <==>
      exists i :: i in LineColorMap(cs) && i <= j < i + LineColorMap(cs)[i].fieldLength
    ensures forall i :: i in LineColorMap(cs) && i <= j < i + LineColorMap(cs)[i].fieldLength ==>
      LineColorMap(cs)[i].color == cs[j]
  {
    var m := LineColorMap(cs);
    var s := StartOfRun(cs, j);
    RunCoversColumn(cs, j);
    if cs[j] != Plain {
      assert s in m && s <= j < s + m[s].fieldLength;
    }
    forall i | i in m && i <= j < i + m[i].fieldLength
      ensures m[i].color == cs[j]
    {
      RunIsMaximal(cs, i);
    }
  }

  /** Entries lie inside the line and do not overlap. */
  lemma LineColorMapDisjoint(cs: seq<ColorPair>, i: nat, i': nat)
    requires i in LineColorMap(cs) && i' in LineColorMap(cs) && i < i'
    ensures i + LineColorMap(cs)[i].fieldLength <= i'
    ensures i' + LineColorMap(cs)[i'].fieldLength <= |cs|
    ensures LineColorMap(cs)[i].fieldLength >= 1
  {
    RunEndsBeforeNextStart(cs, i, i');
  }

  /** Entries are maximal: the colour changes (or the line ends) on both sides
      of every entry, and is constant inside it. */
  lemma LineColorMapMaximal(cs: seq<ColorPair>, i: nat)
    requires i in LineColorMap(cs)
    ensures var f := LineColorMap(cs)[i];
      && f.color != Plain
      && (i == 0 || cs[i - 1] != f.color)
      && (i + f.fieldLength == |cs| || cs[i + f.fieldLength] != f.color)
      && forall j :: i <= j < i + f.fieldLength ==> cs[j] == f.color
  {
    RunIsMaximal(cs, i);
  }

  /** A line with no painted cell has an empty colour map. */
  lemma PlainLineHasNoEntries(cs: seq<ColorPair>)
    requires forall j :: 0 <= j < |cs| ==> cs[j] == Plain
    ensures LineColorMap(cs) == map[]
  {
  }

  // ---------------------------------------------------------------------
  // The whole buffer

  /** How many of the requested lines are processed: the loop stops at the
      first index past the end of the buffer. */
  function ProcessedCount(buffer: seq<seq<Cell>>, lines: seq<nat>): (n: nat)
    ensures n <= |lines|
    ensures forall j :: 0 <= j < n ==> lines[j] < |buffer|
    ensures n == |lines| || lines[n] >= |buffer|
  {
    if lines == [] || lines[0] >= |buffer| then 0
    else 1 + ProcessedCount(buffer, lines[1..])
  }

  /** The colour map of the given rows: rows without any painted run get no
      entry at all. */
  function RowsColorMap(buffer: seq<seq<Cell>>, rows: seq<nat>): ColorMap
  {
    map r: nat | r in rows && r < |buffer| && LineColorMap(Colors(buffer[r])) != map[] ::
      LineColorMap(Colors(buffer[r]))
  }

  /** The result of `convert_pyte_buffer_to_colormap(buffer, lines)`. */
  function BufferColorMap(buffer: seq<seq<Cell>>, lines: seq<nat>): (m: ColorMap)
    ensures forall r :: r in m ==> r in lines && r < |buffer| && m[r] != map[]
  {
    RowsColorMap(buffer, lines[..ProcessedCount(buffer, lines)])
  }

  lemma RowsColorMapStep(buffer: seq<seq<Cell>>, lines: seq<nat>, j: nat)
    requires j < |lines| && lines[j] < |buffer|
    ensures var row := lines[j];
      var lm := LineColorMap(Colors(buffer[row]));
      RowsColorMap(buffer, lines[..j + 1]) ==
        if lm != map[] then RowsColorMap(buffer, lines[..j])[row := lm]
        else RowsColorMap(buffer, lines[..j])
  {
    assert lines[..j + 1] == lines[..j] + [lines[j]];
  }

  /** `convert_pyte_buffer_to_colormap`. */
  method ConvertPyteBufferToColormap(buffer: seq<seq<Cell>>, lines: seq<nat>) returns (colorMap: ColorMap)
    ensures colorMap == BufferColorMap(buffer, lines)
  {
    colorMap := map[];
    var j := 0;
    while j < |lines|
      invariant j <= ProcessedCount(buffer, lines)
      invariant colorMap == RowsColorMap(buffer, lines[..j])
    {
      var lineIndex := lines[j];
      // Lines outside the buffer after a resize end the whole scan.
      if lineIndex > |buffer| - 1 {
        break;
      }
      RowsColorMapStep(buffer, lines, j);
      var line := buffer[lineIndex];
      if |line| == 0 {
        j := j + 1;
        continue;
      }
      var lineMap := ScanLine(line);
      // The source creates `color_map[line_index]` when it records the first
      // run, so a line without painted runs gets no entry.
      if lineMap != map[] {
        colorMap := colorMap[lineIndex := lineMap];
      }
      j := j + 1;
    }
  }

  /** Only requested, in-range lines before the first out-of-range index get
      an entry; each holds exactly that line's runs. */
  lemma BufferColorMapRows(buffer: seq<seq<Cell>>, lines: seq<nat>, row: nat)
    ensures row in BufferColorMap(buffer, lines) <==>
      exists j :: 0 <= j < ProcessedCount(buffer, lines) && lines[j] == row
        && LineColorMap(Colors(buffer[row])) != map[]
    ensures row in BufferColorMap(buffer, lines) ==>
      BufferColorMap(buffer, lines)[row] == LineColorMap(Colors(buffer[row]))
  {
  }

  /** Requesting an out-of-range index hides every index requested after it. */
  lemma BreakHidesLaterLines(buffer: seq<seq<Cell>>, lines: seq<nat>, k: nat)
    requires k < |lines| && lines[k] >= |buffer|
    ensures BufferColorMap(buffer, lines) == BufferColorMap(buffer, lines[..k])
  {
    var n := ProcessedCount(buffer, lines);
    assert n <= k;
    ProcessedPrefix(buffer, lines, k);
    assert lines[..k][..n] == lines[..n];
  }

  lemma {:induction false} ProcessedPrefix(buffer: seq<seq<Cell>>, lines: seq<nat>, k: nat)
    requires ProcessedCount(buffer, lines) <= k <= |lines|
    ensures ProcessedCount(buffer, lines[..k]) == ProcessedCount(buffer, lines)
  {
    if lines != [] && lines[0] < |buffer| {
      ProcessedPrefix(buffer, lines[1..], k - 1);
      assert lines[..k][1..] == lines[1..][..k - 1];
    }
  }
}
