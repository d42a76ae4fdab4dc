/**
 * `convert_pyte_buffer_lines_to_colormap` of SublimeTerminalBuffer.py, the
 * earlier generation of the colour-run extraction, as it is written.  It
 * differs from `Colormap` in two places: the run tracker starts from the
 * first cell's colours before default mapping, and a run is recorded only
 * when the colour changes, never at the end of the line.
 */
module LegacyColormap {
  import opened Wrappers
  import opened Colormap

  /** A cell's (bg, fg) without default mapping. */
  function RawColor(c: Cell): (p: ColorPair)
    ensures p == MapColor(c) <==> c.bg != Default && c.fg != Default
  {
    ColorPair(c.bg, c.fg)
  }

  /** The runs that end before the end of the line: the only ones the old scan
      records with their length. */
  function ClosedRuns(cs: seq<ColorPair>, k: nat): LineMap
    requires k <= |cs|
  {
    map i: nat | i < k && RunStart(cs, i) && i + RunLength(cs, i) < k && cs[i] != Plain ::
      Field(cs[i], RunLength(cs, i))
  }

  /** The entry the first change of colour writes when the first cell's raw
      colours differ from its mapped ones: the raw pair with length zero. */
  function StaleEntry(line: seq<Cell>): (m: LineMap)
    requires |line| > 0
    ensures m.Keys <= {0}
    ensures 0 in m <==> line[0].bg == Default || line[0].fg == Default
    ensures 0 in m ==> m[0].fieldLength == 0 && m[0].color != Plain
  {
    var raw := RawColor(line[0]);
    if raw != MapColor(line[0]) then map[0 := Field(raw, 0)] else map[]
  }

  /** What the old code returns for one non-empty line. */
  function LegacyLineColorMap(line: seq<Cell>): (m: LineMap)
    requires |line| > 0
    ensures forall i {:trigger m[i]} :: i in m ==> i < |line| && m[i].color != Plain && i + m[i].fieldLength < |line|
  {
    StaleEntry(line) + ClosedRuns(Colors(line), |line|)
  }

  /** A raw pair that differs from its mapped pair mentions `Default`, so it is
      never the plain pair and the old code records it. */
  lemma StaleIsNotPlain(c: Cell)
    requires RawColor(c) != MapColor(c)
    ensures RawColor(c) != Plain
    ensures RawColor(c).bg == Default || RawColor(c).fg == Default
  {
  }

  // ---------------------------------------------------------------------
  // The scan as written

  /** What the old scan does at column j (j >= 1): when the colour changes
      there, it records the run that ends at j - 1, unless that run is plain. */
  function ScanStep(prev: LineMap, cs: seq<ColorPair>, j: nat): LineMap
    requires 1 <= j < |cs|
  {
    var s := StartOfRun(cs, j - 1);
    if RunStart(cs, j) && cs[s] != Plain then prev[s := Field(cs[s], j - s)] else prev
  }

  /** What the old scan has recorded after the first `k` columns (k >= 1) of
      a line with colours `cs`: the stale entry after column 0, then one
      `ScanStep` per column. */
  function LegacyScan(stale: LineMap, cs: seq<ColorPair>, k: nat): LineMap
    requires 1 <= k <= |cs|
  {
    if k == 1 then stale else ScanStep(LegacyScan(stale, cs, k - 1), cs, k - 1)
  }

  /** Per key, a column's closed-run entry changes at column k only for the run
      that column k closes. */
  lemma ClosedRunsKeep(cs: seq<ColorPair>, k: nat, i: nat)
    requires 1 <= k < |cs|
    requires !RunStart(cs, k) || i != StartOfRun(cs, k - 1)
    ensures i in ClosedRuns(cs, k + 1) <==> i in ClosedRuns(cs, k)
    ensures i in ClosedRuns(cs, k) ==> ClosedRuns(cs, k + 1)[i] == ClosedRuns(cs, k)[i]
  {
    if i < k + 1 && RunStart(cs, i) && i + RunLength(cs, i) == k {
      RunIsMaximal(cs, i);
      StartOfRunInside(cs, i, k - 1);
    }
  }

  /** The run a run start closes spans exactly the columns before it. */
  lemma ClosingRunLength(cs: seq<ColorPair>, k: nat)
    requires 1 <= k < |cs| && RunStart(cs, k)
    ensures var s := StartOfRun(cs, k - 1); RunLength(cs, s) == k - s
  {
    var s := StartOfRun(cs, k - 1);
    RunReaches(cs, s, k - 1);
    RunEndsBeforeNextStart(cs, s, k);
  }

  /** A column that starts a run closes the run containing the column before
      it, which the old scan then records unless it is plain. */
  lemma ClosedRunsClose(cs: seq<ColorPair>, k: nat)
    requires 1 <= k < |cs| && RunStart(cs, k)
    ensures var s := StartOfRun(cs, k - 1);
      cs[s] != Plain ==> ClosedRuns(cs, k + 1) == ClosedRuns(cs, k)[s := Field(cs[s], k - s)]
    ensures var s := StartOfRun(cs, k - 1);
      cs[s] == Plain ==> ClosedRuns(cs, k + 1) == ClosedRuns(cs, k)
  {
    var s := StartOfRun(cs, k - 1);
    var before, after := ClosedRuns(cs, k), ClosedRuns(cs, k + 1);
    ClosingRunLength(cs, k);
    forall i: nat | i != s
      ensures i in after <==> i in before
      ensures i in after ==> after[i] == before[i]
    {
      ClosedRunsKeep(cs, k, i);
    }
    if cs[s] != Plain {
      var expected := before[s := Field(cs[s], k - s)];
      assert after.Keys == expected.Keys;
    } else {
      assert after.Keys == before.Keys;
    }
  }

  /** A column that continues a run closes nothing. */
  lemma ClosedRunsContinue(cs: seq<ColorPair>, k: nat)
    requires 1 <= k < |cs| && !RunStart(cs, k)
    ensures ClosedRuns(cs, k + 1) == ClosedRuns(cs, k)
  {
    var before, after := ClosedRuns(cs, k), ClosedRuns(cs, k + 1);
    forall i: nat
      ensures i in after <==> i in before
      ensures i in after ==> after[i] == before[i]
    {
      ClosedRunsKeep(cs, k, i);
    }
    assert after.Keys == before.Keys;
  }

  lemma OverlayUpdate(a: LineMap, b: LineMap, s: nat, v: Field)
    ensures (a + b)[s := v] == a + b[s := v]
  {
  }

  /** The scan's record is the stale entry overlaid with the runs closed so
      far. */
  lemma {:induction false} LegacyScanIsClosedRuns(stale: LineMap, cs: seq<ColorPair>, k: nat)
    requires 1 <= k <= |cs|
    ensures LegacyScan(stale, cs, k) == stale + ClosedRuns(cs, k)
  {
    if k == 1 {
      assert ClosedRuns(cs, 1) == map[];
      assert stale + map[] == stale;
    } else {
      var j := k - 1;
      LegacyScanIsClosedRuns(stale, cs, j);
      var s := StartOfRun(cs, j - 1);
      if !RunStart(cs, j) {
        ClosedRunsContinue(cs, j);
      } else {
        ClosedRunsClose(cs, j);
        if cs[s] != Plain {
          OverlayUpdate(stale, ClosedRuns(cs, j), s, Field(cs[s], j - s));
        }
      }
    }
  }

  /** One column of the old loop: the colour changes at `charIndex` exactly
      when the run being tracked ends there, and the scan then records that
      run unless it is plain. */
  lemma LegacyScanAdvance(line: seq<Cell>, cs: seq<ColorPair>, lastIndex: nat, charIndex: nat)
    requires cs == Colors(line) && 0 < charIndex < |line|
    requires lastIndex < charIndex && RunStart(cs, lastIndex)
    requires forall j :: lastIndex <= j < charIndex ==> cs[j] == cs[lastIndex]
    ensures RunStart(cs, charIndex) <==> cs[lastIndex] != cs[charIndex]
    ensures LegacyScan(StaleEntry(line), cs, charIndex + 1)
         == ScanStep(LegacyScan(StaleEntry(line), cs, charIndex), cs, charIndex)
    ensures StartOfRun(cs, charIndex - 1) == lastIndex
  {
    StartOfRunInside(cs, lastIndex, charIndex - 1);
  }

  /** Where the old loop stands before column `charIndex`: the tracked run
      starts at `lastIndex` with `lastColor` and has `fieldLength` columns so
      far, and the map holds what the scan has recorded. */
  ghost predicate Scanning(line: seq<Cell>, charIndex: nat, lastColor: ColorPair, lastIndex: nat,
                           fieldLength: nat, lineMap: LineMap)
  {
    var cs := Colors(line);
    && 0 < |line| && charIndex <= |line|
    && (charIndex == 0 ==> lineMap == map[] && lastColor == RawColor(line[0]) && lastIndex == 0 && fieldLength == 0)
    && (charIndex > 0 ==>
          && lastIndex < charIndex && RunStart(cs, lastIndex) && lastColor == cs[lastIndex]
          && fieldLength == charIndex - lastIndex
          && (forall j :: lastIndex <= j < charIndex ==> cs[j] == lastColor)
          && lineMap == LegacyScan(StaleEntry(line), cs, charIndex))
  }

  /** One column of the old loop keeps it `Scanning`. */
  lemma ScanningStep(line: seq<Cell>, charIndex: nat, lastColor: ColorPair, lastIndex: nat,
                     fieldLength: nat, lineMap: LineMap)
    requires Scanning(line, charIndex, lastColor, lastIndex, fieldLength, lineMap) && charIndex < |line|
    ensures var color := MapColor(line[charIndex]);
      if lastColor == color then Scanning(line, charIndex + 1, lastColor, lastIndex, fieldLength + 1, lineMap)
      else Scanning(line, charIndex + 1, color, charIndex, 1,
                    if lastColor != Plain then lineMap[lastIndex := Field(lastColor, fieldLength)] else lineMap)
  {
    var cs := Colors(line);
    assert MapColor(line[charIndex]) == cs[charIndex];
    if charIndex > 0 {
      LegacyScanAdvance(line, cs, lastIndex, charIndex);
    } else if lastColor != cs[0] {
      StaleIsNotPlain(line[0]);
    }
  }

  /** At the end of the line the scan has recorded the old code's map. */
  lemma ScanningDone(line: seq<Cell>, lastColor: ColorPair, lastIndex: nat, fieldLength: nat, lineMap: LineMap)
    requires Scanning(line, |line|, lastColor, lastIndex, fieldLength, lineMap)
    ensures lineMap == LegacyLineColorMap(line)
  {
    LegacyScanIsClosedRuns(StaleEntry(line), Colors(line), |line|);
  }

  /** The old loop over the cells of one line. */
  method LegacyScanLine(line: seq<Cell>) returns (lineMap: LineMap)
    requires |line| > 0
    ensures lineMap == LegacyLineColorMap(line)
  {
    var lastColor := RawColor(line[0]);
    var lastIndex: nat := 0;
    var fieldLength: nat := 0;
    lineMap := map[];
    var charIndex: nat := 0;
    while charIndex < |line|
      invariant charIndex <= |line|
      invariant Scanning(line, charIndex, lastColor, lastIndex, fieldLength, lineMap)
    {
      var color := MapColor(line[charIndex]);
      ScanningStep(line, charIndex, lastColor, lastIndex, fieldLength, lineMap);
      if lastColor == color {
        fieldLength := fieldLength + 1;
      } else {
        if lastColor != Plain {
          lineMap := lineMap[lastIndex := Field(lastColor, fieldLength)];
        }
        lastColor := color;
        lastIndex := charIndex;
        fieldLength := 1;
      }
      charIndex := charIndex + 1;
    }
    ScanningDone(line, lastColor, lastIndex, fieldLength, lineMap);
  }

  // ---------------------------------------------------------------------
  // How the old scan differs from the corrected one

  /** The run that reaches the end of the line is never recorded with its
      length: its start is either absent or the stale zero-length entry. */
  lemma LegacyDropsFinalRun(line: seq<Cell>)
    requires |line| > 0
    ensures var s := StartOfRun(Colors(line), |line| - 1);
      s in LegacyLineColorMap(line) ==> s == 0 && LegacyLineColorMap(line)[0].fieldLength == 0
  {
    var cs := Colors(line);
    RunCoversColumn(cs, |line| - 1);
  }

  /** A single default cell: the old code reports a zero-length run of the raw
      default colours, where the corrected code reports nothing. */
  lemma LegacyStaleDefaultEntry()
    ensures LegacyLineColorMap([Cell(Default, Default)]) == map[0 := Field(ColorPair(Default, Default), 0)]
    ensures LineColorMap(Colors([Cell(Default, Default)])) == map[]
  {
    var line := [Cell(Default, Default)];
    assert Colors(line) == [Plain];
    assert ClosedRuns(Colors(line), 1) == map[];
  }

  /** A single red-on-green cell: the old code reports nothing, the corrected
      code reports the one-cell run. */
  lemma LegacyDropsOnlyRun()
    ensures var red := ColorPair(Other("red"), Other("green"));
      && LegacyLineColorMap([Cell(Other("red"), Other("green"))]) == map[]
      && LineColorMap(Colors([Cell(Other("red"), Other("green"))])) == map[0 := Field(red, 1)]
  {
    var red := ColorPair(Other("red"), Other("green"));
    var line := [Cell(Other("red"), Other("green"))];
    assert Colors(line) == [red];
    assert RunLength([red], 0) == 1;
    assert ClosedRuns(Colors(line), 1) == map[];
    assert LineColorMap([red]).Keys == {0};
  }

  /** On lines whose first cell has no default colour and whose last run is
      plain, both generations agree. */
  lemma LegacyAgreesWhenLastRunIsPlain(line: seq<Cell>)
    requires |line| > 0
    requires RawColor(line[0]) == MapColor(line[0])
    requires Colors(line)[|line| - 1] == Plain
    ensures LegacyLineColorMap(line) == LineColorMap(Colors(line))
  {
    var cs := Colors(line);
    var closed, full := ClosedRuns(cs, |line|), LineColorMap(cs);
    forall i: nat | i in full
      ensures i in closed
    {
      RunIsMaximal(cs, i);
    }
    assert StaleEntry(line) == map[];
    assert closed.Keys == full.Keys;
  }

  // ---------------------------------------------------------------------
  // The whole buffer

  function LegacyRowsColorMap(buffer: seq<seq<Cell>>, rows: seq<nat>): ColorMap
  {
    map r: nat | r in rows && r < |buffer| && |buffer[r]| > 0 && LegacyLineColorMap(buffer[r]) != map[] ::
      LegacyLineColorMap(buffer[r])
  }

  lemma LegacyRowsStep(buffer: seq<seq<Cell>>, lines: seq<nat>, j: nat)
    requires j < |lines| && lines[j] < |buffer|
    ensures var row := lines[j];
      RowsStepOf(LegacyRowsColorMap(buffer, lines[..j]), buffer, row) == LegacyRowsColorMap(buffer, lines[..j + 1])
  {
    assert lines[..j + 1] == lines[..j] + [lines[j]];
  }

  /** One more row: a non-empty row with a non-empty map gets that map. */
  function RowsStepOf(m: ColorMap, buffer: seq<seq<Cell>>, row: nat): ColorMap
    requires row < |buffer|
  {
    if |buffer[row]| > 0 && LegacyLineColorMap(buffer[row]) != map[] then m[row := LegacyLineColorMap(buffer[row])]
    else m
  }

  /** The result of `convert_pyte_buffer_lines_to_colormap(buffer, lines)`. */
  function LegacyBufferColorMap(buffer: seq<seq<Cell>>, lines: seq<nat>): (m: ColorMap)
    ensures forall r :: r in m ==> r in lines && r < |buffer| && m[r] != map[]
  {
    LegacyRowsColorMap(buffer, lines[..ProcessedCount(buffer, lines)])
  }

  method ConvertPyteBufferLinesToColormap(buffer: seq<seq<Cell>>, lines: seq<nat>) returns (colorMap: ColorMap)
    ensures colorMap == LegacyBufferColorMap(buffer, lines)
  {
    colorMap := map[];
    var j := 0;
    while j < |lines|
      invariant j <= ProcessedCount(buffer, lines)
      invariant colorMap == LegacyRowsColorMap(buffer, lines[..j])
    {
      var lineIndex := lines[j];
      if lineIndex > |buffer| - 1 {
        break;
      }
      LegacyRowsStep(buffer, lines, j);
      var line := buffer[lineIndex];
      if |line| == 0 {
        j := j + 1;
        continue;
      }
      var lineMap := LegacyScanLine(line);
      if lineMap != map[] {
        colorMap := colorMap[lineIndex := lineMap];
      }
      j := j + 1;
    }
  }
}
