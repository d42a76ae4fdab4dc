# TerminalView core in Dafny

TerminalView is a Sublime Text plugin that runs a shell in a pseudo-terminal and shows what the shell writes in an editor view. The pty output goes to pyte, which emulates the terminal. The plugin then copies the screen rows pyte marks dirty into the view, with colour regions. Keypresses travel the other way, encoded as the escape sequences a Linux console sends. The repository holds two generations of this code:

- the current one: `TerminalView2.py`, `sublime_terminal_buffer.py`, `linux_pty.py` and `terminal_emulator.py`;
- an older one: `SublimeTerminalBuffer.py` and `LinuxPty.py`.

Both generations are modelled separately, because they behave differently.

The model has these modules:

- `KeyEncoder`: the key tables and keypress encoding of `linux_pty.py`, as pure functions.
- `LegacyPty`: the tables and encoder of `LinuxPty.py`, shown equal to `KeyEncoder`, plus its pty class.
- `PtySession`: the running-flag logic of the pty wrapper. A state datatype has one spec function per operation. Class `LinuxPty` updates that state.
- `Colormap`: `convert_pyte_buffer_to_colormap`. Its loops are proved against a declarative definition built from maximal runs of equal colour.
- `LegacyColormap`: the older `convert_pyte_buffer_lines_to_colormap`, as written. It also holds the counterexamples listed under Findings.
- `HistoryScreen`: the scrollback of `CustomHistoryScreen` on sequences, with the class that updates it in place.
- `Emulator`: the `PyteTerminalEmulator` adapter, which covers dirty rows, the cursor, resize, paging and the colour map.
- `DisplaySync`: the span-and-region algorithm that writes dirty rows into the view.
  - The view is a ghost text plus a log of editor calls.
  - Class `LineSync` holds the tracked row texts and the region-key deques.
  - Its invariant: the view text is always the tracked rows, concatenated in ascending row order.
- `TerminalView`: the controller of `TerminalView2.py`.
  - Covers scroll requests, the cursor cache, `view_size`, resize, stop, `update_view` and one tick of the update loop.
- `TextCommands`: the scroll, keypress, paste and copy text commands of `sublime_terminal_buffer.py`.
- `TerminalBuffer`: `update_view` and `view_size` of `sublime_terminal_buffer.py`, and of `SublimeTerminalBuffer.py`.

Two behaviours of the code are easy to misread:

- `update_screen_size` tests `self.is_running`, the bound method, which is always true. The window size is therefore sent even after the shell has stopped.
- `TerminalView2._update_scrolling` and `TerminalViewUpdate._update_scrolling` call `prev_line` and `next_line`. `PyteTerminalEmulator` defines neither, so a line scroll request raises `AttributeError`. In the model it is an error outcome (`raised`), not a scroll.

## Model

| member | source | states |
|---|---|---|
| KeyEncoder.LowerChar | linux_pty.py:84 | folding leaves no upper-case letter, shifts A..Z by 32 and leaves every other character alone |
| KeyEncoder.LowerIdempotent | linux_pty.py:84 | lower-casing twice is lower-casing once |
| KeyEncoder.Lower | linux_pty.py:84 | every character is replaced by its ASCII fold (`LowerChar`), so the length is kept and no upper-case letter is left |
| KeyEncoder.GetKeyCode | linux_pty.py:104-108 | an unknown name is sent as itself; a named key is never sent as its name, but as one character or a sequence starting with ESC |
| KeyEncoder.GetCtrlCombinationKeyCode | linux_pty.py:83-94 | ctrl plus a letter in either case is one control code in \x01..\x1a; a folded key that is neither a ctrl-table entry nor a letter gets the plain encoding of the folded key |
| KeyEncoder.GetAltCombinationKeyCode | linux_pty.py:96-102 | every alt combination starts with ESC |
| KeyEncoder.EncodeKeypress | linux_pty.py:70-81 | alt without ctrl always sends ESC first; with neither modifier a single character is sent as itself |
| KeyEncoder.CtrlAltIgnoreCase | linux_pty.py:83-102 | the ctrl and alt encoders give the same result for keys equal after lower-casing |
| KeyEncoder.CtrlLetterCode | linux_pty.py:88-91 | a letter's control code lies in \x01..\x1a |
| KeyEncoder.CtrlLetter | linux_pty.py:83-91 | ctrl plus a letter in either case is the single control code `ord(letter) - ord('a') + 1` of the lower-case letter |
| KeyEncoder.DecodeCtrlLetter | linux_pty.py:88-91 | every control code \x01..\x1a decodes to a lower-case letter |
| KeyEncoder.CtrlLetterRoundTrip | linux_pty.py:88-91 | decoding the control code of a letter gives the letter back |
| KeyEncoder.CtrlTableDisjointFromLetters | linux_pty.py:144-161 | no ctrl-table value is a letter's control code, so the table cannot shadow a letter's encoding |
| KeyEncoder.CtrlArrows | linux_pty.py:144-149 | ctrl plus an arrow is `ESC[1;5A/B/C/D` |
| KeyEncoder.CtrlPunctuation | linux_pty.py:150-155 | ctrl plus `@`/`` ` `` is NUL, `[`/`{` is ESC, and `\`/`\|` is FS |
| KeyEncoder.CtrlPunctuationHigh | linux_pty.py:156-161 | ctrl plus `]`/`}` is GS, `^`/`~` is RS, `_` is US and `?` is DEL |
| KeyEncoder.CtrlFallthrough | linux_pty.py:92-94 | a lower-cased key in neither the ctrl table nor a..z falls back to the plain table, or else passes through lower-cased |
| KeyEncoder.AltPrefixesEscape | linux_pty.py:96-102 | every alt encoding starts with ESC; for a key outside the alt table the rest is the plain encoding of the lower-cased key |
| KeyEncoder.AltLetter | linux_pty.py:96-102 | alt plus a letter in either case is ESC followed by the lower-case letter |
| KeyEncoder.AltArrows | linux_pty.py:163-168 | alt plus an arrow is `ESC[1;3A/B/C/D` |
| KeyEncoder.PlainSingleCharacter | linux_pty.py:104-108 | every single character passes the plain path unchanged |
| KeyEncoder.PlainIsCaseSensitive | linux_pty.py:104-108 | the plain path does not fold case: `Enter` passes through while `enter` is `\r` |
| KeyEncoder.PlainNamedKeys | linux_pty.py:115-142 | backspace, home, f1 and f12 map to their console sequences, and an unknown name such as f11 passes through |
| KeyEncoder.Precedence | linux_pty.py:70-81 | ctrl wins over alt, alt wins over plain, and shift and meta never change the encoded string |
| LegacyPty.SameTables | LinuxPty.py:92-145 | the three key tables of the older file equal those of the newer one |
| LegacyPty.SameEncoding | LinuxPty.py:50-85 | every keypress (key, ctrl, alt, shift, super) encodes exactly as in the newer file |
| LegacyPty.LegacyKeyCode | LinuxPty.py:82-85 | equal to the newer `GetKeyCode` for every key |
| LegacyPty.LegacyCtrlKeyCode | LinuxPty.py:60-72 | equal to the newer `GetCtrlCombinationKeyCode` for every key, although it spells the letter arithmetic differently |
| LegacyPty.LegacyAltKeyCode | LinuxPty.py:74-80 | equal to the newer `GetAltCombinationKeyCode` for every key |
| LegacyPty.LegacyEncodeKeypress | LinuxPty.py:50-58 | equal to the newer `EncodeKeypress` for every key and flag combination |
| LegacyPty.LegacyLinuxPty.constructor | LinuxPty.py:14-22 | a spawned child is running, with nothing read or written |
| LegacyPty.LegacyLinuxPty.IsRunning | LinuxPty.py:47-48 | the answer is `Running` of the object's state: a handle is kept and the child has not exited |
| LegacyPty.LegacyLinuxPty.Stop | LinuxPty.py:24-28 | the new state is the stop state: kill only a running child, then drop the handle |
| LegacyPty.LegacyLinuxPty.ReceiveOutput | LinuxPty.py:30-38 | the read returns and consumes what the shared receive spec says: nothing when not running or not ready, else at most the limit |
| LegacyPty.LegacyLinuxPty.SendString | LinuxPty.py:87-89 | the text is logged as written only while running |
| LegacyPty.LegacyLinuxPty.SendKeypress | LinuxPty.py:50-58 | the older encoding of the key is sent, which is the same as the newer keypress send |
| LegacyPty.LegacyLinuxPty.UpdateScreenSize | LinuxPty.py:40-45 | the winsize is sent whether or not the child runs; the call fails, changing nothing, only when a size exceeds 65535 |
| PtySession.StopIsIdempotent | linux_pty.py:32-39 | after stop nothing runs, at most one kill was sent (exactly one if the child ran), and stopping again changes nothing |
| PtySession.StoppedIsInert | linux_pty.py:41-52 | once stopped, writes and reads are no-ops |
| PtySession.ReceiveOutputConserves | linux_pty.py:41-52 | a read returns data iff the child runs and output is pending; the data is at most the limit, taken in order from the front of the pending output, and exactly it is removed; nothing else changes |
| PtySession.ScreenSizeIgnoresLiveness | linux_pty.py:54-62 | after stop, a size within 16 bits is still sent as (lines, columns, 0, 0) |
| PtySession.Running | linux_pty.py:64-68 | a child runs exactly while the handle is kept and `poll()` reports no exit: after `stop` dropped the handle, or once the child exited, it does not run |
| PtySession.StopState | linux_pty.py:32-39 | afterwards the child is not running, at most one kill was added, and only the handle and the kill count change |
| PtySession.ReceiveState | linux_pty.py:41-52 | no data leaves the state alone; data is at most `max_read_size` bytes and is exactly what leaves the front of the unread output; nothing but the unread output changes |
| PtySession.SendStringState | linux_pty.py:110-112 | a running child gets the text appended to what was written; otherwise nothing changes; nothing but the written log changes |
| PtySession.SendKeypressState | linux_pty.py:70-81 | a running child gets exactly one more write, the encoded keypress; otherwise nothing changes |
| PtySession.ScreenSizeState | linux_pty.py:54-62 | succeeds iff both values fit 16 bits, and then appends exactly one notification with zero pixel sizes and changes nothing else |
| PtySession.LinuxPty.constructor | linux_pty.py:22-30 | a spawned child is running, with nothing read or written |
| PtySession.LinuxPty.IsRunning | linux_pty.py:64-68 | the answer is `Running` of the object's state |
| PtySession.LinuxPty.Stop | linux_pty.py:32-39 | the new state is the stop state |
| PtySession.LinuxPty.ReceiveOutput | linux_pty.py:41-52 | the result and the new state are those of the receive spec |
| PtySession.LinuxPty.SendString | linux_pty.py:110-112 | the text is logged as written only while running |
| PtySession.LinuxPty.SendKeypress | linux_pty.py:70-81 | the encoded key is sent through the string path |
| PtySession.LinuxPty.UpdateScreenSize | linux_pty.py:54-62 | the winsize is sent regardless of liveness; out-of-range sizes fail and change nothing |
| Colormap.ParseColor | terminal_emulator.py:237-246 | every colour string reads as a canonical colour name |
| Colormap.ParseColorRoundTrip | terminal_emulator.py:237-246 | reading and printing a colour name are inverse, so comparing names is comparing pyte's strings |
| Colormap.MapColor | terminal_emulator.py:237-248 | a mapped pair never holds `default`, and every colour other than `default` is kept |
| Colormap.PlainCells | terminal_emulator.py:237-248 | a cell maps to plain black on white iff its background is default or black and its foreground is default or white |
| Colormap.RunLength | terminal_emulator.py:249-261 | a run starting inside the line is at least one cell long and does not pass the line's end |
| Colormap.RunIsMaximal | terminal_emulator.py:249-261 | every cell of a run has the run's colour, and the cell after it differs or the line ends |
| Colormap.ScanIsCut | terminal_emulator.py:234-270 | after k cells the loop has recorded exactly the non-plain runs begun so far, each cut at column k |
| Colormap.ScanLine | terminal_emulator.py:216-270 | the per-line loop, as written with its in-loop end-of-line write, yields exactly the map of maximal non-plain runs |
| Colormap.LineColorMapCovers | terminal_emulator.py:249-268 | a cell is non-plain iff some entry covers it, and every covering entry carries that cell's colour |
| Colormap.LineColorMapDisjoint | terminal_emulator.py:263-268 | entries are non-empty, lie inside the line and do not overlap |
| Colormap.LineColorMapMaximal | terminal_emulator.py:249-261 | an entry's run cannot be extended: the colour changes, or the line ends, on both sides |
| Colormap.PlainLineHasNoEntries | terminal_emulator.py:254-268 | a line of default-coloured cells has no entries |
| Colormap.LineColorMap | terminal_emulator.py:222-268 | every entry lies inside the line, carries the colour of its first column, is not plain, and has a length of at least one that does not run past the line |
| Colormap.ProcessedCount | terminal_emulator.py:207-211 | the processed prefix of the requested lines is in range, and stops at the first out-of-range index |
| Colormap.ConvertPyteBufferToColormap | terminal_emulator.py:202-271 | the whole loop yields the declarative buffer map |
| Colormap.BufferColorMapRows | terminal_emulator.py:207-219 | a row gets an entry iff it was requested before the first out-of-range index and has a non-plain run; the entry is that row's line map |
| Colormap.BreakHidesLaterLines | terminal_emulator.py:210-211 | an out-of-range index hides every index requested after it |
| Colormap.BufferColorMap | terminal_emulator.py:202-271 | only requested rows that exist in the buffer and have a painted run get an entry |
| LegacyColormap.RawColor | SublimeTerminalBuffer.py:285 | the unmapped pair of a cell equals its mapped pair iff neither colour is `default` |
| LegacyColormap.StaleEntry | SublimeTerminalBuffer.py:285-317 | the stale entry can only sit at column 0; it is there iff cell 0 has a default colour, and then it has length 0 and is not plain |
| LegacyColormap.StaleIsNotPlain | SublimeTerminalBuffer.py:285 | a raw colour pair that differs from its mapped pair still names `default` and is never the plain pair, so the old code records it |
| LegacyColormap.LegacyLineColorMap | SublimeTerminalBuffer.py:280-317 | every entry lies inside the line and is not plain, and no recorded run reaches the end of the line |
| LegacyColormap.LegacyScanIsClosedRuns | SublimeTerminalBuffer.py:290-317 | after k cells the old loop holds the stale first entry overlaid with the runs closed so far |
| LegacyColormap.LegacyScanLine | SublimeTerminalBuffer.py:280-317 | the old per-line loop yields the as-written line map |
| LegacyColormap.LegacyDropsFinalRun | SublimeTerminalBuffer.py:305-317 | the run that reaches the line's end is never recorded with its length |
| LegacyColormap.LegacyStaleDefaultEntry | SublimeTerminalBuffer.py:285-313 | one default cell gives a zero-length raw-default entry at column 0, where the current code gives nothing |
| LegacyColormap.LegacyDropsOnlyRun | SublimeTerminalBuffer.py:305-317 | one red-on-green cell gives no entry, where the current code records the one-cell run |
| LegacyColormap.LegacyAgreesWhenLastRunIsPlain | SublimeTerminalBuffer.py:285-317 | when the first cell's colours need no mapping and the last cell is plain, both generations give the same line map |
| LegacyColormap.ConvertPyteBufferLinesToColormap | SublimeTerminalBuffer.py:269-319 | the whole old loop yields the declarative as-written buffer map |
| LegacyColormap.LegacyBufferColorMap | SublimeTerminalBuffer.py:269-319 | only requested rows that exist in the buffer and have a non-empty map get an entry |
| HistoryScreen.Take | terminal_emulator.py:197-199 | `take` returns a prefix of length min(n, len) |
| HistoryScreen.KeepLast | terminal_emulator.py:186 | a bounded deque after `extend` keeps a suffix of length min(len, maxlen) |
| HistoryScreen.KeepFirst | terminal_emulator.py:168 | a bounded deque after `extendleft` keeps a prefix of length min(len, maxlen) |
| HistoryScreen.TailSlices | terminal_emulator.py:168-174 | `buffer[:-mid] + buffer[-mid:]` is the buffer when mid > 0; with mid = 0, `buffer[-0:]` is the whole buffer and `buffer[:-0]` is empty |
| HistoryScreen.PageStep | terminal_emulator.py:165-166 | the step is the ceiling of lines times ratio |
| HistoryScreen.AllRows | terminal_emulator.py:176 | `set(range(lines))` holds exactly the rows below `lines` |
| HistoryScreen.PrevActs | terminal_emulator.py:164 | a page up acts iff the position is more than one page down and `top` holds rows |
| HistoryScreen.NextActs | terminal_emulator.py:182 | a page down acts iff the position is before the end of the history and `bottom` holds rows |
| HistoryScreen.NextPageState | terminal_emulator.py:182-188 | a page down moves the position by exactly `lines` when it acts, and not at all otherwise |
| HistoryScreen.PrevPageState | terminal_emulator.py:160-176 | a page up moves the position back by one screen height, marks every row dirty and never grows `top`; without room to page nothing changes; only the buffer, the deques, the position and the dirty set can change |
| HistoryScreen.PagingSteps | terminal_emulator.py:160-194 | paging keeps both deques within their bounds; a page that acts marks every row dirty, and a page up moves the position back by `lines`; a page whose guard fails changes nothing |
| HistoryScreen.PagingKeepsHeight | terminal_emulator.py:165-192 | a page moves `mid` rows out and `mid` rows in, so the screen keeps its height whenever `mid` is at most the height (and, for a page up, at least one) |
| HistoryScreen.PrevPageWithZeroStep | terminal_emulator.py:168-174 | with a zero step, a page up empties the screen into `bottom`, because of Python's `-0` slice |
| HistoryScreen.PrevPageConservesRows | terminal_emulator.py:160-176 | no row is lost or duplicated by a page up, within the deque bounds |
| HistoryScreen.NextPageConservesRows | terminal_emulator.py:178-194 | no row is lost or duplicated by a page down, within the deque bounds |
| HistoryScreen.NextPageUndoesPrevPage | terminal_emulator.py:160-194 | a page down after a page up restores the screen and both deques, with every row dirty |
| HistoryScreen.ReachesBottom | terminal_emulator.py:89-94 | the loop of `scroll_to_bottom` ends: always when the screen is already at the bottom, and otherwise only with a positive height and rows in `bottom` |
| HistoryScreen.ScrollToBottomState | terminal_emulator.py:89-94 | when the loop ends, the position is at or past the history size, and the size and height are unchanged |
| HistoryScreen.ScrollStalls | terminal_emulator.py:89-94 | above the bottom with `bottom` empty, or with a zero height, a page down changes nothing, so the loop never ends |
| HistoryScreen.ScrollAtBottomIsIdentity | terminal_emulator.py:89-94 | at the bottom, `scroll_to_bottom` does nothing |
| HistoryScreen.ReachesBottomFromBelow | terminal_emulator.py:89-94 | with a positive height and step and enough rows below, the loop reaches the bottom |
| HistoryScreen.FitWidth | terminal_emulator.py:101-106 | a row is truncated or padded with default cells to exactly `columns` cells, keeping its prefix |
| HistoryScreen.FitWidthIdempotent | terminal_emulator.py:101-106 | fitting twice is fitting once |
| HistoryScreen.EnsureScreenWidthState | terminal_emulator.py:96-113 | every row is exactly `columns` wide, and the number of rows is unchanged |
| HistoryScreen.CursorShownAtBottom | terminal_emulator.py:108-113 | at the bottom of the history, the cursor shows exactly when DECTCEM is set |
| HistoryScreen.CursorHidden | terminal_emulator.py:108-113 | the cursor shows only with DECTCEM set on a screen with rows; at the bottom it is hidden exactly when DECTCEM is off or the screen has no rows |
| HistoryScreen.ResetHistoryIsAtBottom | terminal_emulator.py:115-118 | after a reset a page down cannot act, a page up changes nothing, the scroll to the bottom ends, and the deques are within their bounds |
| HistoryScreen.ResetHistoryState | terminal_emulator.py:115-118 | both deques are empty, the screen is at the bottom, there is nothing to page to, and nothing else changes |
| HistoryScreen.PopRight | terminal_emulator.py:172-174 | popping n from the right returns the last n items in order and the rest |
| HistoryScreen.PopLeft | terminal_emulator.py:190-192 | popping n from the left returns the first n items in order and the rest |
| HistoryScreen.CustomHistoryScreen.constructor | terminal_emulator.py:80-87 | both deques start empty, at the bottom, with a blank screen whose every row is dirty, as `reset` leaves it |
| HistoryScreen.CustomHistoryScreen.PrevPage | terminal_emulator.py:160-176 | the new state is the page-up state |
| HistoryScreen.CustomHistoryScreen.NextPage | terminal_emulator.py:178-194 | the new state is the page-down state |
| HistoryScreen.CustomHistoryScreen.ScrollToBottom | terminal_emulator.py:89-94 | the loop leaves the scroll-to-bottom state |
| HistoryScreen.CustomHistoryScreen.EnsureScreenWidth | terminal_emulator.py:96-113 | the loop over rows leaves the width-normalised state |
| HistoryScreen.CustomHistoryScreen.ResetHistory | terminal_emulator.py:115-118 | the new state is the reset state |
| Emulator.CursorPos | terminal_emulator.py:57-62 | the cursor is reported as (y, x), or (0, 0) when there is none |
| Emulator.DirtyMap | terminal_emulator.py:40-52 | the keys are exactly the dirty rows; a row maps to its display line, or to None past the display |
| Emulator.ResizeMarksRows | terminal_emulator.py:27-30 | after resize the screen is at the bottom, every row of the new height is dirty, rows dirty before stay dirty, and nothing but the dirty set differs from the scrolled screen |
| Emulator.ResizeState | terminal_emulator.py:27-30 | after a resize the screen is at the bottom of the history and every row of the new height is dirty |
| Emulator.PageThenFit | terminal_emulator.py:32-38 | a page through the adapter leaves every row exactly `columns` wide, with the queues and position of the page step |
| Emulator.ReachesBottomIgnoresDirty | terminal_emulator.py:89-94 | whether `scroll_to_bottom` ends does not depend on the dirty set |
| Emulator.PyteTerminalEmulator.constructor | terminal_emulator.py:16-21 | the screen keeps twice the configured history and starts with every row dirty |
| Emulator.PyteTerminalEmulator.Feed | terminal_emulator.py:23-25 | the screen is scrolled to the bottom before the bytes are parsed |
| Emulator.PyteTerminalEmulator.Resize | terminal_emulator.py:27-30 | the screen is scrolled to the bottom, then the rows of the new height are marked dirty |
| Emulator.PyteTerminalEmulator.PrevPage | terminal_emulator.py:32-34 | a page up, then width normalisation |
| Emulator.PyteTerminalEmulator.NextPage | terminal_emulator.py:36-38 | a page down, then width normalisation |
| Emulator.PyteTerminalEmulator.DirtyLines | terminal_emulator.py:40-52 | the loop builds exactly the dirty map, which is empty when nothing is dirty |
| Emulator.PyteTerminalEmulator.ClearDirty | terminal_emulator.py:54-55 | only the dirty set changes, and it becomes empty |
| Emulator.PyteTerminalEmulator.ColorMap | terminal_emulator.py:64-65 | the colour map of the requested rows of the current buffer |
| DisplaySync.SpanIsRow | TerminalView2.py:400-415 | the span of row n in the view text is exactly row n's tracked text, and everything before it is the rows above |
| DisplaySync.SpliceRow | TerminalView2.py:333-363 | replacing row n's span by its new text gives the rendering of the new rows, so the mirror invariant survives |
| DisplaySync.SpanOfUniformRows | TerminalView2.py:400-415 | with rows 0..n-1 all `width` long, row n starts at n * width |
| DisplaySync.ReplaceOffsetsOfUniformRows | TerminalView2.py:339-360 | rewriting row k among rows all `width` long replaces [k*width, k*width+width) |
| DisplaySync.NatToStringRoundTrip | TerminalView2.py:381 | the decimal text of a row or column reads back as the number |
| DisplaySync.RegionKeyRoundTrip | TerminalView2.py:381 | a region key `"row,col"` parses back to (row, col) |
| DisplaySync.RegionKeysDistinct | TerminalView2.py:381 | two region keys are equal iff their rows and columns are |
| DisplaySync.RegionKey | TerminalView2.py:381 | a key is the row's digits, one comma, then the column's digits: a comma right after the row's digits and a digit everywhere else |
| DisplaySync.Scope | TerminalView2.py:372-373 | every scope begins with `terminalview.` |
| DisplaySync.Ascending | TerminalView2.py:309-310 | `sorted(keys)` holds exactly the keys, in strictly ascending order |
| DisplaySync.EraseCalls | TerminalView2.py:323-331 | one erase call per popped key, in pop order |
| DisplaySync.AddRegionFor | TerminalView2.py:370-391 | one add-regions call per run, with a `terminalview.` scope and a region exactly as long as the run |
| DisplaySync.PushedKeys | TerminalView2.py:391-398 | one key per run coloured |
| DisplaySync.PushAllDeques | TerminalView2.py:391-398 | `PushAll` puts the row's keys at the front of its deque, the last column's key first, leaves every other row's deque as it was, and changes nothing when there are no runs |
| DisplaySync.RemoveRegionsState | TerminalView2.py:323-331 | the row's deque ends empty, every other row's deque is unchanged, the text is untouched, and one erase call per key of the row's deque is logged, front first |
| DisplaySync.UpdateContentState | TerminalView2.py:333-363 | new content is stored with a newline, and None deletes the row; no other row changes and the mirror invariant is kept |
| DisplaySync.ColorsState | TerminalView2.py:365-391 | colouring leaves the text alone, and a row without runs changes nothing |
| DisplaySync.UpdateRowState | TerminalView2.py:310-319 | the mirror invariant is kept; the row holds its new text and a newline, or is gone when it has no content |
| DisplaySync.UpdateLinesState | TerminalView2.py:306-321 | updating the dirty rows in order keeps the mirror invariant |
| DisplaySync.RegionsRemovedInReverse | TerminalView2.py:323-331 | a row's keys, pushed with appendleft and popped with popleft, are erased in reverse order of registration |
| DisplaySync.RowColorCalls | TerminalView2.py:365-391 | clearing, rewriting and colouring a row with runs leaves the view of the rewrite, with the row's new text, and adds one add-regions call per run, in ascending column order, after the rewrite's calls |
| DisplaySync.RunRegionsCoverText | TerminalView2.py:370-389 | a run inside the row's text covers exactly that part of the row's text in the view |
| DisplaySync.LinesContents | TerminalView2.py:306-321 | after the update a dirty row holds its new text (or is gone for None), and every other row keeps its text |
| DisplaySync.LinesRegions | TerminalView2.py:306-331 | after the update, a dirty row's deque holds exactly its new runs' keys, last registered first (empty without runs), and every other deque is unchanged |
| DisplaySync.TakeBelow | SublimeTerminalBuffer.py:176-180 | the loop's rows are a prefix of the sorted rows, all inside the display |
| DisplaySync.TakeBelowSorted | SublimeTerminalBuffer.py:176-180 | on sorted rows, `break` at the first row past the display keeps exactly the rows inside it |
| DisplaySync.DisplayRows | SublimeTerminalBuffer.py:171-186 | every display row, and only those, has its display text |
| DisplaySync.DisplayUpdateContents | SublimeTerminalBuffer.py:167-192 | the older update writes each dirty row the display has, with a newline, and erases no row |
| DisplaySync.LineSync.constructor | TerminalView2.py:72-77 | empty tracked rows, region deques and view |
| DisplaySync.LineSync.GetLineStartAndEndPoints | TerminalView2.py:400-415 | the loop sums the tracked lengths of earlier rows; the end adds row n's length |
| DisplaySync.LineSync.RemoveColorRegionsOnLine | TerminalView2.py:323-331 | every key of the row is erased in deque order, and the deque is left empty |
| DisplaySync.LineSync.UpdateLineContent | TerminalView2.py:333-363 | the row's span is replaced or erased, and the tracked text is stored or deleted |
| DisplaySync.LineSync.RegisterColorRegion | TerminalView2.py:393-398 | the key goes to the front of the row's deque, which is created if missing |
| DisplaySync.LineSync.ColorRun | TerminalView2.py:370-391 | one run is added as a region and its key registered |
| DisplaySync.LineSync.UpdateLineColors | TerminalView2.py:365-391 | the loop over a row's runs leaves the colour-registration state |
| DisplaySync.LineSync.UpdateRow | TerminalView2.py:310-319 | one row: regions cleared, content rewritten, runs coloured when the colour map has the row |
| DisplaySync.LineSync.UpdateLines | TerminalView2.py:306-321 | the loop over the sorted dirty rows leaves the lines-update state and keeps the mirror invariant |
| DisplaySync.LineSync.UpdateLinesFromDisplay | SublimeTerminalBuffer.py:167-192 | the loop over sorted rows stops at the first row past the display and writes each row's display text |
| TerminalView.CellGridFits | TerminalView2.py:210-227 | (0, 0) on a zero line height or em width; otherwise at least the floors, and above a floor a dimension plus its margin is exactly the number of whole cells that fit in the pixels |
| TerminalView.ViewSizeExamples | TerminalView2.py:210-227 | a 300 x 200 pixel view with 10-pixel lines and 5-pixel columns and the default margins is (20, 57); a 2 x 2 pixel view clamps to (1, 1); a zero line height gives (0, 0) |
| TerminalView.CellGrid | TerminalView2.py:210-227 | (0, 0) when a cell dimension is zero, otherwise at least the floors |
| TerminalView.ViewSize | TerminalView2.py:210-227 | (0, 0) when a cell dimension is zero, otherwise at least one row and one column |
| TerminalView.ScrollDispatch | TerminalView2.py:276-291 | a request is served iff its index is not "line"; it goes up iff its direction is "up" |
| TerminalView.ScrollCallFor | TerminalView2.py:276-291 | the call is a page step iff the index is not "line", and it goes back iff the direction is "up" |
| TerminalView.CursorCache | TerminalView2.py:293-304 | the cursor moves iff it differs from the stored position; the position is then stored, so an unchanged cursor does not move again |
| TerminalView.CursorStep | TerminalView2.py:293-304 | the cursor position is always stored; the selection moves to it iff it differs from the stored one |
| TerminalView.StopAtMostOnce | TerminalView2.py:198-208 | after `_stop` nothing runs; the kill is sent only when both flags say running; a second stop changes nothing |
| TerminalView.ViewStop | TerminalView2.py:198-208 | afterwards the view believes the shell stopped, with at most one more kill; a view that believed it ran leaves the child not running; one that did not leaves the pty alone |
| TerminalView.ResizeOnChangeOnly | TerminalView2.py:179-196 | the shell and emulator are told of a size iff it differs from the stored one, and never twice for the same size |
| TerminalView.ResizeTarget | TerminalView2.py:179-196 | a size to move to exists iff it differs from the stored one, and it is the view's size |
| TerminalView.RedrawState | TerminalView2.py:240-259 | the redraw of the dirty rows keeps the mirror invariant |
| TerminalView.RedrawShowsDisplay | TerminalView2.py:240-259 | after the redraw every dirty row inside the display shows its display text, dirty rows past it are gone, and other rows are unchanged |
| TerminalView.UpdatedControls | TerminalView2.py:240-268 | after `update_view` the time is stamped and the cursor position stored; the selection moves to the cursor unless no row was dirty and the cursor did not move; nothing else in the controls changes |
| TerminalView.SettlePass | TerminalView2.py:145-148 | a settled pass stores the view's size and keeps the redraw and the stamp; it raises iff the size changed and does not fit 16 bits; at most one kill |
| TerminalView.ConcludePass | TerminalView2.py:138-148 | the redraw and the stamp are kept and at most one kill is sent; a failed update exits with the view believing the shell stopped and the screen untouched |
| TerminalView.FramePass | TerminalView2.py:137-148 | a pass always leaves the redraw of the dirty rows in the view and stores the new stamp; a stamp equal to the stored one exits with the view believing the shell stopped; at most one kill |
| TerminalView.FrameOutcome | TerminalView2.py:137-148 | a pass after the poll goes on iff the stamp is new, no oversized size change was refused, the view is valid and the child runs; it raises iff a changed size does not fit 16 bits; it exits otherwise, and exactly then the view believes the shell stopped and the child does not run; the view always holds the redraw, the stamp is stored, the size is stored once the update succeeded, at most one kill is sent, and the screen ends with no dirty rows unless it was resized, when every row of the new height is dirty |
| TerminalView.TerminalView2.constructor | TerminalView2.py:57-98 | default settings state: no scroll request, no stored cursor, size (0,0), a 24x80 screen with every row dirty, empty view; the view believes the shell runs iff the spawn succeeded, and the shell has a running child exactly then |
| TerminalView.TerminalView2.UpdateScrolling | TerminalView2.py:276-291 | a page request pages the screen and clears the slot; a line request raises and leaves everything as it was |
| TerminalView.TerminalView2.UpdateCursor | TerminalView2.py:293-304 | the selection moves and the position is stored exactly as the cursor cache says |
| TerminalView.TerminalView2.Redraw | TerminalView2.py:240-261 | reports whether rows were dirty, leaves the redraw state in the view, and clears the dirty set only |
| TerminalView.TerminalView2.RedrawRows | TerminalView2.py:249-259 | the dirty rows are drawn in ascending order, with their colour map when colours are shown, then cleared |
| TerminalView.TerminalView2.Present | TerminalView2.py:240-268 | the dirty rows are redrawn and cleared, the stored cursor is forgotten when rows were dirty, the cursor is placed through the cache, and the time is stamped |
| TerminalView.TerminalView2.UpdateView | TerminalView2.py:229-271 | raises iff a line scroll was pending, and then changes nothing; otherwise the screen is paged, its dirty rows redrawn and cleared, the cursor placed through the cache (forgotten when rows were dirty), the time stamped, and success iff the stamp changed |
| TerminalView.TerminalView2.PollShellOutput | TerminalView2.py:169-177 | the pty is read as the receive spec says with a limit of 4096; data read is fed after a scroll to the bottom; no data changes nothing else; no kill is sent |
| TerminalView.TerminalView2.ResizeScreenIfNeeded | TerminalView2.py:179-196 | the stored size ends equal to the view's size; on a change the shell is notified and the emulator resized, a failed notification leaving both unchanged; without a change nothing changes |
| TerminalView.TerminalView2.Stop | TerminalView2.py:198-208 | the running flag and the pty follow the view's stop function and nothing else changes; afterwards the view believes the shell stopped, with at most one more kill |
| TerminalView.TerminalView2.Tick | TerminalView2.py:132-148 | a view that believes the shell stopped exits and changes nothing; otherwise the shell is polled (4096 bytes, fed after a scroll to the bottom) and the outcome, controls, pty, screen and view are exactly one `FramePass` over the polled state; `Continue` only when the shell runs, the view is valid, the update stamped a new time and the stored size is the view's; `Exit` leaves the view believing the shell stopped; at most one kill |
| TerminalView.TerminalView2.Frame | TerminalView2.py:137-148 | the outcome, controls, pty, screen and view are exactly `FramePass` of the state before it (update, then stop on a repeated stamp, or resize, then stop on a closed view or a dead child); `Continue` only when the shell runs, the view is valid, the update stamped a new time and the stored size is the view's; `Exit` leaves the view believing the shell stopped; `Raised` still stores the new size; at most one kill |
| TerminalView.TerminalView2.Step | TerminalView2.py:138-148 | `update_view` and what the loop does with its answer change the outcome, controls, pty, screen and view exactly as `FramePass` says |
| TerminalView.TerminalView2.Conclude | TerminalView2.py:139-148 | a failed update stops the shell and exits; a successful one settles, exactly as `ConcludePass` says |
| TerminalView.TerminalView2.Settle | TerminalView2.py:145-148 | the resize and the liveness test change the controls, pty and screen exactly as `SettlePass` says: a refused size raises, a closed view or dead child stops the shell and exits, otherwise the loop continues |
| TextCommands.ScrollRequestServed | sublime_terminal_buffer.py:114-126 | a stored request is served as prev/next page or line according to `forward` and `line`, and is supported iff it is not a line request |
| TextCommands.ScrollRequestsDistinct | sublime_terminal_buffer.py:114-126 | the stored request determines both flags |
| TextCommands.ScrollRequestFor | sublime_terminal_buffer.py:114-126 | the request is a line request iff `line` is set and goes up iff `forward` is not |
| TextCommands.KeypressValidation | sublime_terminal_buffer.py:129-150 | a keypress is accepted iff its key is a string and meta is not true; the callback runs once iff accepted and present, with missing modifiers as False |
| TextCommands.AcceptedKeypressEncoding | sublime_terminal_buffer.py:129-150 | an accepted keypress is encoded from the key and its ctrl and alt flags alone; shift and meta make no difference to what the shell receives |
| TextCommands.ValidateKeypress | sublime_terminal_buffer.py:129-150 | a missing key raises; a keypress is accepted iff its key is a string and meta is not set, and then the call carries that key with meta false (SublimeTerminalBuffer.py:140-164 validates the same way) |
| TextCommands.KeypressCalls | sublime_terminal_buffer.py:129-150 | at most one callback call, made iff a callback is registered and the keypress is accepted |
| TextCommands.ReplaceCrLf | sublime_terminal_buffer.py:178 | replacing never lengthens the text, and a CR LF pair at the front becomes an LF |
| TextCommands.ReplaceCrLfWithoutPairs | sublime_terminal_buffer.py:178 | text without a CR LF pair comes back unchanged |
| TextCommands.ReplaceCrLfPair | sublime_terminal_buffer.py:178 | a leading CR LF pair becomes one LF and the rest is replaced in turn |
| TextCommands.ReplaceCrLfKeeps | sublime_terminal_buffer.py:178 | any first character that does not open a CR LF pair is kept, and the rest is replaced in turn; with `ReplaceCrLfPair` this fixes every result |
| TextCommands.PasteKeys | sublime_terminal_buffer.py:179-185 | one key per character: newline or carriage return is "enter", tab is "tab", anything else is itself |
| TextCommands.PasteKey | sublime_terminal_buffer.py:179-185 | the key types the character back, with CR typed as LF |
| TextCommands.Paste | sublime_terminal_buffer.py:171-185 | without a callback nothing is sent; otherwise one key per character of the CRLF-normalised clipboard |
| TextCommands.TypedPasteKeys | sublime_terminal_buffer.py:179-185 | the keys type back the text with each carriage return as a newline |
| TextCommands.CrToLfAfterReplace | sublime_terminal_buffer.py:178-185 | CRLF replacement followed by CR-to-LF is Unix line-ending normalisation |
| TextCommands.PasteTypesClipboard | sublime_terminal_buffer.py:171-185 | pasting types the clipboard with Unix line endings |
| TextCommands.PasteKeysAreNamed | sublime_terminal_buffer.py:179-185 | every pasted key is "enter", "tab" or a single character that is neither newline, carriage return nor tab |
| TextCommands.IsSpace | sublime_terminal_buffer.py:166 | the whitespace `str.rstrip()` removes includes space, tab, LF and CR, and no visible ASCII character |
| TextCommands.RStrip | sublime_terminal_buffer.py:166 | the result is a prefix, ends in a non-space, and only whitespace was removed |
| TextCommands.SplitLines | sublime_terminal_buffer.py:163 | split always yields at least one piece |
| TextCommands.StripAll | sublime_terminal_buffer.py:165-166 | each line is right-stripped |
| TextCommands.Copy | sublime_terminal_buffer.py:162-168 | the loop builds the right-stripped lines joined by newline, with no trailing newline |
| TextCommands.JoinSplitLines | sublime_terminal_buffer.py:163 | joining the split lines gives the text back |
| TextCommands.SplitJoinedLines | sublime_terminal_buffer.py:163-168 | splitting joined newline-free lines gives the lines back |
| TextCommands.CopyKeepsLines | sublime_terminal_buffer.py:162-168 | the clipboard has the selection's lines, each right-stripped, so no line ends in whitespace |
| TextCommands.CopyIsIdempotent | sublime_terminal_buffer.py:162-168 | copying the clipboard text again changes nothing |
| TextCommands.CleanCopy | sublime_terminal_buffer.py:153-168 | the copied text is never longer than the selection |
| TerminalBuffer.BufferViewSizes | sublime_terminal_buffer.py:93-111 | 300x200 px at 10/5 gives (20, 59), zero metrics give (0, 0), and otherwise the size is at least (1, 1) and the largest that fits after one column |
| TerminalBuffer.LegacyViewSizes | SublimeTerminalBuffer.py:107-124 | 300x200 px at 10/5 gives (20, 58); 100x100 clamps to (20, 40); zero metrics give (0, 0); otherwise at least (20, 40) and the largest that fits after two columns |
| TerminalBuffer.BufferViewSize | sublime_terminal_buffer.py:93-111 | (0, 0) when a cell dimension is zero, otherwise at least one row and one column |
| TerminalBuffer.LegacyViewSize | SublimeTerminalBuffer.py:107-124 | (0, 0) when a cell dimension is zero, otherwise at least 20 rows and 40 columns |
| TerminalBuffer.BufferView.constructor | sublime_terminal_buffer.py:14-62 | an emulator is attached, its 24 rows all dirty, with no scroll request, no stored cursor and an empty view |
| TerminalBuffer.BufferView.PluginReloaded | sublime_terminal_buffer.py:190-193 | the view loses its emulator attribute and nothing else |
| TerminalBuffer.BufferView.RequestScroll | sublime_terminal_buffer.py:114-126 | the scroll slot holds the request for `forward` and `line` |
| TerminalBuffer.BufferView.UpdateScrolling | sublime_terminal_buffer.py:232-247 | a page request pages and clears the slot; a line request raises and changes nothing |
| TerminalBuffer.BufferView.Redraw | sublime_terminal_buffer.py:199-218 | reports whether rows were dirty, leaves the redraw state in the view, and clears the dirty set only |
| TerminalBuffer.BufferView.RedrawRows | sublime_terminal_buffer.py:207-218 | the dirty rows are drawn in ascending order, with their colour map when colours are shown, then cleared |
| TerminalBuffer.BufferView.UpdateCursor | sublime_terminal_buffer.py:249-257 | the cursor moves and the position is stored exactly when it differs from the stored one |
| TerminalBuffer.BufferView.Present | sublime_terminal_buffer.py:199-227 | redraw; forget the cursor when rows were dirty; place the cursor; stamp the time |
| TerminalBuffer.BufferView.UpdateView | sublime_terminal_buffer.py:73-80 | success iff the emulator is attached, no line scroll raised and the stamp changed; without an emulator, or after a raise, nothing changes |
| TerminalBuffer.LegacyRedrawState | SublimeTerminalBuffer.py:58-88 | the older redraw keeps the mirror invariant |
| TerminalBuffer.LegacyRedrawShowsDisplay | SublimeTerminalBuffer.py:167-192 | the older redraw writes every dirty row the display has, leaves every other row alone and erases none |
| TerminalBuffer.LegacyTerminalBuffer.constructor | SublimeTerminalBuffer.py:12-50 | an empty view over the given screen |
| TerminalBuffer.LegacyTerminalBuffer.Redraw | SublimeTerminalBuffer.py:60-81 | with dirty rows, the older redraw state and true; otherwise nothing changes and false |
| TerminalBuffer.LegacyTerminalBuffer.UpdateView | SublimeTerminalBuffer.py:58-88 | true iff rows were dirty; the cursor is placed whenever there is one; the dirty set is always cleared |

The older `TerminalViewKeypress` (SublimeTerminalBuffer.py:140-164) validates exactly like the newer one. It differs only in a log line, so `TextCommands.ValidateKeypress` models both.

## Left out

- Real I/O is not modelled: the pty, `select`, `os.read`/`os.write`, `ioctl` and the child process. The process is a state value; its output and exit come from the environment methods `ChildWrites` and `ChildExits`.
- pyte itself is not modelled. This covers `ByteStream`, the escape-sequence parser, `DiffScreen`, `resize` of the buffer, and the `super()` calls in `index`, `reverse_index`, `reset` and `erase_in_display`, together with the history rows those overrides push. The screen is a value that the modelled operations change.
- Emulator.PyteTerminalEmulator.Feed: only the scroll to the bottom is modelled; what pyte's parser does with the bytes is not.
- Emulator.PyteTerminalEmulator.Resize: the rows and columns of pyte's own `resize` are not modelled; only the scroll to the bottom and the dirty marking are.
- HistoryScreen.CustomHistoryScreen.ScrollToBottom: requires the loop to end, which does not hold for every state (`HistoryScreen.ScrollStalls`). `Feed`, `Resize`, `PollShellOutput` and `Tick` inherit this requirement.
- The float `ratio` is a non-negative fraction `num / den`. `PageStep` is the exact ceiling of `lines * num / den`. The source computes `math.ceil(self.lines * self.history.ratio)` in binary floating point (terminal_emulator.py:166 and 184), and that result can be one more than the exact ceiling. For example, with 100 lines and a ratio of 0.07 the double product is 7.000000000000001, so the source pages 8 rows where `PageStep` pages 7. The model does not capture this rounding.
- Pixel metrics are naturals and `int(a / b)` is integer division. Fractional pixel sizes are not modelled.
- KeyEncoder.Lower: folds ASCII letters only. Python's `str.lower()` also folds other scripts, which the key tables never contain.
- `struct.pack('HHHH', ...)` raises on values above 65535. This raise is modelled as a failed call that changes nothing.
- Python's `is "default"` is modelled as string equality. This holds for interned strings, which pyte uses.
- Dict and set iteration order (the order `dirty_lines` is built in, and the order `color_map(dirty_lines.keys())` processes rows) is modelled as ascending row order.
- Sublime's own region shifting, `set_viewport_position`, `set_read_only` toggling, the scope colours and the selection are not modelled. The view is a ghost text plus a log of replace, erase and add-regions calls; the selection is the list of positions it was placed at.
- The update thread, weak references, `__del__`, `time.time()` and the sleep pacing of `_main_update_loop` are not modelled. `Tick` is one iteration, and the clock reading, the view metrics and the view's validity are parameters.
- TerminalView.TerminalView2.Tick: requires no pending scroll request. Nothing in `TerminalView2.py` sets `_scroll`, and a pending line request would make `_update_scrolling` raise.
- A failed spawn (`OSError`) leaves the source with no `_shell` attribute at all. The model keeps a shell object without a process instead: it never runs, and since `_shell_is_running` is false no pass reads it.
- Copy reads the selected text as a parameter. The choice of region (the selection, or the cursor's line) and the clipboard are not modelled. Paste reads the clipboard as a parameter and returns the keys it sends.
- The keypress callback is modelled as a value. Its presence is a flag and its calls are returned as a list.
- `TerminalViewMoveCursor`, `TerminalViewClear`, `on_query_context`, `set_color_scheme`, the colour-scheme converter and the logging helpers are not modelled.

## Findings

| source | as written | input that shows it | evidently intended | confidence | as-written member | corrected member |
|---|---|---|---|---|---|---|
| SublimeTerminalBuffer.py:285-317 | the first run starts from the raw colours of cell 0, and a run is recorded only when a different colour follows it | one red-on-green cell gives `{}`; one default cell gives `{0: (default, default) x 0}` | record every non-plain maximal run with its length, with defaults mapped, as terminal_emulator.py:222-268 does | not executed | LegacyColormap.LegacyDropsOnlyRun, LegacyColormap.LegacyStaleDefaultEntry | Colormap.ScanLine, Colormap.LineColorMapCovers |

The repository's own tests (tests/SublimeTerminalBuffer/test_terminal_buffer.py:127-132 and 161-209) expect the corrected behaviour: all-default lines give no entry, and a run that reaches the end of its line is recorded with its length. The current generation (`TerminalView`, `TerminalBuffer.BufferView`) uses the corrected `Colormap`. `TerminalBuffer.LegacyTerminalBuffer` models the older file, so it keeps the as-written map.

Two more defects are visible in the code. They are not table rows, because the model does not define a corrected version of either:

- `scroll_to_bottom` (terminal_emulator.py:89-94) loops until `position` reaches `size`. A screen above the bottom with an empty `bottom` deque, or with zero lines, never gets there, because a page down then changes nothing (`HistoryScreen.ScrollStalls`). The model requires the loop to end where it is called.
- `_LINUX_KEY_MAP` (linux_pty.py:115-142) has no entry for `f11`. Pressing F11 therefore sends the literal text `f11` to the shell, where `ESC[23~` is evidently meant (`KeyEncoder.PlainNamedKeys`).
