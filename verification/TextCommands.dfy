/**
 * The editor commands of sublime_terminal_buffer.py that turn user actions
 * into requests: `TerminalViewScroll` (a scroll request for the update
 * loop), `TerminalViewKeypress` (argument checks before the keypress
 * callback), `TerminalViewPaste` (the clipboard typed key by key) and
 * `TerminalViewCopy` (the selection with trailing whitespace removed).
 * The clipboard, the selection and the error dialog are values here.
 */
module TextCommands {
  import opened Wrappers
  import TerminalView
  import KeyEncoder

  // ---------------------------------------------------------------------
  // TerminalViewScroll

  /** The request stored on the view: ("line" or "page", "down" or "up"). */
  function ScrollRequestFor(forward: bool, line: bool): (r: TerminalView.ScrollRequest)
    ensures r.index == "line" <==> line
    ensures r.direction == "up" <==> !forward
  {
    TerminalView.ScrollRequest(if line then "line" else "page", if forward then "down" else "up")
  }

  /** The update loop serves each request with the step asked for: a page
      or a line, forward or back; only the page requests are supported by
      the emulator. */
  lemma ScrollRequestServed(forward: bool, line: bool)
    ensures TerminalView.ScrollCallFor(ScrollRequestFor(forward, line)) ==
      if line then (if forward then TerminalView.NextLine else TerminalView.PrevLine)
      else (if forward then TerminalView.NextPage else TerminalView.PrevPage)
    ensures TerminalView.Supported(TerminalView.ScrollCallFor(ScrollRequestFor(forward, line))) <==> !line
  {
  }

  /** Different commands leave different requests. */
  lemma ScrollRequestsDistinct(forward1: bool, line1: bool, forward2: bool, line2: bool)
    ensures ScrollRequestFor(forward1, line1) == ScrollRequestFor(forward2, line2) <==>
      forward1 == forward2 && line1 == line2
  {
    if ScrollRequestFor(forward1, line1) == ScrollRequestFor(forward2, line2) {
      assert ScrollRequestFor(forward1, line1).index[0] == ScrollRequestFor(forward2, line2).index[0];
      assert ScrollRequestFor(forward1, line1).direction[0] == ScrollRequestFor(forward2, line2).direction[0];
    }
  }

  // ---------------------------------------------------------------------
  // TerminalViewKeypress

  /** The `key` argument: a string, some other value, or not given. */
  datatype KeyValue = Str(text: string) | NotStr | Missing

  /** The keyword arguments of the command; `None` for a flag not given. */
  datatype KeypressArgs = KeypressArgs(key: KeyValue, ctrl: Option<bool>, alt: Option<bool>,
                                       shift: Option<bool>, meta: Option<bool>)

  /** The arguments the keypress callback receives. */
  datatype KeypressCall = KeypressCall(key: string, ctrl: bool, alt: bool, shift: bool, meta: bool)

  datatype KeypressResult =
    | Raised                 // `kwargs["key"]` raises KeyError
    | Rejected(message: string)
    | Accepted(call: KeypressCall)

  const NonStringKeyMessage: string := "Terminal View: Got keypress with non-string key"
  const MetaKeyMessage: string := "Terminal View: Meta key is not supported yet"

  /** A flag as the command fills it in: False when not given. */
  function OrFalse(flag: Option<bool>): bool
  {
    if flag.Some? then flag.value else false
  }

  /** `TerminalViewKeypress.run`, up to the callback. */
  function ValidateKeypress(args: KeypressArgs): (r: KeypressResult)
    ensures r.Raised? <==> args.key.Missing?
    ensures r.Accepted? <==> args.key.Str? && args.meta != Some(true)
    ensures r.Accepted? ==> r.call.key == args.key.text && !r.call.meta
  {
    match args.key
    case Missing => Raised
    case NotStr => Rejected(NonStringKeyMessage)
    case Str(key) =>
      if args.meta.Some? && args.meta.value then Rejected(MetaKeyMessage)
      else Accepted(KeypressCall(key, OrFalse(args.ctrl), OrFalse(args.alt), OrFalse(args.shift), OrFalse(args.meta)))
  }

  /** The callback calls the command makes: one for an accepted keypress
      when a callback is registered, none otherwise. */
  function KeypressCalls(args: KeypressArgs, hasCallback: bool): (calls: seq<KeypressCall>)
    ensures |calls| <= 1
    ensures |calls| == 1 <==> hasCallback && ValidateKeypress(args).Accepted?
  {
    var result := ValidateKeypress(args);
    if result.Accepted? && hasCallback then [result.call] else []
  }

  /** A keypress reaches the callback exactly when its key is a string and
      meta is not set; a given flag is passed on as given, a missing one as
      false, and meta is then always false. */
  lemma KeypressValidation(args: KeypressArgs, hasCallback: bool)
    ensures ValidateKeypress(args).Accepted? <==> args.key.Str? && args.meta != Some(true)
    ensures ValidateKeypress(args).Rejected? <==> args.key.NotStr? || (args.key.Str? && args.meta == Some(true))
    ensures |KeypressCalls(args, hasCallback)| == if hasCallback && ValidateKeypress(args).Accepted? then 1 else 0
    ensures ValidateKeypress(args).Accepted? ==>
      var call := ValidateKeypress(args).call;
      && call.key == args.key.text && !call.meta
      && (call.ctrl <==> args.ctrl == Some(true))
      && (call.alt <==> args.alt == Some(true))
      && (call.shift <==> args.shift == Some(true))
  {
  }

  /** An accepted keypress is encoded as the key with its ctrl and alt
      flags alone: shift and meta make no difference to what the shell
      receives. */
  lemma AcceptedKeypressEncoding(args: KeypressArgs)
    requires ValidateKeypress(args).Accepted?
    ensures var c := ValidateKeypress(args).call;
      KeyEncoder.EncodeKeypress(c.key, c.ctrl, c.alt, c.shift, c.meta)
        == KeyEncoder.EncodeKeypress(args.key.text, args.ctrl == Some(true), args.alt == Some(true), false, false)
  {
  }

  // ---------------------------------------------------------------------
  // TerminalViewPaste

  /** No CR is directly followed by an LF. */
  predicate NoCrLf(s: string)
  {
    forall i :: 0 <= i < |s| - 1 ==> !(s[i] == '\r' && s[i + 1] == '\n')
  }

  /** `str.replace("\r\n", "\n")`: every CR LF pair, left to right, becomes
      one LF; a pair at the front becomes a single LF. */
  function ReplaceCrLf(s: string): (r: string)
    ensures |r| <= |s|
    ensures |s| >= 2 && s[0] == '\r' && s[1] == '\n' ==> |r| >= 1 && r[0] == '\n'
  {
    if |s| >= 2 && s[0] == '\r' && s[1] == '\n' then "\n" + ReplaceCrLf(s[2..])
    else if s == [] then s
    else [s[0]] + ReplaceCrLf(s[1..])
  }

  /** Text without a CR LF pair comes back unchanged. */
  lemma {:induction false} ReplaceCrLfWithoutPairs(s: string)
    requires NoCrLf(s)
    ensures ReplaceCrLf(s) == s
  {
    if s != [] {
      assert NoCrLf(s[1..]) by {
        forall i | 0 <= i < |s[1..]| - 1
          ensures !(s[1..][i] == '\r' && s[1..][i + 1] == '\n')
        {
          assert s[1..][i] == s[i + 1] && s[1..][i + 1] == s[i + 2];
        }
      }
      ReplaceCrLfWithoutPairs(s[1..]);
    }
  }

  /** A CR LF pair at the front becomes one LF. */
  lemma ReplaceCrLfPair(t: string)
    ensures ReplaceCrLf("\r\n" + t) == "\n" + ReplaceCrLf(t)
  {
    assert ("\r\n" + t)[2..] == t;
  }

  /** Any other first character is kept.  With `ReplaceCrLfPair` this fixes
      the result of every input, one step at a time. */
  lemma ReplaceCrLfKeeps(c: char, t: string)
    requires c != '\r' || t == [] || t[0] != '\n'
    ensures ReplaceCrLf([c] + t) == [c] + ReplaceCrLf(t)
  {
    assert ([c] + t)[1..] == t;
  }

  /** The key a pasted character is typed as. */
  function PasteKey(c: char): (key: string)
    ensures KeyText(key) == [if c == '\r' then '\n' else c]
  {
    if c == '\n' || c == '\r' then "enter"
    else if c == '\t' then "tab"
    else [c]
  }

  /** One key per character, in order. */
  function PasteKeys(s: string): (keys: seq<string>)
    ensures |keys| == |s|
    ensures forall i :: 0 <= i < |s| ==> keys[i] == PasteKey(s[i])
  {
    if s == [] then [] else [PasteKey(s[0])] + PasteKeys(s[1..])
  }

  /** `TerminalViewPaste.run`: the callback calls made for a clipboard,
      none when no callback is registered. */
  method Paste(clipboard: string, hasCallback: bool) returns (keys: seq<string>)
    ensures keys == if hasCallback then PasteKeys(ReplaceCrLf(clipboard)) else []
  {
    keys := [];
    if !hasCallback {
      return;
    }
    var copied := ReplaceCrLf(clipboard);
    for i := 0 to |copied|
      invariant |keys| == i
      invariant forall j :: 0 <= j < i ==> keys[j] == PasteKey(copied[j])
    {
      var ch := copied[i];
      if ch == '\n' || ch == '\r' {
        keys := keys + ["enter"];
      } else if ch == '\t' {
        keys := keys + ["tab"];
      } else {
        keys := keys + [[ch]];
      }
    }
  }

  /** The text a key stands for: the inverse of `PasteKey`. */
  function KeyText(key: string): string
  {
    if key == "enter" then "\n" else if key == "tab" then "\t" else key
  }

  /** The text a sequence of keys types. */
  function Typed(keys: seq<string>): string
  {
    if keys == [] then "" else KeyText(keys[0]) + Typed(keys[1..])
  }

  /** Reference: the text with every line break (CR LF, lone CR, LF) as
      one LF. */
  function UnixLines(s: string): string
  {
    if s == [] then ""
    else if s[0] == '\r' && |s| >= 2 && s[1] == '\n' then "\n" + UnixLines(s[2..])
    else if s[0] == '\r' then "\n" + UnixLines(s[1..])
    else [s[0]] + UnixLines(s[1..])
  }

  /** Every LF or lone CR left after the replacement becomes an LF. */
  function CrToLf(s: string): string
  {
    if s == [] then "" else [if s[0] == '\r' then '\n' else s[0]] + CrToLf(s[1..])
  }

  lemma {:induction false} TypedPasteKeys(s: string)
    ensures Typed(PasteKeys(s)) == CrToLf(s)
  {
    if s != [] {
      TypedPasteKeys(s[1..]);
      assert PasteKeys(s)[1..] == PasteKeys(s[1..]);
    }
  }

  lemma {:induction false} CrToLfAfterReplace(s: string)
    ensures CrToLf(ReplaceCrLf(s)) == UnixLines(s)
  {
    if |s| >= 2 && s[0] == '\r' && s[1] == '\n' {
      CrToLfAfterReplace(s[2..]);
      assert ReplaceCrLf(s)[1..] == ReplaceCrLf(s[2..]);
    } else if s != [] {
      CrToLfAfterReplace(s[1..]);
      assert ReplaceCrLf(s)[1..] == ReplaceCrLf(s[1..]);
    }
  }

  /** Pasting types the clipboard exactly, with each line break (CR LF, CR
      or LF) typed as one "enter" and each tab as "tab". */
  lemma PasteTypesClipboard(clipboard: string)
    ensures Typed(PasteKeys(ReplaceCrLf(clipboard))) == UnixLines(clipboard)
  {
    TypedPasteKeys(ReplaceCrLf(clipboard));
    CrToLfAfterReplace(clipboard);
  }

  /** No pasted key is a raw line break or tab: those are always named. */
  lemma PasteKeysAreNamed(s: string)
    ensures forall k :: k in PasteKeys(s) ==>
      k == "enter" || k == "tab" || (|k| == 1 && k[0] !in {'\n', '\r', '\t'})
  {
  }

  // ---------------------------------------------------------------------
  // TerminalViewCopy

  /** `str.isspace` for one character: the characters `str.rstrip()` removes. */
  predicate IsSpace(c: char): (r: bool)
    ensures c == ' ' || c == '\t' || c == '\n' || c == '\r' ==> r
    ensures '!' <= c <= '~' ==> !r
  {
    || c in {'\t', '\n', '\r', ' '}
    || 0x0b <= c as int <= 0x0c
    || 0x1c <= c as int <= 0x1f
    || c as int == 0x85 || c as int == 0xa0 || c as int == 0x1680
    || 0x2000 <= c as int <= 0x200a
    || c as int == 0x2028 || c as int == 0x2029 || c as int == 0x202f
    || c as int == 0x205f || c as int == 0x3000
  }

  /** `str.rstrip()`. */
  function RStrip(s: string): (r: string)
    ensures r <= s
    ensures r == [] || !IsSpace(r[|r| - 1])
    ensures forall i :: |r| <= i < |s| ==> IsSpace(s[i])
  {
    if s != [] && IsSpace(s[|s| - 1]) then RStrip(s[..|s| - 1]) else s
  }

  /** `str.split("\n")`: the pieces between line feeds; at least one. */
  function SplitLines(s: string): (lines: seq<string>)
    ensures |lines| >= 1
  {
    if s == [] then [""]
    else
      var rest := SplitLines(s[1..]);
      if s[0] == '\n' then [""] + rest else [[s[0]] + rest[0]] + rest[1..]
  }

  /** `"\n".join(lines)`. */
  function Join(lines: seq<string>): string
  {
    if lines == [] then ""
    else if |lines| == 1 then lines[0]
    else lines[0] + "\n" + Join(lines[1..])
  }

  /** Every line with its trailing whitespace removed. */
  function StripAll(lines: seq<string>): (r: seq<string>)
    ensures |r| == |lines|
    ensures forall i :: 0 <= i < |lines| ==> r[i] == RStrip(lines[i])
  {
    seq(|lines|, i requires 0 <= i < |lines| => RStrip(lines[i]))
  }

  /** What the copy loop builds: every line followed by a line feed. */
  function Terminated(lines: seq<string>): string
  {
    if lines == [] then "" else Terminated(lines[..|lines| - 1]) + lines[|lines| - 1] + "\n"
  }

  /** The text `TerminalViewCopy` puts on the clipboard. */
  function CleanCopy(selected: string): (r: string)
    ensures |r| <= |selected|
  {
    JoinSplitLines(selected);
    StrippedJoinIsShorter(SplitLines(selected));
    Join(StripAll(SplitLines(selected)))
  }

  /** Stripping every line never lengthens the joined text. */
  lemma {:induction false} StrippedJoinIsShorter(lines: seq<string>)
    ensures |Join(StripAll(lines))| <= |Join(lines)|
  {
    if |lines| > 1 {
      StrippedJoinIsShorter(lines[1..]);
      assert StripAll(lines)[1..] == StripAll(lines[1..]);
    }
  }

  lemma {:induction false} JoinSnoc(lines: seq<string>, last: string)
    requires lines != []
    ensures Join(lines + [last]) == Join(lines) + "\n" + last
  {
    if |lines| > 1 {
      JoinSnoc(lines[1..], last);
      assert (lines + [last])[1..] == lines[1..] + [last];
    }
  }

  lemma {:induction false} TerminatedIsJoin(lines: seq<string>)
    requires lines != []
    ensures Terminated(lines) == Join(lines) + "\n"
  {
    var init := lines[..|lines| - 1];
    if init != [] {
      TerminatedIsJoin(init);
      JoinSnoc(init, lines[|lines| - 1]);
      assert init + [lines[|lines| - 1]] == lines;
    }
  }

  /** `TerminalViewCopy.run`: strip each selected line, join them with line
      feeds, and drop the final line feed the loop added. */
  method Copy(selectedText: string) returns (clipboard: string)
    ensures clipboard == CleanCopy(selectedText)
  {
    var selectedLines := SplitLines(selectedText);
    var clean := "";
    for i := 0 to |selectedLines|
      invariant clean == Terminated(StripAll(selectedLines)[..i])
    {
      assert StripAll(selectedLines)[..i + 1] == StripAll(selectedLines)[..i] + [RStrip(selectedLines[i])];
      clean := clean + RStrip(selectedLines[i]) + "\n";
    }
    assert StripAll(selectedLines)[..|selectedLines|] == StripAll(selectedLines);
    TerminatedIsJoin(StripAll(selectedLines));
    clipboard := clean[..|clean| - 1];
  }

  /** Splitting then joining gives the text back. */
  lemma {:induction false} JoinSplitLines(s: string)
    ensures Join(SplitLines(s)) == s
  {
    if s != [] {
      JoinSplitLines(s[1..]);
      var rest := SplitLines(s[1..]);
      if s[0] != '\n' && |rest| > 1 {
        assert ([[s[0]] + rest[0]] + rest[1..])[1..] == rest[1..];
      }
    }
  }

  /** No piece holds a line feed. */
  lemma {:induction false} SplitLinesHaveNoFeed(s: string)
    ensures forall l :: l in SplitLines(s) ==> '\n' !in l
  {
    if s != [] {
      SplitLinesHaveNoFeed(s[1..]);
      var rest := SplitLines(s[1..]);
      assert forall l :: l in rest[1..] ==> l in rest;
    }
  }

  /** Joining lines without line feeds, then splitting, gives the lines
      back. */
  lemma {:induction false} SplitJoinedLines(lines: seq<string>)
    requires |lines| >= 1
    requires forall l :: l in lines ==> '\n' !in l
    ensures SplitLines(Join(lines)) == lines
  {
    if |lines| == 1 {
      SplitOneLine(lines[0]);
    } else {
      SplitJoinedLines(lines[1..]);
      SplitAfterLine(lines[0], Join(lines[1..]));
      assert [lines[0]] + lines[1..] == lines;
    }
  }

  lemma {:induction false} SplitOneLine(l: string)
    requires '\n' !in l
    ensures SplitLines(l) == [l]
  {
    if l != [] {
      SplitOneLine(l[1..]);
      assert [l[0]] + l[1..] == l;
    }
  }

  lemma {:induction false} SplitAfterLine(l: string, rest: string)
    requires '\n' !in l
    ensures SplitLines(l + "\n" + rest) == [l] + SplitLines(rest)
  {
    if l == [] {
      assert l + "\n" + rest == "\n" + rest;
      assert ("\n" + rest)[1..] == rest;
    } else {
      SplitAfterLine(l[1..], rest);
      assert (l + "\n" + rest)[1..] == l[1..] + "\n" + rest;
      assert [l[0]] + l[1..] == l;
    }
  }

  /** The copied text has the selection's lines, in order and as many, each
      with its trailing whitespace removed. */
  lemma CopyKeepsLines(selected: string)
    ensures SplitLines(CleanCopy(selected)) == StripAll(SplitLines(selected))
    ensures forall l :: l in SplitLines(CleanCopy(selected)) ==> l == [] || !IsSpace(l[|l| - 1])
  {
    var lines := StripAll(SplitLines(selected));
    SplitLinesHaveNoFeed(selected);
    forall l | l in lines
      ensures '\n' !in l
    {
      var i :| 0 <= i < |lines| && lines[i] == l;
      assert SplitLines(selected)[i] in SplitLines(selected);
    }
    SplitJoinedLines(lines);
  }

  /** Copying copied text changes nothing more. */
  lemma CopyIsIdempotent(selected: string)
    ensures CleanCopy(CleanCopy(selected)) == CleanCopy(selected)
  {
    CopyKeepsLines(selected);
    var lines := SplitLines(CleanCopy(selected));
    assert StripAll(lines) == lines;
    JoinSplitLines(CleanCopy(selected));
  }
}
