/**
 * The key encoder of linux_pty.py: a symbolic key name plus modifier flags
 * becomes the text written to the pseudo-terminal.  Three fixed tables
 * (plain, ctrl, alt) and a fixed precedence: ctrl, then alt, then plain.
 */
module KeyEncoder {

  /** ESC, the first character of every CSI / SS3 sequence. */
  const Esc: char := 27 as char

  /** `_LINUX_KEY_MAP`: named keys and their canonical sequences (TERM=linux). */
  const LinuxKeyMap: map<string, string> := map[
    "enter" := "\r",
    "backspace" := "\U{7f}",
    "tab" := "\t",
    "space" := " ",
    "escape" := "\U{1b}",
    "down" := "\U{1b}[B",
    "up" := "\U{1b}[A",
    "right" := "\U{1b}[C",
    "left" := "\U{1b}[D",
    "home" := "\U{1b}[1~",
    "end" := "\U{1b}[4~",
    "pageup" := "\U{1b}[5~",
    "pagedown" := "\U{1b}[6~",
    "delete" := "\U{1b}[3~",
    "insert" := "\U{1b}[2~",
    "f1" := "\U{1b}OP",
    "f2" := "\U{1b}OQ",
    "f3" := "\U{1b}OR",
    "f4" := "\U{1b}OS",
    "f5" := "\U{1b}[15~",
    "f6" := "\U{1b}[17~",
    "f7" := "\U{1b}[18~",
    "f8" := "\U{1b}[19~",
    "f9" := "\U{1b}[20~",
    "f10" := "\U{1b}[21~",
    "f12" := "\U{1b}[24~"
  ]

  /** `_LINUX_CTRL_KEY_MAP`: arrows in xterm's modifier form (parameter 5 =
      Control) and punctuation mapped to its C0 control code. */
  const LinuxCtrlKeyMap: map<string, string> := map[
    "up" := "\U{1b}[1;5A",
    "down" := "\U{1b}[1;5B",
    "right" := "\U{1b}[1;5C",
    "left" := "\U{1b}[1;5D",
    "@" := "\0",
    "`" := "\0",
    "[" := "\U{1b}",
    "{" := "\U{1b}",
    "\\" := "\U{1c}",
    "|" := "\U{1c}",
    "]" := "\U{1d}",
    "}" := "\U{1d}",
    "^" := "\U{1e}",
    "~" := "\U{1e}",
    "_" := "\U{1f}",
    "?" := "\U{7f}"
  ]

  /** `_LINUX_ALT_KEY_MAP`: arrows in xterm's modifier form (parameter 3 = Alt). */
  const LinuxAltKeyMap: map<string, string> := map[
    "up" := "\U{1b}[1;3A",
    "down" := "\U{1b}[1;3B",
    "right" := "\U{1b}[1;3C",
    "left" := "\U{1b}[1;3D"
  ]

  predicate IsUpper(c: char) { 'A' <= c <= 'Z' }

  predicate IsLowerLetter(c: char) { 'a' <= c <= 'z' }

  /** Case folding of one character (ASCII letters only). */
  function LowerChar(c: char): (r: char)
    ensures !IsUpper(r)
    ensures IsUpper(c) ==> r as int == c as int + 32
    ensures !IsUpper(c) ==> r == c
  {
    if IsUpper(c) then (c as int + 32) as char else c
  }

  /** `str.lower()`, restricted to ASCII letters. */
  function Lower(s: string): (r: string)
    ensures |r| == |s|
    ensures forall i :: 0 <= i < |s| ==> r[i] == LowerChar(s[i])
    ensures forall i :: 0 <= i < |r| ==> !IsUpper(r[i])
  {
    seq(|s|, i requires 0 <= i < |s| => LowerChar(s[i]))
  }

  /** `_get_key_code`: a table lookup that passes unknown names through
      unchanged.  Note: no case folding on this path. */
  function GetKeyCode(key: string): (r: string)
    ensures key !in LinuxKeyMap ==> r == key
    ensures key in LinuxKeyMap ==> r != key && |r| >= 1 && (|r| == 1 || r[0] == Esc)
  {
    if key in LinuxKeyMap then LinuxKeyMap[key] else key
  }

  /** True iff `key` is a single letter a..z (after folding). */
  predicate IsCtrlLetter(key: string)
  {
    |key| == 1 && IsLowerLetter(key[0])
  }

  /** `chr(ord(letter) - ord('a') + 1)`. */
  function CtrlLetterCode(letter: char): (r: char)
    requires IsLowerLetter(letter)
    ensures 1 <= r as int <= 26
  {
    (letter as int - 'a' as int + 1) as char
  }

  /** `_get_ctrl_combination_key_code`. */
  function GetCtrlCombinationKeyCode(key: string): (r: string)
    ensures IsCtrlLetter(Lower(key)) ==> |r| == 1 && 1 <= r[0] as int <= 26
    ensures Lower(key) !in LinuxCtrlKeyMap && !IsCtrlLetter(Lower(key)) ==> r == GetKeyCode(Lower(key))
  {
    var k := Lower(key);
    if k in LinuxCtrlKeyMap then LinuxCtrlKeyMap[k]
    else if |k| == 1 then
      if IsLowerLetter(k[0]) then [CtrlLetterCode(k[0])] else GetKeyCode(k)
    else GetKeyCode(k)
  }

  /** `_get_alt_combination_key_code`. */
  function GetAltCombinationKeyCode(key: string): (r: string)
    ensures |r| >= 1 && r[0] == Esc
  {
    var k := Lower(key);
    if k in LinuxAltKeyMap then LinuxAltKeyMap[k]
    else [Esc] + GetKeyCode(k)
  }

  /** The branch selection of `send_keypress`: ctrl wins over alt; shift and
      meta are accepted and ignored. */
  function EncodeKeypress(key: string, ctrl: bool, alt: bool, shift: bool, meta: bool): (r: string)
    ensures !ctrl && alt ==> |r| >= 1 && r[0] == Esc
    ensures !ctrl && !alt && |key| == 1 ==> r == key
  {
    if ctrl then GetCtrlCombinationKeyCode(key)
    else if alt then GetAltCombinationKeyCode(key)
    else GetKeyCode(key)
  }

  // ---------------------------------------------------------------------
  // Case folding

  lemma {:induction false} LowerIdempotent(s: string)
    ensures Lower(Lower(s)) == Lower(s)
  {
    var l := Lower(s);
    var ll := Lower(l);
    assert |ll| == |l|;
    forall i | 0 <= i < |l| ensures ll[i] == l[i] {
      assert ll[i] == LowerChar(l[i]);
    }
  }

  /** A folded key has no upper-case letter, and the encoders only look at the
      folded key on the ctrl and alt paths, so case never matters there. */
  lemma {:induction false} CtrlAltIgnoreCase(key1: string, key2: string)
    requires Lower(key1) == Lower(key2)
    ensures GetCtrlCombinationKeyCode(key1) == GetCtrlCombinationKeyCode(key2)
    ensures GetAltCombinationKeyCode(key1) == GetAltCombinationKeyCode(key2)
  {
  }

  // ---------------------------------------------------------------------
  // Ctrl path

  /** Ctrl + a letter, in either case, is the letter's control code \x01..\x1a. */
  lemma CtrlLetter(c: char)
    requires IsLowerLetter(LowerChar(c))
    ensures GetCtrlCombinationKeyCode([c]) == [CtrlLetterCode(LowerChar(c))]
    ensures var r := GetCtrlCombinationKeyCode([c]);
      |r| == 1 && 1 <= r[0] as int <= 26 && r[0] as int == LowerChar(c) as int - 96
  {
    assert Lower([c]) == [LowerChar(c)];
  }

  /** Ctrl + arrow uses xterm's modifier form with parameter 5 (Control). */
  lemma CtrlArrows()
    ensures GetCtrlCombinationKeyCode("up") == [Esc] + "[1;5A"
    ensures GetCtrlCombinationKeyCode("down") == [Esc] + "[1;5B"
    ensures GetCtrlCombinationKeyCode("right") == [Esc] + "[1;5C"
    ensures GetCtrlCombinationKeyCode("left") == [Esc] + "[1;5D"
  {
    assert Lower("up") == "up";
    assert Lower("down") == "down";
    assert Lower("right") == "right";
    assert Lower("left") == "left";
  }

  /** Ctrl + `@`, `[`, `\` and their shifted keys give NUL, ESC and FS, the
      C0 codes of the terminal convention. */
  lemma CtrlPunctuation()
    ensures GetCtrlCombinationKeyCode("@") == [0 as char] && GetCtrlCombinationKeyCode("`") == [0 as char]
    ensures GetCtrlCombinationKeyCode("[") == [Esc] && GetCtrlCombinationKeyCode("{") == [Esc]
    ensures GetCtrlCombinationKeyCode("\\") == [28 as char] && GetCtrlCombinationKeyCode("|") == [28 as char]
  {
    assert Lower("@") == "@" && Lower("`") == "`";
    assert Lower("[") == "[" && Lower("{") == "{";
    assert Lower("\\") == "\\" && Lower("|") == "|";
  }

  /** Ctrl + `]`, `^`, `_`, their shifted keys and `?` give GS, RS, US and
      DEL. */
  lemma CtrlPunctuationHigh()
    ensures GetCtrlCombinationKeyCode("]") == [29 as char] && GetCtrlCombinationKeyCode("}") == [29 as char]
    ensures GetCtrlCombinationKeyCode("^") == [30 as char] && GetCtrlCombinationKeyCode("~") == [30 as char]
    ensures GetCtrlCombinationKeyCode("_") == [31 as char] && GetCtrlCombinationKeyCode("?") == [127 as char]
  {
    assert Lower("]") == "]" && Lower("}") == "}";
    assert Lower("^") == "^" && Lower("~") == "~";
    assert Lower("_") == "_" && Lower("?") == "?";
  }

  /** A folded key that is neither in the ctrl table nor a letter falls back
      to the plain table (and so passes through when unknown). */
  lemma CtrlFallthrough(key: string)
    requires Lower(key) !in LinuxCtrlKeyMap && !IsCtrlLetter(Lower(key))
    ensures GetCtrlCombinationKeyCode(key) == GetKeyCode(Lower(key))
    ensures Lower(key) !in LinuxKeyMap ==> GetCtrlCombinationKeyCode(key) == Lower(key)
  {
  }

  /** The control code of a letter, read back: the inverse of the ctrl-letter
      arithmetic on \x01..\x1a. */
  function DecodeCtrlLetter(code: char): (r: char)
    requires 1 <= code as int <= 26
    ensures IsLowerLetter(r)
  {
    (code as int + 'a' as int - 1) as char
  }

  lemma CtrlLetterRoundTrip(letter: char)
    requires IsLowerLetter(letter)
    ensures DecodeCtrlLetter(CtrlLetterCode(letter)) == letter
  {
  }

  /** No ctrl-table value is the control code of a letter, so every ctrl
      encoding of a single character determines which path produced it. */
  lemma CtrlTableDisjointFromLetters(k: string, letter: char)
    requires k in LinuxCtrlKeyMap && IsLowerLetter(letter)
    ensures LinuxCtrlKeyMap[k] != [CtrlLetterCode(letter)]
  {
  }

  // ---------------------------------------------------------------------
  // Alt path

  /** Alt + arrow uses the modifier form; alt + anything else is ESC followed
      by the plain encoding of the folded key. */
  lemma {:induction false} AltPrefixesEscape(key: string)
    ensures var r := GetAltCombinationKeyCode(key);
      |r| >= 1 && r[0] == Esc
    ensures Lower(key) !in LinuxAltKeyMap ==>
      GetAltCombinationKeyCode(key)[1..] == GetKeyCode(Lower(key))
  {
    var k := Lower(key);
    if k !in LinuxAltKeyMap {
      assert GetAltCombinationKeyCode(key) == [Esc] + GetKeyCode(k);
    }
  }

  /** Alt + letter sends ESC and the lower-case letter. */
  lemma AltLetter(c: char)
    requires IsLowerLetter(LowerChar(c))
    ensures GetAltCombinationKeyCode([c]) == [Esc, LowerChar(c)]
  {
    assert Lower([c]) == [LowerChar(c)];
  }

  lemma AltArrows()
    ensures GetAltCombinationKeyCode("up") == [Esc] + "[1;3A"
    ensures GetAltCombinationKeyCode("down") == [Esc] + "[1;3B"
    ensures GetAltCombinationKeyCode("right") == [Esc] + "[1;3C"
    ensures GetAltCombinationKeyCode("left") == [Esc] + "[1;3D"
  {
    assert Lower("up") == "up";
    assert Lower("down") == "down";
    assert Lower("right") == "right";
    assert Lower("left") == "left";
  }

  // ---------------------------------------------------------------------
  // Plain path

  /** Every named key is longer than one character, so a single character is
      always sent as itself. */
  lemma PlainSingleCharacter(c: char)
    ensures GetKeyCode([c]) == [c]
  {
  }

  /** The plain path does not fold case: an upper-case name is not a table
      entry and passes through unchanged. */
  lemma PlainIsCaseSensitive()
    ensures GetKeyCode("Enter") == "Enter"
    ensures GetKeyCode("enter") == "\r"
  {
  }

  lemma PlainNamedKeys()
    ensures GetKeyCode("backspace") == [127 as char]
    ensures GetKeyCode("home") == [Esc] + "[1~"
    ensures GetKeyCode("f1") == [Esc] + "OP"
    ensures GetKeyCode("f12") == [Esc] + "[24~"
    ensures "f11" !in LinuxKeyMap && GetKeyCode("f11") == "f11"
  {
  }

  // ---------------------------------------------------------------------
  // Precedence

  /** Ctrl takes precedence over alt; shift and meta never change the result. */
  lemma Precedence(key: string, alt: bool, shift: bool, meta: bool, shift2: bool, meta2: bool)
    ensures EncodeKeypress(key, true, alt, shift, meta) == GetCtrlCombinationKeyCode(key)
    ensures EncodeKeypress(key, false, true, shift, meta) == GetAltCombinationKeyCode(key)
    ensures EncodeKeypress(key, false, false, shift, meta) == GetKeyCode(key)
    ensures forall c: bool, a: bool :: EncodeKeypress(key, c, a, shift, meta) == EncodeKeypress(key, c, a, shift2, meta2)
  {
  }
}
