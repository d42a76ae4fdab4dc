/**
 * LinuxPty.py, the older generation of linux_pty.py.  Its key encoder keeps its
 * own copies of the three tables and writes the helpers with explicit
 * else-branches; the fifth parameter of `send_keypress` is called `super`.
 * `receive_output` always polls with a zero timeout.  The running-flag logic is
 * the same as the newer file's, so the class below is specified by the same
 * state functions.
 */
module LegacyPty {
  import opened Wrappers
  import KeyEncoder
  import opened PtySession

  /** `_LINUX_KEY_MAP` of LinuxPty.py. */
  const LegacyKeyMap: map<string, string> := map[
    "enter" := "\r",
    "backspace" := "\U{7f}",
    "tab" := "\t",
    "space" := " ",
    "escape" := "\U{1b}",
    "down" := "\U{1b}[B",
    "up" := "\U{1b}[A",
    "right" := "\U{1b}[C",
    "left" := "\U{1b}[D",
    "home" := "\U{1b}[1~",
    "end" := "\U{1b}[4~",
    "pageup" := "\U{1b}[5~",
    "pagedown" := "\U{1b}[6~",
    "delete" := "\U{1b}[3~",
    "insert" := "\U{1b}[2~",
    "f1" := "\U{1b}OP",
    "f2" := "\U{1b}OQ",
    "f3" := "\U{1b}OR",
    "f4" := "\U{1b}OS",
    "f5" := "\U{1b}[15~",
    "f6" := "\U{1b}[17~",
    "f7" := "\U{1b}[18~",
    "f8" := "\U{1b}[19~",
    "f9" := "\U{1b}[20~",
    "f10" := "\U{1b}[21~",
    "f12" := "\U{1b}[24~"
  ]

  /** `_LINUX_CTRL_KEY_MAP` of LinuxPty.py. */
  const LegacyCtrlKeyMap: map<string, string> := map[
    "up" := "\U{1b}[1;5A",
    "down" := "\U{1b}[1;5B",
    "right" := "\U{1b}[1;5C",
    "left" := "\U{1b}[1;5D",
    "@" := "\0",
    "`" := "\0",
    "[" := "\U{1b}",
    "{" := "\U{1b}",
    "\\" := "\U{1c}",
    "|" := "\U{1c}",
    "]" := "\U{1d}",
    "}" := "\U{1d}",
    "^" := "\U{1e}",
    "~" := "\U{1e}",
    "_" := "\U{1f}",
    "?" := "\U{7f}"
  ]

  /** `_LINUX_ALT_KEY_MAP` of LinuxPty.py. */
  const LegacyAltKeyMap: map<string, string> := map[
    "up" := "\U{1b}[1;3A",
    "down" := "\U{1b}[1;3B",
    "right" := "\U{1b}[1;3C",
    "left" := "\U{1b}[1;3D"
  ]

  /** `_get_key_code` of LinuxPty.py. */
  function LegacyKeyCode(key: string): (r: string)
    ensures r == KeyEncoder.GetKeyCode(key)
  {
    if key in LegacyKeyMap then LegacyKeyMap[key] else key
  }

  /** `_get_ctrl_combination_key_code` of LinuxPty.py. */
  function LegacyCtrlKeyCode(key: string): (r: string)
    ensures r == KeyEncoder.GetCtrlCombinationKeyCode(key)
  {
    var k := KeyEncoder.Lower(key);
    if k in LegacyCtrlKeyMap then LegacyCtrlKeyMap[k]
    else if |k| == 1 then
      var unicode := k[0] as int;
      if unicode >= 97 && unicode <= 122 then [(unicode - 'a' as int + 1) as char]
      else LegacyKeyCode(k)
    else LegacyKeyCode(k)
  }

  /** `_get_alt_combination_key_code` of LinuxPty.py. */
  function LegacyAltKeyCode(key: string): (r: string)
    ensures r == KeyEncoder.GetAltCombinationKeyCode(key)
  {
    var k := KeyEncoder.Lower(key);
    if k in LegacyAltKeyMap then LegacyAltKeyMap[k]
    else [KeyEncoder.Esc] + LegacyKeyCode(k)
  }

  /** `send_keypress(key, ctrl, alt, shift, super)` of LinuxPty.py. */
  function LegacyEncodeKeypress(key: string, ctrl: bool, alt: bool, shift: bool, super: bool): (r: string)
    ensures r == KeyEncoder.EncodeKeypress(key, ctrl, alt, shift, super)
  {
    if ctrl then LegacyCtrlKeyCode(key)
    else if alt then LegacyAltKeyCode(key)
    else LegacyKeyCode(key)
  }

  /** The two generations carry the same tables. */
  lemma SameTables()
    ensures LegacyKeyMap == KeyEncoder.LinuxKeyMap
    ensures LegacyCtrlKeyMap == KeyEncoder.LinuxCtrlKeyMap
    ensures LegacyAltKeyMap == KeyEncoder.LinuxAltKeyMap
  {
  }

  /** Every keypress is encoded identically by LinuxPty.py and linux_pty.py. */
  lemma SameEncoding(key: string, ctrl: bool, alt: bool, shift: bool, meta: bool)
    ensures LegacyEncodeKeypress(key, ctrl, alt, shift, meta) == KeyEncoder.EncodeKeypress(key, ctrl, alt, shift, meta)
  {
    SameTables();
  }

  /** `LinuxPty` of LinuxPty.py. */
  class LegacyLinuxPty {
    var hasProcess: bool
    var exited: bool
    var pending: seq<byte>
    var written: seq<string>
    var kills: nat
    var winsizes: seq<WinSize>

    function State(): PtyState
      reads this
    {
      PtyState(hasProcess, exited, pending, written, kills, winsizes)
    }

    constructor ()
      ensures State() == PtyState(true, false, [], [], 0, [])
    {
      hasProcess, exited, pending, written, kills, winsizes := true, false, [], [], 0, [];
    }

    predicate IsRunning(): (r: bool)
      reads this
      ensures r == Running(State())
    {
      Running(State())
    }

    method Stop()
      modifies this
      ensures State() == StopState(old(State()))
    {
      if IsRunning() {
        kills := kills + 1;
      }
      hasProcess := false;
    }

    /** Zero-timeout poll, then a read of at most `maxReadSize` bytes. */
    method ReceiveOutput(maxReadSize: nat) returns (data: Option<seq<byte>>)
      modifies this
      ensures (State(), data) == ReceiveState(old(State()), maxReadSize)
    {
      if !IsRunning() {
        return None;
      }
      if pending == [] {
        return None;
      }
      var n := Min(maxReadSize, |pending|);
      data := Some(pending[..n]);
      pending := pending[n..];
    }

    method SendString(text: string)
      modifies this
      ensures State() == SendStringState(old(State()), text)
    {
      if IsRunning() {
        written := written + [text];
      }
    }

    method SendKeypress(key: string, ctrl: bool, alt: bool, shift: bool, super: bool)
      modifies this
      ensures State() == SendStringState(old(State()), LegacyEncodeKeypress(key, ctrl, alt, shift, super))
      ensures State() == SendKeypressState(old(State()), key, ctrl, alt, shift, super)
    {
      var keycode: string;
      if ctrl {
        keycode := LegacyCtrlKeyCode(key);
      } else if alt {
        keycode := LegacyAltKeyCode(key);
      } else {
        keycode := LegacyKeyCode(key);
      }
      SendString(keycode);
      SameEncoding(key, ctrl, alt, shift, super);
    }

    /** The same always-true `if self.is_running:` guard as the newer file. */
    method UpdateScreenSize(lines: nat, columns: nat) returns (ok: bool)
      modifies this
      ensures ok == ScreenSizeState(old(State()), lines, columns).Some?
      ensures ok ==> State() == ScreenSizeState(old(State()), lines, columns).value
      ensures !ok ==> State() == old(State())
    {
      if lines > MaxUnsignedShort || columns > MaxUnsignedShort {
        return false;
      }
      winsizes := winsizes + [WinSize(lines, columns, 0, 0)];
      ok := true;
    }
  }
}
