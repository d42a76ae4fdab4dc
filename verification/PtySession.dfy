/**
 * The process side of linux_pty.py: a child process behind a pseudo-terminal,
 * reduced to what the code decides on.  The child handle becomes a flag
 * (`_process is not None`), the child's own liveness (`poll()`) another flag
 * owned by the environment, unread output a byte sequence, and every write,
 * kill and window-size notification a log entry.
 */
module PtySession {
  import opened Wrappers
  import KeyEncoder

  newtype byte = x: int | 0 <= x < 256

  /** Largest value `struct.pack('H', ...)` accepts. */
  const MaxUnsignedShort: nat := 65535

  /** One TIOCSWINSZ notification: (rows, cols, xpixel, ypixel). */
  datatype WinSize = WinSize(rows: nat, cols: nat, xpixel: nat, ypixel: nat)

  /** Everything the pty wrapper's methods read or change. */
  datatype PtyState = PtyState(
    hasProcess: bool,      // `self._process is not None`
    exited: bool,          // `self._process.poll() is not None`
    pending: seq<byte>,    // output the child produced that was not read yet
    written: seq<string>,  // strings written to the master, in order
    kills: nat,            // how many times the child was killed
    winsizes: seq<WinSize> // window-size notifications, in order
  )

  /** `is_running`. */
  predicate Running(s: PtyState): (r: bool)
    ensures !s.hasProcess ==> !r
    ensures s.exited ==> !r
    ensures s.hasProcess && !s.exited ==> r
  {
    s.hasProcess && !s.exited
  }

  /** `stop`: kill only a running child, then drop the handle. */
  function StopState(s: PtyState): (r: PtyState)
    ensures !Running(r) && r.kills <= s.kills + 1
    ensures r.(hasProcess := s.hasProcess, kills := s.kills) == s
  {
    s.(hasProcess := false, kills := if Running(s) then s.kills + 1 else s.kills)
  }

  /** `receive_output`: nothing when not running or nothing is ready,
      otherwise the first `maxReadSize` pending bytes. */
  function ReceiveState(s: PtyState, maxReadSize: nat): (r: (PtyState, Option<seq<byte>>))
    ensures r.1.None? ==> r.0 == s
    ensures r.1.Some? ==> |r.1.value| <= maxReadSize && r.1.value + r.0.pending == s.pending
    ensures r.0.(pending := s.pending) == s
  {
    if !Running(s) || s.pending == [] then (s, None)
    else
      var n := Min(maxReadSize, |s.pending|);
      (s.(pending := s.pending[n..]), Some(s.pending[..n]))
  }

  /** `_send_string`: written only while running. */
  function SendStringState(s: PtyState, text: string): (r: PtyState)
    ensures !Running(s) ==> r == s
    ensures Running(s) ==> r.written == s.written + [text]
    ensures r.(written := s.written) == s
  {
    if Running(s) then s.(written := s.written + [text]) else s
  }

  /** `send_keypress`: encode, then `_send_string`. */
  function SendKeypressState(s: PtyState, key: string, ctrl: bool, alt: bool, shift: bool, meta: bool): (r: PtyState)
    ensures !Running(s) ==> r == s
    ensures Running(s) ==> |r.written| == |s.written| + 1 && r.written[|s.written|] == KeyEncoder.EncodeKeypress(key, ctrl, alt, shift, meta)
    ensures r.(written := s.written) == s
  {
    SendStringState(s, KeyEncoder.EncodeKeypress(key, ctrl, alt, shift, meta))
  }

  /** `update_screen_size`.  The guard `if self.is_running:` tests the bound
      method, which is always true, so the notification does not depend on
      liveness.  `struct.pack('HHHH', ...)` raises for a value above 65535:
      the result is then `None` and nothing is sent. */
  function ScreenSizeState(s: PtyState, lines: nat, columns: nat): (r: Option<PtyState>)
    ensures r.Some? <==> lines <= MaxUnsignedShort && columns <= MaxUnsignedShort
    ensures r.Some? ==> r.value.winsizes == s.winsizes + [WinSize(lines, columns, 0, 0)]
    ensures r.Some? ==> r.value.(winsizes := s.winsizes) == s
  {
    if lines > MaxUnsignedShort || columns > MaxUnsignedShort then None
    else Some(s.(winsizes := s.winsizes + [WinSize(lines, columns, 0, 0)]))
  }

  // ---------------------------------------------------------------------
  // Properties of the running flag

  /** After `stop` the child is not running and at most one kill was sent;
      stopping again changes nothing. */
  lemma StopIsIdempotent(s: PtyState)
    ensures !Running(StopState(s))
    ensures StopState(s).kills == s.kills + (if Running(s) then 1 else 0)
    ensures StopState(StopState(s)) == StopState(s)
  {
  }

  /** Once stopped, writes and reads are no-ops. */
  lemma StoppedIsInert(s: PtyState, text: string, maxReadSize: nat)
    ensures SendStringState(StopState(s), text) == StopState(s)
    ensures ReceiveState(StopState(s), maxReadSize) == (StopState(s), None)
  {
  }

  /** A read returns at most `maxReadSize` bytes, in order, and removes exactly
      those from the unread output; no byte is lost or duplicated. */
  lemma ReceiveOutputConserves(s: PtyState, maxReadSize: nat)
    ensures var (s', r) := ReceiveState(s, maxReadSize);
      && (r.None? ==> s' == s)
      && (r.Some? ==> |r.value| <= maxReadSize && r.value + s'.pending == s.pending)
      && (r.Some? <==> Running(s) && s.pending != [])
      && s'.(pending := s.pending) == s
  {
  }

  /** Window-size notifications are sent regardless of liveness, with both
      pixel dimensions zero. */
  lemma ScreenSizeIgnoresLiveness(s: PtyState, lines: nat, columns: nat)
    requires lines <= MaxUnsignedShort && columns <= MaxUnsignedShort
    ensures ScreenSizeState(StopState(s), lines, columns).Some?
    ensures ScreenSizeState(StopState(s), lines, columns).value.winsizes
         == s.winsizes + [WinSize(lines, columns, 0, 0)]
  {
  }

  // ---------------------------------------------------------------------

  /** `LinuxPty` of linux_pty.py.  The child's liveness and output are driven
      by the environment through `ChildWrites` and `ChildExits`. */
  class LinuxPty {
    var hasProcess: bool
    var exited: bool
    var pending: seq<byte>
    var written: seq<string>
    var kills: nat
    var winsizes: seq<WinSize>

    function State(): PtyState
      reads this
    {
      PtyState(hasProcess, exited, pending, written, kills, winsizes)
    }

    /** A freshly spawned child: running, no output yet, nothing sent. */
    constructor ()
      ensures State() == PtyState(true, false, [], [], 0, [])
    {
      hasProcess, exited, pending, written, kills, winsizes := true, false, [], [], 0, [];
    }

    predicate IsRunning(): (r: bool)
      reads this
      ensures r == Running(State())
    {
      Running(State())
    }

    method Stop()
      modifies this
      ensures State() == StopState(old(State()))
    {
      if IsRunning() {
        kills := kills + 1;
      }
      hasProcess := false;
    }

    method ReceiveOutput(maxReadSize: nat) returns (data: Option<seq<byte>>)
      modifies this
      ensures (State(), data) == ReceiveState(old(State()), maxReadSize)
    {
      if !IsRunning() {
        return None;
      }
      if pending == [] {
        return None;
      }
      var n := Min(maxReadSize, |pending|);
      data := Some(pending[..n]);
      pending := pending[n..];
    }

    method SendString(text: string)
      modifies this
      ensures State() == SendStringState(old(State()), text)
    {
      if IsRunning() {
        written := written + [text];
      }
    }

    method SendKeypress(key: string, ctrl: bool, alt: bool, shift: bool, meta: bool)
      modifies this
      ensures State() == SendKeypressState(old(State()), key, ctrl, alt, shift, meta)
    {
      var keycode: string;
      if ctrl {
        keycode := KeyEncoder.GetCtrlCombinationKeyCode(key);
      } else if alt {
        keycode := KeyEncoder.GetAltCombinationKeyCode(key);
      } else {
        keycode := KeyEncoder.GetKeyCode(key);
      }
      SendString(keycode);
    }

    /** Returns false where the source raises from `struct.pack`. */
    method UpdateScreenSize(lines: nat, columns: nat) returns (ok: bool)
      modifies this
      ensures ok == ScreenSizeState(old(State()), lines, columns).Some?
      ensures ok ==> State() == ScreenSizeState(old(State()), lines, columns).value
      ensures !ok ==> State() == old(State())
    {
      if lines > MaxUnsignedShort || columns > MaxUnsignedShort {
        return false;
      }
      winsizes := winsizes + [WinSize(lines, columns, 0, 0)];
      ok := true;
    }

    /** Environment: the child produced output. */
    method ChildWrites(data: seq<byte>)
      modifies this
      ensures State() == old(State()).(pending := old(pending) + data)
    {
      pending := pending + data;
    }

    /** Environment: the child exited on its own. */
    method ChildExits()
      modifies this
      ensures State() == old(State()).(exited := true)
    {
      exited := true;
    }
  }
}
