/**
 * What one base-station worker decides and records, as functions of its
 * state: the gate in front of every keep-alive (`bs_pre_loop`), the command a
 * pending action resolves to (`bs_pre_action`), the bookkeeping after a
 * command was written or skipped, the failure path (`bs_proc_err`) and the
 * setters the coordinator and the discovery call.  The clock, the radio's
 * answer and the other workers' flags are parameters.
 */
module StationLogic {
  import opened Text
  import opened Bytes
  import opened Hex
  import Codec
  import ErrorWindow

  /** `bs_loop_sleep`, `bs_loop_retry`, `bs_loop_retry_disconnect` (seconds). */
  const LoopSleep: int := 25
  const LoopRetry: int := 3
  const LoopRetryDisconnect: int := 7
  /** The suffix that marks a failed action or status. */
  const ErrorTag: string := "-error"
  /** The placeholder of a station without a serial. */
  const NotAvailable: string := "N/A"
  /** The command characteristic of a version 1 station, and `str(UUID(0x12))` for version 2. */
  const CmdBleIdV1: string := "0000cb01-0000-1000-8000-00805f9b34fb"
  const CmdBleIdV2: string := "00000012-0000-1000-8000-00805f9b34fb"

  /** The fields of a `BaseStations` worker that its logic reads and writes. */
  datatype State = State(
    status: string, action: string, mode: string,
    mac: string, sn: int, snhx: string, snshx: string,
    version: int, cmdBleId: string,
    tlock: bool, islocked: bool,
    pingCmd: bool, wakeupCmd: bool, standby: bool,
    discovered: bool, connected: bool, paired: bool,
    errque: seq<int>, tWaitLoop: int, tLastCmd: int, disconnects: nat)

  /** A worker as `__init__` leaves it at time `now`. */
  function Initial(now: int): (r: State)
    ensures SetSerial(r, 0) == r
    ensures r.errque == [] && r.disconnects == 0 && !r.connected && r.tLastCmd == now
  {
    State(status := NotAvailable, action := "Wakeup", mode := "Auto",
          mac := "", sn := 0, snhx := "", snshx := NotAvailable,
          version := 1, cmdBleId := CmdBleIdV1,
          tlock := true, islocked := false,
          pingCmd := false, wakeupCmd := false, standby := false,
          discovered := false, connected := false, paired := false,
          errque := [], tWaitLoop := 1, tLastCmd := now, disconnects := 0)
  }

  // ------------------------------------------------------------- setters

  /** `setstatus`: records the status and the flags some statuses imply. */
  function SetStatus(s: State, st: string): (r: State)
    ensures r.status == st
    ensures r.discovered == (s.discovered || st == "Discovered")
    ensures r.standby == (s.standby || st == "Standby")
    ensures r.pingCmd == (st == "Ping" || (s.pingCmd && st != "Ping-error" && st != "Standby"))
    ensures r.wakeupCmd == (s.wakeupCmd && st != "Discovered" && st != "Wakeup-error" && st != "Standby")
    ensures r.action == s.action && r.mode == s.mode && r.mac == s.mac && r.sn == s.sn && r.snhx == s.snhx
    ensures r.snshx == s.snshx && r.version == s.version && r.cmdBleId == s.cmdBleId && r.tlock == s.tlock
    ensures r.islocked == s.islocked && r.connected == s.connected && r.paired == s.paired && r.errque == s.errque
    ensures r.tWaitLoop == s.tWaitLoop && r.tLastCmd == s.tLastCmd && r.disconnects == s.disconnects
  {
    var t :=
      if st == "Discovered" then s.(wakeupCmd := false, discovered := true)
      else if st == "Wakeup-error" then s.(wakeupCmd := false)
      else if st == "Ping-error" then s.(pingCmd := false)
      else if st == "Ping" then s.(pingCmd := true)
      else if st == "Standby" then s.(standby := true, pingCmd := false, wakeupCmd := false)
      else s;
    t.(status := st)
  }

  /** `hex(sn)[-4:].upper()`: the short id the discovery matches station ids against. */
  function ShortId(sn: int): (r: string)
    ensures 3 <= |r| <= 4
  {
    Upper(Last(PyHex(sn), 4))
  }

  /** `setserial`: a serial of 0 forgets the station; any other derives its hex forms. */
  function SetSerial(s: State, serial: int): (r: State)
    ensures r.sn == serial
    ensures serial == 0 ==> r.mac == "" && r.snhx == "" && r.snshx == NotAvailable && !r.paired && r.status == NotAvailable
    ensures serial != 0 ==> r.snhx == PyHex(serial) && r.snshx == ShortId(serial)
    ensures serial != 0 ==> r.mac == s.mac && r.paired == s.paired && r.status == s.status
    ensures r.(sn := s.sn, mac := s.mac, snhx := s.snhx, snshx := s.snshx, paired := s.paired, status := s.status) == s
  {
    if serial == 0 then
      s.(sn := 0, mac := "", snhx := "", snshx := NotAvailable, paired := false, status := NotAvailable)
    else
      s.(sn := serial, snhx := PyHex(serial), snshx := ShortId(serial))
  }

  /** `setpairing`: the MAC, the protocol version (2, or 1 for anything else), its
      command characteristic, and the "Discovered" status. */
  function SetPairing(s: State, mac: string, version: int): (r: State)
    ensures r.mac == mac && r.version == (if version == 2 then 2 else 1)
    ensures r.cmdBleId == (if version == 2 then CmdBleIdV2 else CmdBleIdV1)
    ensures r.status == "Discovered" && r.discovered && !r.wakeupCmd
    ensures r.(mac := s.mac, version := s.version, cmdBleId := s.cmdBleId, status := s.status,
               discovered := s.discovered, wakeupCmd := s.wakeupCmd) == s
  {
    var v := if version == 2 then 2 else 1;
    SetStatus(s.(mac := mac, version := v, cmdBleId := if v == 2 then CmdBleIdV2 else CmdBleIdV1), "Discovered")
  }

  /** `setlock`. */
  function SetLock(s: State, lock: bool): (r: State)
    ensures r.tlock == lock && !r.islocked
    ensures r.(tlock := s.tlock, islocked := s.islocked) == s
  {
    s.(islocked := false, tlock := lock)
  }

  /** `setaction`: a Standby request only raises the flags (the gate turns it into
      the action); anything else requests a Wakeup that is due at once. */
  function SetAction(s: State, a: string, now: int): (r: State)
    ensures a == "Standby" ==> r.status == "Standby" && r.standby && !r.pingCmd && !r.wakeupCmd && r.action == s.action
    ensures a != "Standby" ==> r.action == "Wakeup" && !r.standby && r.wakeupCmd && r.tLastCmd == now - LoopSleep
    ensures a == "Standby" ==> r == SetStatus(s, "Standby")
    ensures a != "Standby" ==> r.(tLastCmd := s.tLastCmd, action := s.action, standby := s.standby, wakeupCmd := s.wakeupCmd) == s
  {
    if a == "Standby" then SetStatus(s, "Standby").(standby := true)
    else s.(tLastCmd := now - LoopSleep, action := "Wakeup", standby := false, wakeupCmd := true)
  }

  /** `setmode`. */
  function SetMode(s: State, m: string): (r: State)
    ensures r.mode == m && r.(mode := s.mode) == s
  {
    s.(mode := m)
  }

  /** `gettray`: the label and short id, with the status once a serial is known. */
  function GetTray(name: string, s: State): (r: string)
    ensures StartsWith(r, name + " [" + s.snshx) && |r| > 0 && r[|r| - 1] == ']'
    ensures s.snshx != NotAvailable ==> EndsWith(r, ":" + s.status + "]")
    ensures s.snshx == NotAvailable ==> |r| == |name| + |s.snshx| + 3
    ensures s.snshx != NotAvailable ==> |r| == |name| + |s.snshx| + |s.status| + 4
  {
    if s.snshx == NotAvailable then name + " [" + s.snshx + "]"
    else name + " [" + s.snshx + ":" + s.status + "]"
  }

  // ------------------------------------------------------------ the gate

  /** The answers of `bs_pre_loop`: 0 go ahead, 1 skip this round, 9 stop. */
  datatype Gate = Proceed | Skip | Quit

  function GateCode(g: Gate): int {
    match g
    case Proceed => 0
    case Skip => 1
    case Quit => 9
  }

  /** `bs_pre_loop` at time `now`, with the coordinator's quit and discovery flags
      and the headset's connection: the answer and the state after it. */
  function PreLoop(s: State, now: int, quit: bool, disco: bool, hsConnected: bool): (r: (Gate, State))
    ensures r.1.(action := s.action) == s
    ensures r.1.action != s.action ==> r.0 == Proceed && r.1.action == "Standby"
    ensures r.0 == Quit ==> quit && |s.mac| >= 1
    ensures r.0 == Proceed ==> |s.mac| >= 1 && ((s.standby && s.connected) || (!quit && hsConnected && !disco && !s.tlock))
  {
    if |s.mac| < 1 then (Skip, s)
    else if s.standby && s.connected then (Proceed, s.(action := "Standby"))
    else if quit then (Quit, s)
    else if disco || s.tlock || !hsConnected || s.action == "" then (Skip, s)
    else if now - s.tLastCmd <= s.tWaitLoop then (Skip, s)
    else (Proceed, s)
  }

  // ------------------------------------------------------ action resolution

  /** What `bs_pre_action` makes of the pending action: what to execute, the
      action it came from, and the action to move to on success. */
  datatype Resolution = Resolution(exec: string, prev: string, next: string)

  /** The resolution of Pimax_BSAW.py, lines 414-439; `elapsed` is the time since the last
      command and `timeout` the keep-alive timeout. */
  function Resolve(action: string, mode: string, wakeupCmd: bool, pingCmd: bool, elapsed: int, timeout: int): (r: Resolution)
    ensures r.prev == action
    ensures !EndsWith(action, ErrorTag) ==> (r.exec == "" <==> action == "Off" || (action == "" && !wakeupCmd && !pingCmd))
    ensures mode == "Auto" ==> r.next != ""
  {
    var (exec, next) :=
      if EndsWith(action, ErrorTag) then (action[..|action| - |ErrorTag|], action[..|action| - |ErrorTag|])
      else if action == "Standby" then ("Standby", "Off")
      else if action == "Off" then ("", "")
      else if action == "Wakeup" then ("Wakeup", "")
      else if wakeupCmd then ("Wakeup", "")
      else if pingCmd then
        (if !wakeupCmd && (elapsed > timeout - 5 && !pingCmd) then "Wakeup"
         else if pingCmd then "Ping"
         else action, "")
      else (action, "");
    Resolution(exec, action, if mode == "Auto" && next == "" then "Ping" else next)
  }

  function ResolveAt(s: State, now: int, timeout: int): (r: Resolution)
    ensures r.prev == s.action
    ensures s.action == "Standby" ==> r.exec == "Standby" && r.next == "Off"
    ensures s.wakeupCmd && !EndsWith(s.action, ErrorTag) && s.action != "Standby" && s.action != "Off" ==> r.exec == "Wakeup"
  {
    Resolve(s.action, s.mode, s.wakeupCmd, s.pingCmd, now - s.tLastCmd, timeout)
  }

  /** `bs_pre_action` builds a frame without raising: nothing is executed, or the
      executed action's frame can carry the fields it serialises. */
  predicate Encodable(s: State, now: int, timeout: int) {
    var e := ResolveAt(s, now, timeout).exec;
    e == "" || Codec.CanBuild(e, s.version, s.sn, timeout)
  }

  /** `bs_pre_action`: the command frame (empty when nothing is executed), the
      previous action and the next one. */
  function PreAction(s: State, now: int, timeout: int): (r: (seq<byte>, string, string))
    requires Encodable(s, now, timeout)
    ensures r.1 == s.action
  {
    var res := ResolveAt(s, now, timeout);
    if |res.exec| < 1 then ([], res.prev, res.next)
    else (Codec.BuildCommand(res.exec, s.version, s.sn, timeout), res.prev, res.next)
  }

  // ------------------------------------------------------------ outcomes

  /** `connect_bs` (Pimax_BSAW.py, lines 329-341) after a successful write: a finished Standby turns the station
      Off, a finished Wakeup drops the wakeup flag; then the next action is due. */
  function OnWriteOk(s: State, prev: string, next: string, now: int): (r: State)
    ensures r.action == next && r.tLastCmd == now && r.mode == s.mode && r.errque == s.errque
    ensures r.status == (if s.standby && prev == "Standby" then "Off" else prev)
    ensures s.standby && prev == "Standby" ==> !r.standby && r.wakeupCmd == s.wakeupCmd
    ensures !(s.standby && prev == "Standby") ==> !r.wakeupCmd
    ensures r.pingCmd == (if s.standby && prev == "Standby" then s.pingCmd else prev == "Ping" || (s.pingCmd && prev != "Ping-error" && prev != "Standby"))
    ensures r.mac == s.mac && r.sn == s.sn && r.snhx == s.snhx && r.snshx == s.snshx && r.version == s.version
    ensures r.cmdBleId == s.cmdBleId && r.tlock == s.tlock && r.islocked == s.islocked && r.connected == s.connected
    ensures r.paired == s.paired && r.tWaitLoop == s.tWaitLoop && r.disconnects == s.disconnects
    ensures r.discovered == (s.discovered || prev == "Discovered")
  {
    var leaving := s.standby && prev == "Standby";
    var u := if leaving then s.(standby := false) else s.(wakeupCmd := false);
    SetStatus(u, if leaving then "Off" else prev).(action := next, tLastCmd := now)
  }

  /** `connect_bs` (Pimax_BSAW.py, lines 317-319 and 340-341) when there was nothing to send. */
  function OnSkip(s: State, prev: string, next: string, now: int): (r: State)
    ensures r.action == next && r.tLastCmd == now && r.status == prev && r.mode == s.mode && r.errque == s.errque
    ensures r.mac == s.mac && r.sn == s.sn && r.snhx == s.snhx && r.snshx == s.snshx && r.version == s.version
    ensures r.cmdBleId == s.cmdBleId && r.tlock == s.tlock && r.islocked == s.islocked && r.connected == s.connected
    ensures r.paired == s.paired && r.tWaitLoop == s.tWaitLoop && r.disconnects == s.disconnects
  {
    SetStatus(s, prev).(action := next, tLastCmd := now)
  }

  /** `bs_proc_err`: one more error in the window, the untagged action back, the
      tagged status, and the retry wait; a lost link also counts a disconnect. */
  function ProcErr(s: State, linkUp: bool, prev: string, now: int): (r: State)
    ensures r.action == prev && r.status == prev + ErrorTag && r.tLastCmd == now && r.mode == s.mode
    ensures r.errque == ErrorWindow.Logged(s.errque, now)
    ensures r.mac == s.mac && r.sn == s.sn && r.snhx == s.snhx && r.snshx == s.snshx && r.version == s.version
    ensures r.cmdBleId == s.cmdBleId && r.tlock == s.tlock && r.islocked == s.islocked && r.paired == s.paired
  {
    var t := SetStatus(s.(tLastCmd := now, tWaitLoop := LoopRetry, action := prev), prev + ErrorTag);
    var u := t.(errque := ErrorWindow.Logged(t.errque, now));
    if linkUp then u
    else u.(connected := false, tWaitLoop := LoopRetryDisconnect, disconnects := s.disconnects + 1)
  }

  /** What the write of a command frame did. */
  datatype WriteOutcome = WriteOk | WriteFailed(linkUp: bool)

  /** One round of the loop a connected worker runs (Pimax_BSAW.py, lines 299-347): the gate's
      answer, the new state, the action whose frame was written ("" when none
      was), and whether `logmanyerrors` was called. */
  datatype StepResult = StepResult(gate: Gate, st: State, sent: string, failed: bool)

  /** The round branches on the resolved action where the source tests the
      length of the frame; `PreActionCommand` shows the two tests agree. */
  function InnerStep(s: State, now: int, quit: bool, disco: bool, hsConnected: bool,
                     timeout: int, w: WriteOutcome): (r: StepResult)
    ensures r.gate == PreLoop(s, now, quit, disco, hsConnected).0
    ensures r.gate != Proceed ==> r.st == s.(tWaitLoop := LoopSleep) && r.sent == "" && !r.failed
    ensures r.st.mode == s.mode && r.st.mac == s.mac && r.st.sn == s.sn && r.st.version == s.version
  {
    var (g, s1) := PreLoop(s, now, quit, disco, hsConnected);
    var s2 := s1.(tWaitLoop := LoopSleep);
    if g != Proceed then StepResult(g, s2, "", false)
    else Serve(s2, now, timeout, w)
  }

  /** The part of the round after the gate let it through (Pimax_BSAW.py, lines 312-347). */
  function Serve(s: State, now: int, timeout: int, w: WriteOutcome): (r: StepResult)
    ensures r.gate == Proceed && r.st.mode == s.mode && r.st.tLastCmd == now
    ensures r.failed <==> ResolveAt(s, now, timeout).exec != "" && w.WriteFailed?
    ensures r.st.action == if r.failed then s.action else ResolveAt(s, now, timeout).next
    ensures var q := ErrorWindow.PurgeAsWritten(s.errque, now);
      r.st.errque == if r.failed then ErrorWindow.Logged(q, now) else q
    ensures r.st.status ==
      if r.failed then s.action + ErrorTag
      else if ResolveAt(s, now, timeout).exec != "" && s.standby && s.action == "Standby" then "Off"
      else s.action
    ensures !r.failed ==> r.st.connected == s.connected && r.st.disconnects == s.disconnects && r.st.tWaitLoop == s.tWaitLoop
    ensures r.failed ==>
      w.WriteFailed? &&
      r.st.tWaitLoop == (if w.linkUp then LoopRetry else LoopRetryDisconnect) &&
      r.st.disconnects == s.disconnects + (if w.linkUp then 0 else 1) &&
      r.st.connected == (w.linkUp && s.connected)
    ensures r.st.mac == s.mac && r.st.sn == s.sn && r.st.snhx == s.snhx && r.st.snshx == s.snshx && r.st.version == s.version
    ensures r.st.cmdBleId == s.cmdBleId && r.st.paired == s.paired && r.st.tlock == s.tlock && r.st.islocked == s.islocked
  {
    Dispatch(s.(errque := ErrorWindow.PurgeAsWritten(s.errque, now)), ResolveAt(s, now, timeout), now, w)
  }

  /** The served round once the window is purged and the action resolved to `res`:
      the frame skipped, written, or failed with the error handling of `bs_proc_err`. */
  function Dispatch(s: State, res: Resolution, now: int, w: WriteOutcome): (r: StepResult)
    ensures r.gate == Proceed && r.st.mode == s.mode && r.st.tLastCmd == now
    ensures r.failed <==> res.exec != "" && w.WriteFailed?
    ensures r.st.action == if r.failed then res.prev else res.next
    ensures r.st.errque == if r.failed then ErrorWindow.Logged(s.errque, now) else s.errque
    ensures r.st.status ==
      if r.failed then res.prev + ErrorTag
      else if res.exec != "" && s.standby && res.prev == "Standby" then "Off"
      else res.prev
    ensures !r.failed ==> r.st.connected == s.connected && r.st.disconnects == s.disconnects && r.st.tWaitLoop == s.tWaitLoop
    ensures r.failed ==>
      w.WriteFailed? &&
      r.st.tWaitLoop == (if w.linkUp then LoopRetry else LoopRetryDisconnect) &&
      r.st.disconnects == s.disconnects + (if w.linkUp then 0 else 1) &&
      r.st.connected == (w.linkUp && s.connected)
    ensures r.st.mac == s.mac && r.st.sn == s.sn && r.st.snhx == s.snhx && r.st.snshx == s.snshx && r.st.version == s.version
    ensures r.st.cmdBleId == s.cmdBleId && r.st.paired == s.paired && r.st.tlock == s.tlock && r.st.islocked == s.islocked
  {
    if res.exec == "" then StepResult(Proceed, OnSkip(s, res.prev, res.next, now), "", false)
    else match w
      case WriteOk => StepResult(Proceed, OnWriteOk(s, res.prev, res.next, now), res.exec, false)
      case WriteFailed(up) =>
        ProcErrEffect(s, up, res.prev, now);
        StepResult(Proceed, ProcErr(s, up, res.prev, now), res.exec, true)
  }

  /** One round of the outer loop (Pimax_BSAW.py, lines 274-356): the gate, then a connection
      attempt that either links the station or fails like a lost link. */
  function OuterStep(s: State, now: int, quit: bool, disco: bool, hsConnected: bool, linked: bool): (r: StepResult)
    ensures r.gate == PreLoop(s, now, quit, disco, hsConnected).0 && r.sent == ""
    ensures r.failed <==> r.gate == Proceed && !linked
    ensures r.gate == Proceed && linked ==> r.st.connected
    ensures r.failed ==> !r.st.connected && r.st.tWaitLoop == LoopRetryDisconnect && r.st.disconnects == s.disconnects + 1
    ensures !r.failed ==> r.st.errque == s.errque && r.st.disconnects == s.disconnects
  {
    var (g, s1) := PreLoop(s, now, quit, disco, hsConnected);
    if g != Proceed then StepResult(g, s1, "", false)
    else if linked then StepResult(g, s1.(connected := true), "", false)
    else StepResult(g, ProcErr(s1, false, s1.action, now), "", true)
  }

  // =========================================================== properties

  /** A standby request on a connected station wins over every later gate,
      quitting included, whatever the clock says. */
  lemma PreLoopStandbyFirst(s: State, now: int, quit: bool, disco: bool, hsConnected: bool)
    requires s.mac != "" && s.standby && s.connected
    ensures PreLoop(s, now, quit, disco, hsConnected) == (Proceed, s.(action := "Standby"))
  {
  }

  /** When the gate lets a round through, when it stops the worker, and that the
      only change it makes is the forced Standby action. */
  lemma PreLoopGates(s: State, now: int, quit: bool, disco: bool, hsConnected: bool)
    ensures var (g, r) := PreLoop(s, now, quit, disco, hsConnected);
      (g == Proceed <==>
         s.mac != "" && ((s.standby && s.connected) ||
         (!quit && !disco && !s.tlock && hsConnected && s.action != "" && now - s.tLastCmd > s.tWaitLoop))) &&
      (g == Quit <==> s.mac != "" && !(s.standby && s.connected) && quit) &&
      r == (if s.mac != "" && s.standby && s.connected then s.(action := "Standby") else s)
  {
  }

  /** With the headset off and no standby pending, no command is ever sent. */
  lemma HeadsetOffNeverProceeds(s: State, now: int, quit: bool, disco: bool)
    requires !(s.standby && s.connected)
    ensures PreLoop(s, now, quit, disco, false).0 != Proceed
  {
  }

  /** An error-tagged action retries the untagged one and keeps it as the next action. */
  lemma ResolveTagged(action: string, mode: string, w: bool, p: bool, e: int, t: int)
    requires EndsWith(action, ErrorTag)
    ensures var r := Resolve(action, mode, w, p, e, t);
      r.exec == action[..|action| - 6] && r.prev == action &&
      r.next == (if r.exec == "" && mode == "Auto" then "Ping" else r.exec)
  {
  }

  /** Standby executes and moves on to Off; Off sends nothing and, in Auto mode only,
      moves on to Ping. */
  lemma ResolveStandbyOff(mode: string, w: bool, p: bool, e: int, t: int)
    ensures Resolve("Standby", mode, w, p, e, t) == Resolution("Standby", "Standby", "Off")
    ensures Resolve("Off", mode, w, p, e, t) == Resolution("", "Off", if mode == "Auto" then "Ping" else "")
  {
    assert !EndsWith("Standby", ErrorTag) by { assert "Standby"[1..] != ErrorTag; }
    assert !EndsWith("Off", ErrorTag);
  }

  /** A pending Wakeup, or the wakeup flag, executes a Wakeup; the ping flag pings. */
  lemma ResolveWakeupPing(action: string, mode: string, w: bool, p: bool, e: int, t: int)
    requires !EndsWith(action, ErrorTag) && action != "Standby" && action != "Off"
    ensures action == "Wakeup" || w ==> Resolve(action, mode, w, p, e, t).exec == "Wakeup"
    ensures action != "Wakeup" && !w && p ==> Resolve(action, mode, w, p, e, t).exec == "Ping"
    ensures action != "Wakeup" && !w && !p ==> Resolve(action, mode, w, p, e, t).exec == action
    ensures Resolve(action, mode, w, p, e, t).next == (if mode == "Auto" then "Ping" else "")
  {
  }

  /** The keep-alive escalation to Wakeup (Pimax_BSAW.py, lines 432-434) never fires: the
      resolution does not depend on the clock or the timeout at all. */
  lemma ResolveIgnoresClock(action: string, mode: string, w: bool, p: bool, e1: int, t1: int, e2: int, t2: int)
    ensures Resolve(action, mode, w, p, e1, t1) == Resolve(action, mode, w, p, e2, t2)
  {
  }

  /** The command is empty exactly when nothing is executed, and is otherwise the
      frame of the executed action. */
  lemma PreActionCommand(s: State, now: int, timeout: int)
    requires Encodable(s, now, timeout)
    ensures var (cmd, prev, next) := PreAction(s, now, timeout);
      var res := ResolveAt(s, now, timeout);
      prev == res.prev && next == res.next &&
      (|cmd| == 0 <==> res.exec == "") &&
      (res.exec != "" ==> cmd == Codec.BuildCommand(res.exec, s.version, s.sn, timeout))
  {
  }

  /** `bs_proc_err` counts a disconnect exactly when the link is down, sets the wait
      to 3 or 7 seconds accordingly, records one error, and leaves the mode, the
      pairing and the standby request alone. */
  lemma ProcErrEffect(s: State, linkUp: bool, prev: string, now: int)
    ensures var r := ProcErr(s, linkUp, prev, now);
      r.errque == ErrorWindow.Logged(s.errque, now) &&
      r.tWaitLoop == (if linkUp then LoopRetry else LoopRetryDisconnect) &&
      r.connected == (linkUp && s.connected) &&
      r.disconnects == s.disconnects + (if linkUp then 0 else 1) &&
      r.standby == s.standby && r.mode == s.mode && r.mac == s.mac && r.sn == s.sn &&
      r.version == s.version && r.discovered == s.discovered &&
      r.pingCmd == (s.pingCmd && prev != "Ping") && r.wakeupCmd == (s.wakeupCmd && prev != "Wakeup")
  {
    TaggedStatus(prev);
  }

  /** `bs_proc_err` changes nothing beyond the error bookkeeping, the tagged status
      and the flags that status clears; a lost link differs from a live one only in
      the link state, the wait and the disconnect count. */
  lemma ProcErrFrame(s: State, linkUp: bool, prev: string, now: int)
    ensures var r := ProcErr(s, linkUp, prev, now);
      r.(errque := s.errque, tWaitLoop := s.tWaitLoop, connected := s.connected, disconnects := s.disconnects,
         pingCmd := s.pingCmd, wakeupCmd := s.wakeupCmd, status := s.status, action := s.action,
         tLastCmd := s.tLastCmd) == s
    ensures ProcErr(s, false, prev, now) ==
      ProcErr(s, true, prev, now).(connected := false, tWaitLoop := LoopRetryDisconnect, disconnects := s.disconnects + 1)
  {
    TaggedStatus(prev);
    ProcErrEffect(s, linkUp, prev, now);
  }

  /** A tagged status is none of the statuses that raise a flag. */
  lemma TaggedStatus(prev: string)
    ensures var st := prev + ErrorTag;
      st != "Standby" && st != "Discovered" && st != "Ping" &&
      (st == "Ping-error" <==> prev == "Ping") && (st == "Wakeup-error" <==> prev == "Wakeup")
  {
    var st := prev + ErrorTag;
    assert |st| >= 6 && st[|st| - 1] == 'r';
    if st == "Ping-error" { assert prev == st[..|st| - 6]; }
    if st == "Wakeup-error" { assert prev == st[..|st| - 6]; }
  }

  // ---------------------------------------------------- the reachable actions

  /** The actions a worker can hold: the constructor's, the coordinator's requests,
      the gate's Standby and the resolutions' next actions. */
  predicate KnownAction(a: string) {
    a == "Wakeup" || a == "Ping" || a == "Standby" || a == "Off" || a == ""
  }

  predicate KnownMode(m: string) {
    m == "Auto" || m == "Idle"
  }

  predicate Reachable(s: State) {
    KnownAction(s.action) && KnownMode(s.mode)
  }

  /** No action a worker can hold carries the error tag, so the "-error" branch of
      the resolution is dead code. */
  lemma KnownActionUntagged(a: string)
    requires KnownAction(a)
    ensures !EndsWith(a, ErrorTag)
  {
    if a == "Wakeup" { assert a[0] != ErrorTag[0]; }
    if a == "Standby" { assert a[1] != ErrorTag[0]; }
  }

  lemma ResolveKnown(action: string, mode: string, w: bool, p: bool, e: int, t: int)
    requires KnownAction(action)
    ensures KnownAction(Resolve(action, mode, w, p, e, t).next)
  {
    KnownActionUntagged(action);
  }

  lemma InitialReachable(now: int)
    ensures Reachable(Initial(now))
  {
  }

  lemma SetActionReachable(s: State, a: string, now: int)
    requires Reachable(s)
    ensures Reachable(SetAction(s, a, now))
  {
  }

  lemma InnerStepReachable(s: State, now: int, quit: bool, disco: bool, hs: bool, timeout: int, w: WriteOutcome)
    requires Reachable(s)
    ensures Reachable(InnerStep(s, now, quit, disco, hs, timeout, w).st)
  {
    var (g, s1) := PreLoop(s, now, quit, disco, hs);
    var s2 := s1.(tWaitLoop := LoopSleep);
    assert Reachable(s2);
    if g == Proceed {
      ServeReachable(s2, now, timeout, w);
    }
  }

  lemma ServeReachable(s: State, now: int, timeout: int, w: WriteOutcome)
    requires Reachable(s)
    ensures Reachable(Serve(s, now, timeout, w).st)
  {
    ResolveKnown(s.action, s.mode, s.wakeupCmd, s.pingCmd, now - s.tLastCmd, timeout);
  }

  lemma OuterStepReachable(s: State, now: int, quit: bool, disco: bool, hs: bool, linked: bool)
    requires Reachable(s)
    ensures Reachable(OuterStep(s, now, quit, disco, hs, linked).st)
  {
  }

  // -------------------------------------------------------------- scenarios

  /** A requested standby on a connected station: the Standby frame goes out, the
      station is Off, the request is cleared and the next action is Off. */
  lemma StandbyCompletes(s: State, now: int, quit: bool, disco: bool, hs: bool, timeout: int)
    requires s.mac != "" && s.standby && s.connected
    ensures var r := InnerStep(s, now, quit, disco, hs, timeout, WriteOk);
      r.gate == Proceed && r.sent == "Standby" &&
      r.st.status == "Off" && !r.st.standby && r.st.action == "Off" && r.st.tLastCmd == now
  {
    var s2 := s.(action := "Standby", tWaitLoop := LoopSleep);
    assert PreLoop(s, now, quit, disco, hs) == (Proceed, s.(action := "Standby"));
    ResolveStandbyOff(s2.mode, s2.wakeupCmd, s2.pingCmd, now - s2.tLastCmd, timeout);
    var s3 := s2.(errque := ErrorWindow.PurgeAsWritten(s2.errque, now));
    assert Serve(s2, now, timeout, WriteOk) == StepResult(Proceed, OnWriteOk(s3, "Standby", "Off", now), "Standby", false);
  }

  /** A Wakeup request is due at once: at any later second, with every gate open,
      the next round sends the Wakeup frame, reports "Wakeup", drops the flag and
      moves on to Ping in Auto mode. */
  lemma WakeupRequestServed(s: State, t: int, now: int, timeout: int)
    requires s.mac != "" && !s.tlock && s.tWaitLoop <= LoopSleep && t < now
    ensures var r := InnerStep(SetAction(s, "Wakeup", t), now, false, false, true, timeout, WriteOk);
      r.gate == Proceed && r.sent == "Wakeup" &&
      r.st.status == "Wakeup" && !r.st.wakeupCmd && r.st.action == (if s.mode == "Auto" then "Ping" else "")
  {
    var a := SetAction(s, "Wakeup", t);
    assert !EndsWith("Wakeup", ErrorTag) by { assert "Wakeup"[0] != ErrorTag[0]; }
    ResolveWakeupPing("Wakeup", a.mode, a.wakeupCmd, a.pingCmd, now - a.tLastCmd, timeout);
  }

  /** A failed write on a link that dropped: one disconnect more, the longer retry
      wait, and the failing action kept for the next round. */
  lemma LostLinkCounted(s: State, now: int, timeout: int)
    requires s.mac != "" && !s.standby && !s.tlock && s.action == "Ping" && now - s.tLastCmd > s.tWaitLoop
    ensures var r := InnerStep(s, now, false, false, true, timeout, WriteFailed(false));
      r.gate == Proceed && r.failed && !r.st.connected && r.st.disconnects == s.disconnects + 1 &&
      r.st.tWaitLoop == LoopRetryDisconnect && r.st.action == "Ping" && r.st.status == "Ping-error" && !r.st.pingCmd
  {
    var s2 := s.(tWaitLoop := LoopSleep);
    assert PreLoop(s, now, false, false, true) == (Proceed, s);
    assert !EndsWith("Ping", ErrorTag);
    ResolveWakeupPing("Ping", s2.mode, s2.wakeupCmd, s2.pingCmd, now - s2.tLastCmd, timeout);
    var s3 := s2.(errque := ErrorWindow.PurgeAsWritten(s2.errque, now));
    assert Serve(s2, now, timeout, WriteFailed(false)).st == ProcErr(s3, false, "Ping", now);
    ProcErrEffect(s3, false, "Ping", now);
  }

  // --------------------------------------------------------- serial numbers

  /** Every character `hex()` can write. */
  predicate PyHexChar(c: char) {
    IsLowerHexDigit(c) || c == 'x' || c == '-'
  }

  lemma PyHexChars(n: int)
    ensures forall i :: 0 <= i < |PyHex(n)| ==> PyHexChar(PyHex(n)[i])
  {
    var h := NatToHex(if n < 0 then -n else n, false);
    assert forall i :: 0 <= i < |h| ==> IsLowerHexDigit(h[i]);
  }

  /** A non-zero serial never looks like the unpaired placeholder. */
  lemma ShortIdNotPlaceholder(sn: int)
    ensures ShortId(sn) != NotAvailable
  {
    var l := Last(PyHex(sn), 4);
    var u := ShortId(sn);
    LastPyHexChars(sn);
    assert PyHexChar(l[1]);
    assert u[1] == UpperChar(l[1]) && u[1] != '/';
    assert NotAvailable[1] == '/';
  }

  /** The last four characters of `hex(sn)` are hex digits, 'x' or '-'. */
  lemma LastPyHexChars(sn: int)
    ensures |Last(PyHex(sn), 4)| >= 3
    ensures forall i :: 0 <= i < |Last(PyHex(sn), 4)| ==> PyHexChar(Last(PyHex(sn), 4)[i])
  {
    var p := PyHex(sn);
    PyHexChars(sn);
    var l := Last(p, 4);
    var j := if |p| <= 4 then 0 else |p| - 4;
    assert l == p[j..];
    forall i | 0 <= i < |l| ensures PyHexChar(l[i]) {
      assert l[i] == p[j + i];
    }
  }

  /** For a serial of at least four hex digits the short id is its last four,
      in upper case: it denotes the serial modulo 0x10000. */
  lemma ShortIdDigits(sn: int)
    requires sn >= 0x1000
    ensures |ShortId(sn)| == 4 && AllHex(ShortId(sn))
    ensures forall i :: 0 <= i < 4 ==> !('a' <= ShortId(sn)[i] <= 'z')
    ensures HexValue(ShortId(sn)) == sn % 0x1_0000
  {
    LastOfPyHex(sn);
    var l := Last(PyHex(sn), 4);
    NatToHexLowDigits(sn, 4, false);
    Pow16Small();
    UpperHexValue(l);
    UpperNoLower(l);
  }

  lemma UpperNoLower(s: string)
    ensures forall i :: 0 <= i < |s| ==> !('a' <= Upper(s)[i] <= 'z')
  {
  }

  /** `hex(sn)[-4:]` for a serial of at least four digits: its last four digits. */
  lemma LastOfPyHex(sn: int)
    requires sn >= 0x1000
    ensures 4 <= |NatToHex(sn, false)|
    ensures Last(PyHex(sn), 4) == NatToHex(sn, false)[|NatToHex(sn, false)| - 4..]
  {
    var h := NatToHex(sn, false);
    assert 4 <= |h| by {
      Pow16Small();
      NatToHexLengthAtLeast(sn, 4, false);
    }
    assert PyHex(sn) == "0x" + h;
    SuffixOfConcat("0x", h, 4);
  }

  lemma SuffixOfConcat(a: string, h: string, n: nat)
    requires n <= |h|
    ensures Last(a + h, n) == h[|h| - n..]
  {
    var p := a + h;
    assert p[|p| - n..] == h[|h| - n..];
  }

  /** A serial of 0 forgets the station: no MAC, the placeholder id and status. */
  lemma SetSerialForgets(s: State, serial: int)
    ensures (SetSerial(s, serial).snshx == NotAvailable) <==> serial == 0
  {
    if serial != 0 {
      ShortIdNotPlaceholder(serial);
    }
  }

  /** Pairing twice is pairing with the second answer. */
  lemma SetPairingLastWins(s: State, m1: string, v1: int, m2: string, v2: int)
    ensures SetPairing(SetPairing(s, m1, v1), m2, v2) == SetPairing(s, m2, v2)
  {
  }

  /** Setting the same status twice is setting it once. */
  lemma SetStatusIdempotent(s: State, st: string)
    ensures SetStatus(SetStatus(s, st), st) == SetStatus(s, st)
  {
  }
}
