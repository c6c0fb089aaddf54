/**
 * The workers as objects: a `BaseStation` per lighthouse, the `HeadSet` and the
 * coordinator `MainObj` they report to.  Every method changes the attributes
 * the source changes, and states its new state through the functions of
 * `StationLogic`, `ErrorWindow`, `Coordinator` and `Discovery`, whose
 * properties are proved there.
 */
module Controller {
  import opened Wrappers
  import opened Bytes
  import opened Events
  import Hex
  import Text
  import Codec
  import StationLogic
  import ErrorWindow
  import Coordinator
  import Discovery

  class BaseStation {
    /** The worker's label ("BS1", "BS2") and its keep-alive timeout. */
    const name: string
    const timeout: int
    /** The worker's attributes, updated in place by its methods. */
    var st: StationLogic.State

    constructor(name: string, timeout: int, now: int)
      ensures this.name == name && this.timeout == timeout
      ensures st == StationLogic.Initial(now)
    {
      this.name := name;
      this.timeout := timeout;
      st := StationLogic.State(
        status := StationLogic.NotAvailable, action := "Wakeup", mode := "Auto",
        mac := "", sn := 0, snhx := "", snshx := StationLogic.NotAvailable,
        version := 1, cmdBleId := StationLogic.CmdBleIdV1,
        tlock := true, islocked := false,
        pingCmd := false, wakeupCmd := false, standby := false,
        discovered := false, connected := false, paired := false,
        errque := [], tWaitLoop := 1, tLastCmd := now, disconnects := 0);
    }

    method SetStatus(status: string)
      modifies this
      ensures st == StationLogic.SetStatus(old(st), status)
    {
      if status == "Discovered" {
        st := st.(wakeupCmd := false, discovered := true);
      } else if status == "Wakeup-error" {
        st := st.(wakeupCmd := false);
      } else if status == "Ping-error" {
        st := st.(pingCmd := false);
      } else if status == "Ping" {
        st := st.(pingCmd := true);
      } else if status == "Standby" {
        st := st.(standby := true, pingCmd := false, wakeupCmd := false);
      }
      st := st.(status := status);
    }

    method SetSerial(serial: int)
      modifies this
      ensures st == StationLogic.SetSerial(old(st), serial)
    {
      st := st.(sn := serial);
      if serial == 0 {
        st := st.(mac := "", snhx := "", snshx := StationLogic.NotAvailable, paired := false,
                  status := StationLogic.NotAvailable);
      } else {
        st := st.(snhx := Hex.PyHex(serial), snshx := StationLogic.ShortId(serial));
      }
    }

    method SetPairing(mac: string, version: int)
      modifies this
      ensures st == StationLogic.SetPairing(old(st), mac, version)
    {
      st := st.(mac := mac);
      if version == 2 {
        st := st.(cmdBleId := StationLogic.CmdBleIdV2, version := 2);
      } else {
        st := st.(cmdBleId := StationLogic.CmdBleIdV1, version := 1);
      }
      SetStatus("Discovered");
    }

    method SetLock(lock: bool)
      modifies this
      ensures st == StationLogic.SetLock(old(st), lock)
    {
      st := st.(islocked := false, tlock := lock);
    }

    method SetAction(action: string, now: int)
      modifies this
      ensures st == StationLogic.SetAction(old(st), action, now)
    {
      if action == "Standby" {
        SetStatus("Standby");
        st := st.(standby := true);
      } else {
        st := st.(tLastCmd := now - StationLogic.LoopSleep, action := "Wakeup", standby := false, wakeupCmd := true);
      }
    }

    method SetMode(mode: string)
      modifies this
      ensures st == StationLogic.SetMode(old(st), mode)
    {
      st := st.(mode := mode);
    }

    function GetTray(): (r: string)
      reads this
      ensures r == StationLogic.GetTray(name, st)
      ensures Text.StartsWith(r, name + " [" + st.snshx) && |r| > 0 && r[|r| - 1] == ']'
      ensures st.snshx != StationLogic.NotAvailable ==> Text.EndsWith(r, ":" + st.status + "]")
      ensures st.snshx == StationLogic.NotAvailable ==> |r| == |name| + |st.snshx| + 3
      ensures st.snshx != StationLogic.NotAvailable ==> |r| == |name| + |st.snshx| + |st.status| + 4
    {
      StationLogic.GetTray(name, st)
    }

    /** `bs_pre_loop`: the gate's code (0, 1 or 9) and the forced Standby. */
    method PreLoop(now: int, quit: bool, disco: bool, hsConnected: bool) returns (code: int)
      modifies this
      ensures var (g, s) := StationLogic.PreLoop(old(st), now, quit, disco, hsConnected);
        code == StationLogic.GateCode(g) && st == s
    {
      if |st.mac| < 1 {
        return 1;
      }
      if st.standby && st.connected {
        st := st.(action := "Standby");
        return 0;
      }
      if quit {
        return 9;
      }
      if disco || st.tlock || !hsConnected || st.action == "" {
        return 1;
      }
      if now - st.tLastCmd <= st.tWaitLoop {
        return 1;
      }
      return 0;
    }

    /** `bs_pre_action`: the frame to write (empty when there is nothing to execute),
        the action it serves and the action to move to; it changes nothing. */
    method PreAction(now: int) returns (cmd: seq<byte>, prev: string, next: string)
      requires StationLogic.Encodable(st, now, timeout)
      ensures (cmd, prev, next) == StationLogic.PreAction(st, now, timeout)
      ensures prev == st.action && (|cmd| == 0 <==> StationLogic.ResolveAt(st, now, timeout).exec == "")
    {
      StationLogic.PreActionCommand(st, now, timeout);
      var res := StationLogic.ResolveAt(st, now, timeout);
      prev := res.prev;
      next := res.next;
      if |res.exec| < 1 {
        cmd := [];
      } else {
        cmd := Codec.BuildCommand(res.exec, st.version, st.sn, timeout);
      }
    }

    /** `purgeerrque` (Pimax_BSAW.py, lines 493-498): the list iterator walks the queue
        by position while stale entries are removed from under it, so the entry
        after each removed one is skipped (see `ErrorWindow.PurgeFrom`). */
    method PurgeErrQue(now: int)
      modifies this
      ensures st == old(st).(errque := ErrorWindow.PurgeAsWritten(old(st.errque), now))
    {
      var l := st.errque;
      var i := 0;
      while i < |l|
        invariant ErrorWindow.PurgeFrom(l, i, now) == ErrorWindow.PurgeAsWritten(old(st.errque), now)
        decreases |l| - i
      {
        if ErrorWindow.Stale(l[i], now) {
          l := ErrorWindow.RemoveFirst(l, l[i]);
        }
        i := i + 1;
      }
      st := st.(errque := l);
    }

    /** `logmanyerrors` at `now`: records the error, and at the threshold clears the
        window and, once per run of the program, notifies the user. */
    method LogManyErrors(now: int, main: MainObj)
      modifies this, main`toomanynoted, main`notices
      ensures st == old(st).(errque := ErrorWindow.Logged(old(st.errque), now))
      ensures main.toomanynoted == ErrorWindow.Noted(old(st.errque), old(main.toomanynoted))
      ensures main.notices == old(main.notices) +
        (if ErrorWindow.Toasts(old(st.errque), old(main.toomanynoted)) then [TooManyErrors(name)] else [])
    {
      st := st.(errque := st.errque + [now]);
      if |st.errque| >= ErrorWindow.TooManyCount {
        if !main.toomanynoted {
          main.notices := main.notices + [TooManyErrors(name)];
          main.toomanynoted := true;
        }
        st := st.(errque := []);
      }
    }

    /** `bs_proc_err`: the failure of the action `prev` at `now`, with the link up or lost. */
    method ProcErr(linkUp: bool, prev: string, now: int, main: MainObj)
      modifies this, main`toomanynoted, main`notices
      ensures st == StationLogic.ProcErr(old(st), linkUp, prev, now)
      ensures main.toomanynoted == ErrorWindow.Noted(old(st.errque), old(main.toomanynoted))
      ensures main.notices == old(main.notices) +
        (if ErrorWindow.Toasts(old(st.errque), old(main.toomanynoted)) then [TooManyErrors(name)] else [])
    {
      st := st.(tLastCmd := now, tWaitLoop := StationLogic.LoopRetry, action := prev);
      SetStatus(prev + StationLogic.ErrorTag);
      LogManyErrors(now, main);
      if !linkUp {
        st := st.(connected := false, tWaitLoop := StationLogic.LoopRetryDisconnect, disconnects := st.disconnects + 1);
      }
    }

    /** `connect_bs` (Pimax_BSAW.py, lines 329-341) after the frame of `prev` was written. */
    method AfterWrite(prev: string, next: string, now: int)
      modifies this
      ensures st == StationLogic.OnWriteOk(old(st), prev, next, now)
    {
      if st.standby && prev == "Standby" {
        st := st.(standby := false);
        SetStatus("Off");
      } else if st.wakeupCmd {
        st := st.(wakeupCmd := false);
        SetStatus(prev);
      } else {
        SetStatus(prev);
      }
      st := st.(action := next, tLastCmd := now);
    }

    /** `connect_bs` (Pimax_BSAW.py, lines 317-319 and 340-341) when there is no frame to write. */
    method AfterSkip(prev: string, next: string, now: int)
      modifies this
      ensures st == StationLogic.OnSkip(old(st), prev, next, now)
    {
      SetStatus(prev);
      st := st.(action := next, tLastCmd := now);
    }

    /** The part of a round after the gate let it through: the frame of the
        pending action written with outcome `w`, or skipped when empty; the action
        whose frame was written. */
    method Serve(now: int, w: StationLogic.WriteOutcome, main: MainObj) returns (sent: string)
      requires StationLogic.Encodable(st, now, timeout)
      modifies this, main`toomanynoted, main`notices
      ensures var r := StationLogic.Serve(old(st), now, timeout, w);
        st == r.st && sent == r.sent
      ensures var r := StationLogic.Serve(old(st), now, timeout, w);
        var q := ErrorWindow.PurgeAsWritten(old(st.errque), now);
        main.toomanynoted == (if r.failed then ErrorWindow.Noted(q, old(main.toomanynoted)) else old(main.toomanynoted)) &&
        main.notices == old(main.notices) +
          (if r.failed && ErrorWindow.Toasts(q, old(main.toomanynoted)) then [TooManyErrors(name)] else [])
    {
      var res := StationLogic.ResolveAt(st, now, timeout);
      var cmd, prev, next := PreAction(now);
      PurgeErrQue(now);
      sent := "";
      if |cmd| < 1 {
        AfterSkip(prev, next, now);
      } else {
        sent := res.exec;
        match w
        case WriteOk =>
          AfterWrite(prev, next, now);
        case WriteFailed(up) =>
          ProcErr(up, prev, now, main);
      }
    }

    /** One round of the connected loop (Pimax_BSAW.py, lines 299-347): the gate's code and the
        action whose frame was written. */
    method InnerRound(now: int, quit: bool, disco: bool, hsConnected: bool, w: StationLogic.WriteOutcome, main: MainObj)
      returns (code: int, sent: string)
      requires var (g, s) := StationLogic.PreLoop(st, now, quit, disco, hsConnected);
        g == StationLogic.Proceed ==> StationLogic.Encodable(s, now, timeout)
      modifies this, main`toomanynoted, main`notices
      ensures var r := StationLogic.InnerStep(old(st), now, quit, disco, hsConnected, timeout, w);
        st == r.st && code == StationLogic.GateCode(r.gate) && sent == r.sent
      ensures var r := StationLogic.InnerStep(old(st), now, quit, disco, hsConnected, timeout, w);
        var q := ErrorWindow.PurgeAsWritten(old(st.errque), now);
        main.toomanynoted == (if r.failed then ErrorWindow.Noted(q, old(main.toomanynoted)) else old(main.toomanynoted)) &&
        main.notices == old(main.notices) +
          (if r.failed && ErrorWindow.Toasts(q, old(main.toomanynoted)) then [TooManyErrors(name)] else [])
    {
      ghost var r := StationLogic.InnerStep(old(st), now, quit, disco, hsConnected, timeout, w);
      code := PreLoop(now, quit, disco, hsConnected);
      st := st.(tWaitLoop := StationLogic.LoopSleep);
      if code != 0 {
        assert r == StationLogic.StepResult(r.gate, st, "", false);
        return code, "";
      }
      assert r == StationLogic.Serve(st, now, timeout, w);
      sent := Serve(now, w, main);
    }

    /** One round of the outer loop: the gate, then a connection attempt that links
        the station or fails like a lost link. */
    method OuterRound(now: int, quit: bool, disco: bool, hsConnected: bool, linked: bool, main: MainObj)
      returns (code: int)
      modifies this, main`toomanynoted, main`notices
      ensures var r := StationLogic.OuterStep(old(st), now, quit, disco, hsConnected, linked);
        st == r.st && code == StationLogic.GateCode(r.gate)
      ensures var r := StationLogic.OuterStep(old(st), now, quit, disco, hsConnected, linked);
        main.toomanynoted == (if r.failed then ErrorWindow.Noted(old(st.errque), old(main.toomanynoted)) else old(main.toomanynoted)) &&
        main.notices == old(main.notices) +
          (if r.failed && ErrorWindow.Toasts(old(st.errque), old(main.toomanynoted)) then [TooManyErrors(name)] else [])
    {
      ghost var pre := StationLogic.PreLoop(old(st), now, quit, disco, hsConnected);
      ghost var r := StationLogic.OuterStep(old(st), now, quit, disco, hsConnected, linked);
      code := PreLoop(now, quit, disco, hsConnected);
      assert st == pre.1 && st.errque == old(st.errque);
      if code != 0 {
        assert pre.0 != StationLogic.Proceed && !r.failed;
        return;
      }
      assert pre.0 == StationLogic.Proceed && r.failed == !linked;
      if linked {
        st := st.(connected := true);
      } else {
        ghost var s1 := st;
        ProcErr(false, st.action, now, main);
        assert st == StationLogic.ProcErr(s1, false, s1.action, now);
      }
    }
  }

  class HeadSet {
    const name: string
    var status: string
    var tlock: bool
    var islocked: bool
    var connected: bool

    constructor(name: string)
      ensures this.name == name && status == Coordinator.InitialHeadsetStatus
      ensures !tlock && !islocked && !connected
    {
      this.name := name;
      status := Coordinator.InitialHeadsetStatus;
      tlock := false;
      islocked := false;
      connected := false;
    }

    /** `HeadSet.setstatus`: records the status and its connected flag, and on a
        change wakes both stations or puts them to standby. */
    method SetStatus(st: string, main: MainObj, now: int)
      requires main.bs1 != main.bs2
      modifies this, main.bs1, main.bs2
      ensures status == st && connected == Coordinator.HeadsetConnected(old(connected), st)
      ensures tlock == old(tlock) && islocked == old(islocked)
      ensures var r := Coordinator.HeadsetReaction(old(status), st);
        (r == Coordinator.NoReaction ==> unchanged(main.bs1, main.bs2)) &&
        (r == Coordinator.WakeBoth ==>
          main.bs1.st == StationLogic.SetAction(old(main.bs1.st), "Wakeup", now) &&
          main.bs2.st == StationLogic.SetAction(old(main.bs2.st), "Wakeup", now)) &&
        (r == Coordinator.StandbyBoth ==>
          main.bs1.st == StationLogic.SetAction(old(main.bs1.st), "Standby", now) &&
          main.bs2.st == StationLogic.SetAction(old(main.bs2.st), "Standby", now))
    {
      if st == "On" {
        connected := true;
      } else if st == "Off" {
        connected := false;
      } else if st == "DEBUG" {
        connected := true;
      }
      if status != st {
        if st == "On" {
          main.SetWakeup(now);
        } else if st == "Off" {
          if status != Coordinator.InitialHeadsetStatus {
            main.SetStandby(now);
          }
        } else if st == "DEBUG" {
          main.SetWakeup(now);
        }
      }
      status := st;
    }

    method SetLock(lock: bool)
      modifies this
      ensures tlock == lock && !islocked && status == old(status) && connected == old(connected)
    {
      islocked := false;
      tlock := lock;
    }

    function GetTray(): (r: string)
      reads this
      ensures Text.StartsWith(r, name + " [") && Text.EndsWith(r, status + "]")
      ensures |r| == |name| + |status| + 3
    {
      name + " [" + status + "]"
    }
  }

  /** Helper for the early return of `MainObj.ScanUntilFound`: regrouping a concatenation. */
  lemma Regroup<T>(a: seq<T>, b: seq<T>, c: seq<T>, d: seq<T>)
    ensures (a + (b + c)) + d == a + (b + (c + d))
  {
  }

  class MainObj {
    var toomanynoted: bool
    var quitMain: bool
    var disco: bool
    var mode: string
    /** `bs_timeout_in_sec`. */
    var timeout: int
    var stations: seq<Discovery.Beacon>
    /** The notices shown so far, in order. */
    var notices: seq<Notice>
    const bs1: BaseStation
    const bs2: BaseStation

    constructor(bs1: BaseStation, bs2: BaseStation)
      requires bs1 != bs2
      ensures this.bs1 == bs1 && this.bs2 == bs2
      ensures !toomanynoted && !quitMain && disco && mode == "Auto" && timeout == Coordinator.DefaultTimeout
      ensures stations == [] && notices == []
    {
      this.bs1 := bs1;
      this.bs2 := bs2;
      toomanynoted := false;
      quitMain := false;
      disco := true;
      mode := "Auto";
      timeout := Coordinator.DefaultTimeout;
      stations := [];
      notices := [];
    }

    /** The timeout part of `load_configuration`: `conf` is the configured value, or
        None when the configuration could not be read, which stops the program. */
    method LoadConfiguration(conf: Option<int>)
      modifies this
      ensures conf.Some? ==>
        timeout == Coordinator.ConfiguredTimeout(conf.value, old(timeout)) &&
        quitMain == old(quitMain) && notices == old(notices)
      ensures conf.None? ==>
        timeout == old(timeout) && quitMain &&
        notices == old(notices) + (if old(quitMain) then [] else [ConfigUnreadable])
      ensures toomanynoted == old(toomanynoted) && disco == old(disco) && mode == old(mode) && stations == old(stations)
    {
      match conf
      case Some(t) =>
        timeout := Coordinator.ConfiguredTimeout(t, timeout);
      case None =>
        if !quitMain {
          notices := notices + [ConfigUnreadable];
          quitMain := true;
        }
    }

    method SetStandby(now: int)
      requires bs1 != bs2
      modifies bs1, bs2
      ensures bs1.st == StationLogic.SetAction(old(bs1.st), "Standby", now)
      ensures bs2.st == StationLogic.SetAction(old(bs2.st), "Standby", now)
    {
      bs1.SetAction("Standby", now);
      bs2.SetAction("Standby", now);
    }

    method SetWakeup(now: int)
      requires bs1 != bs2
      modifies bs1, bs2
      ensures bs1.st == StationLogic.SetAction(old(bs1.st), "Wakeup", now)
      ensures bs2.st == StationLogic.SetAction(old(bs2.st), "Wakeup", now)
    {
      bs1.SetAction("Wakeup", now);
      bs2.SetAction("Wakeup", now);
    }

    /** `setmode`: toggles the mode and hands it to both stations. */
    method SetMode()
      requires bs1 != bs2
      modifies this, bs1, bs2
      ensures mode == Coordinator.ToggleMode(old(mode))
      ensures bs1.st == StationLogic.SetMode(old(bs1.st), mode)
      ensures bs2.st == StationLogic.SetMode(old(bs2.st), mode)
      ensures unchanged(this`toomanynoted, this`quitMain, this`disco, this`timeout, this`stations, this`notices)
    {
      var m := if mode == "Auto" then "Idle" else "Auto";
      mode := m;
      bs1.SetMode(m);
      bs2.SetMode(m);
      mode := m;
    }

    /** `basescan` over the adverts one scan returned; whether it stopped on an
        advert it could not read, which is notified. */
    method BaseScan(devices: seq<string>) returns (failed: bool)
      modifies this`stations, this`notices
      ensures (stations, failed) == Discovery.ScanAllAsWritten(old(stations), devices)
      ensures notices == old(notices) + (if failed then [ScanFailed] else [])
    {
      failed := false;
      var i := 0;
      while i < |devices|
        invariant 0 <= i <= |devices|
        invariant Discovery.ScanAllAsWritten(stations, devices[i..]) == Discovery.ScanAllAsWritten(old(stations), devices)
        invariant notices == old(notices)
      {
        assert devices[i..][1..] == devices[i + 1..];
        var advert := Discovery.ParseAdvert(devices[i]);
        if advert.Malformed? {
          failed := true;
          notices := notices + [ScanFailed];
          return;
        } else if advert.Found? {
          stations := Discovery.AddAsWritten(stations, advert.b);
        }
        i := i + 1;
      }
    }

    /** The first part of `bs_discovery`: both stations locked and their serials
        reset, then set from the store; the number of serials found. */
    method PrepareStations(store: Discovery.Store) returns (paired: nat)
      requires bs1 != bs2
      modifies this`disco, this`stations, this`notices, bs1, bs2
      ensures paired == Discovery.PairedCount(store)
      ensures bs1.st == Discovery.Prepared(old(bs1.st), Discovery.Serial1(store))
      ensures bs2.st == Discovery.Prepared(old(bs2.st), Discovery.Serial2(store))
      ensures disco && stations == [] && notices == old(notices) + Discovery.StoreNotices(store)
    {
      disco := true;
      stations := [];
      bs1.SetLock(true);
      bs2.SetLock(true);
      bs1.SetSerial(0);
      bs2.SetSerial(0);
      paired := 0;
      if store.StoreRead? {
        if store.serial1.Some? {
          bs1.SetSerial(store.serial1.value);
          paired := paired + 1;
        }
        if store.serial2.Some? {
          bs2.SetSerial(store.serial2.value);
          paired := paired + 1;
        }
      }
      notices := notices + Discovery.StoreNotices(store);
    }

    /** The scan loop of `bs_discovery` (Pimax_BSAW.py, lines 1545-1556): scans until
        `paired` entries are listed, a duplicate entry counting as one, and after
        the twentieth scan notifies that not all were found; the number of scans. */
    method ScanUntilFound(paired: nat, scans: seq<seq<string>>) returns (retries: nat)
      modifies this`stations, this`notices
      ensures var r := Discovery.SearchAsWritten(old(stations), paired, scans, 0);
        stations == r.stations && retries == r.retries && notices == old(notices) + r.notices
    {
      retries := 0;
      ghost var emitted: seq<Notice> := [];
      ghost var goal := Discovery.SearchAsWritten(stations, paired, scans, 0);
      Discovery.AfterNothing(goal);
      while |stations| < paired
        invariant 0 <= retries < 20
        invariant goal == Discovery.After(emitted, Discovery.SearchBy(Discovery.AsWritten, stations, paired, scans, retries))
        invariant notices == old(notices) + emitted
        decreases 20 - retries
      {
        ghost var before := stations;
        var failed := BaseScan(Discovery.ScanAt(scans, retries));
        ghost var ns: seq<Notice> := if failed then [ScanFailed] else [];
        assert notices == old(notices) + (emitted + ns);
        if retries + 1 > 19 {
          Discovery.SearchLastAfter(Discovery.AsWritten, goal, emitted, before, stations, failed, paired, scans);
          var tail: seq<Notice> := [NotAllFound(|stations|, paired)];
          retries := retries + 1;
          Regroup(old(notices), emitted, ns, tail);
          notices := notices + tail;
          return;
        }
        Discovery.SearchStepAfter(Discovery.AsWritten, goal, emitted, before, stations, failed, paired, scans, retries);
        retries := retries + 1;
        emitted := emitted + ns;
      }
      Discovery.SearchDoneAfter(Discovery.AsWritten, goal, emitted, stations, paired, scans, retries);
    }

    /** The pairing loop of `bs_discovery`: every entry whose id ends with a
        station's short id pairs that station. */
    method PairStations()
      requires bs1 != bs2
      modifies bs1, bs2
      ensures bs1.st == Discovery.PairAll(old(bs1.st), stations, old(bs1.st.snshx))
      ensures bs2.st == Discovery.PairAll(old(bs2.st), stations, old(bs2.st.snshx))
    {
      for i := 0 to |stations|
        invariant bs1.st == Discovery.PairAll(old(bs1.st), stations[..i], old(bs1.st.snshx))
        invariant bs2.st == Discovery.PairAll(old(bs2.st), stations[..i], old(bs2.st.snshx))
        invariant bs1.st.snshx == old(bs1.st.snshx) && bs2.st.snshx == old(bs2.st.snshx)
      {
        assert stations[..i + 1][..i] == stations[..i];
        var b := stations[i];
        if Discovery.IdMatches(b, bs1.st.snshx) {
          bs1.SetPairing(b.mac, b.version);
        }
        if Discovery.IdMatches(b, bs2.st.snshx) {
          bs2.SetPairing(b.mac, b.version);
        }
      }
      assert stations[..|stations|] == stations;
    }

    /** `bs_discovery` with the store's content and what each scan returns: both
        stations locked and given the stored serials, scans until every paired
        station is found or twenty scans are done, then the stations paired with the
        matching entries and unlocked; with nothing paired it stops early, leaving
        the stations locked and the discovery flag set. Gives the number of scans. */
    method RunDiscovery(store: Discovery.Store, scans: seq<seq<string>>) returns (retries: nat)
      requires bs1 != bs2
      modifies this`disco, this`stations, this`notices, bs1, bs2
      ensures var paired := Discovery.PairedCount(store);
        var p1 := Discovery.Prepared(old(bs1.st), Discovery.Serial1(store));
        var p2 := Discovery.Prepared(old(bs2.st), Discovery.Serial2(store));
        var r := Discovery.SearchAsWritten([], paired, scans, 0);
        (paired == 0 ==>
          stations == [] && disco && retries == 0 && bs1.st == p1 && bs2.st == p2 &&
          notices == old(notices) + Discovery.StoreNotices(store) + [NothingPaired]) &&
        (paired > 0 ==>
          stations == r.stations && !disco && retries == r.retries &&
          bs1.st == StationLogic.SetLock(Discovery.PairAll(p1, r.stations, p1.snshx), false) &&
          bs2.st == StationLogic.SetLock(Discovery.PairAll(p2, r.stations, p2.snshx), false) &&
          notices == old(notices) + Discovery.StoreNotices(store) + r.notices)
    {
      var paired := PrepareStations(store);
      if paired == 0 {
        notices := notices + [NothingPaired];
        return 0;
      }
      ghost var mid := notices;
      retries := ScanUntilFound(paired, scans);
      assert notices == mid + Discovery.SearchAsWritten([], paired, scans, 0).notices;
      PairStations();
      disco := false;
      bs1.SetLock(false);
      bs2.SetLock(false);
    }
  }
}
