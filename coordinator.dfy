/**
 * The coordinator's own decisions: the mode toggle of the tray menu, the
 * keep-alive timeout read from the configuration, and how a change of the
 * headset's status fans out to both base stations.
 */
module Coordinator {
  /** The keep-alive timeout before any configuration is read (seconds). */
  const DefaultTimeout: int := 60
  /** The bounds a configured timeout must respect. */
  const MinTimeout: int := 30
  const MaxTimeout: int := 120

  /** The status a headset starts in. */
  const InitialHeadsetStatus: string := "N/A"

  /** `setmode`: "Auto" turns into "Idle", anything else into "Auto". */
  function ToggleMode(m: string): (r: string)
    ensures r == "Auto" || r == "Idle"
    ensures r == "Idle" <==> m == "Auto"
  {
    if m == "Auto" then "Idle" else "Auto"
  }

  /** Toggling twice gives back a known mode. */
  lemma ToggleTwice(m: string)
    requires m == "Auto" || m == "Idle"
    ensures ToggleMode(ToggleMode(m)) == m
  {
  }

  /** The timeout after reading `conf` from the configuration: taken only when it
      lies within 30..120 seconds, otherwise the current one stays. */
  function ConfiguredTimeout(conf: int, current: int): (r: int)
    ensures MinTimeout <= conf <= MaxTimeout ==> r == conf
    ensures !(MinTimeout <= conf <= MaxTimeout) ==> r == current
  {
    if MinTimeout <= conf <= MaxTimeout then conf else current
  }

  /** Whatever the configuration holds, the timeout stays within its bounds once it
      started there (the default does). */
  lemma {:induction false} TimeoutStaysBounded(confs: seq<int>, current: int)
    requires MinTimeout <= current <= MaxTimeout
    ensures MinTimeout <= Fold(confs, current) <= MaxTimeout
  {
    if confs != [] {
      TimeoutStaysBounded(confs[1..], ConfiguredTimeout(confs[0], current));
    }
  }

  /** The timeout after reading several configurations in turn. */
  function Fold(confs: seq<int>, current: int): int
    decreases |confs|
  {
    if confs == [] then current else Fold(confs[1..], ConfiguredTimeout(confs[0], current))
  }

  /** What a headset status change asks both stations to do. */
  datatype Reaction = NoReaction | WakeBoth | StandbyBoth

  /** `HeadSet.setstatus` from status `prev` to `st`: "On" and "DEBUG" wake the stations
      when the status changes; "Off" puts them to standby when it changes, except
      straight from the initial status. */
  function HeadsetReaction(prev: string, st: string): (r: Reaction)
    ensures r != NoReaction ==> prev != st
    ensures r == WakeBoth <==> prev != st && (st == "On" || st == "DEBUG")
    ensures r == StandbyBoth <==> prev != st && st == "Off" && prev != InitialHeadsetStatus
  {
    if prev == st then NoReaction
    else if st == "On" || st == "DEBUG" then WakeBoth
    else if st == "Off" && prev != InitialHeadsetStatus then StandbyBoth
    else NoReaction
  }

  /** The headset's connected flag after status `st`: set by "On" and "DEBUG",
      cleared by "Off", unchanged by anything else. */
  function HeadsetConnected(connected: bool, st: string): (r: bool)
    ensures st == "On" || st == "DEBUG" ==> r
    ensures st == "Off" ==> !r
    ensures st != "On" && st != "DEBUG" && st != "Off" ==> r == connected
  {
    if st == "On" || st == "DEBUG" then true
    else if st == "Off" then false
    else connected
  }

  /** The reactions a run of headset statuses triggers, from status `prev` on. */
  function Reactions(prev: string, sts: seq<string>): seq<Reaction>
    decreases |sts|
  {
    if sts == [] then []
    else
      var r := HeadsetReaction(prev, sts[0]);
      (if r == NoReaction then [] else [r]) + Reactions(sts[0], sts[1..])
  }

  /** Over a run of "On" and "Off" reports of the USB poll, starting from "On", "Off"
      or the initial "N/A", wake-ups and standbys strictly alternate, and the first one
      undoes the status the run started in (from "N/A" it is a wake-up). */
  lemma {:induction false} OnOffAlternate(prev: string, sts: seq<string>)
    requires forall i :: 0 <= i < |sts| ==> sts[i] == "On" || sts[i] == "Off"
    requires prev == "On" || prev == "Off" || prev == InitialHeadsetStatus
    ensures var rs := Reactions(prev, sts);
      forall i :: 0 <= i < |rs| - 1 ==> rs[i] != rs[i + 1]
    ensures var rs := Reactions(prev, sts);
      |rs| > 0 ==> rs[0] == (if prev == "On" then StandbyBoth else WakeBoth)
    decreases |sts|
  {
    if sts != [] {
      OnOffAlternate(sts[0], sts[1..]);
      var r := HeadsetReaction(prev, sts[0]);
      var rest := Reactions(sts[0], sts[1..]);
      if r != NoReaction && |rest| > 0 {
        assert sts[0] != prev;
        assert rest[0] != r;
      }
    }
  }
}
