/**
 * The base-station discovery: reading a station out of a BLE advert
 * (`basescan`), the bounded scan loop and the pairing of the stations found
 * with the serials of the pairing database (`bs_discovery`).  An advert is
 * the text `str(device)` of a scanned device; a scan is the list of adverts
 * it returned.
 */
module Discovery {
  import opened Wrappers
  import opened Text
  import opened Events
  import StationLogic

  /** One entry of `maininst.stations`: the MAC, the 4-character id and the
      protocol version, which the source keeps as the string "mac id version". */
  datatype Beacon = Beacon(mac: string, id: string, version: int)

  function VersionText(v: int): string {
    if v == 1 then "1" else "2"
  }

  /** The source's form of an entry. */
  function Render(b: Beacon): string {
    b.mac + " " + b.id + " " + VersionText(b.version)
  }

  /** What a scanned advert holds. */
  predicate MacChar(c: char) {
    IsWordChar(c) || c == ':'
  }

  predicate WellFormed(b: Beacon) {
    |b.mac| > 0 && (forall i :: 0 <= i < |b.mac| ==> MacChar(b.mac[i])) &&
    |b.id| == 4 && AllWordChars(b.id) && (b.version == 1 || b.version == 2)
  }

  // ------------------------------------------------------------- the regexes

  /** The length of the run of `\w` characters `s` starts with. */
  function WordRun(s: string): (n: nat)
    ensures n <= |s|
    ensures forall i :: 0 <= i < n ==> IsWordChar(s[i])
    ensures n < |s| ==> !IsWordChar(s[n])
  {
    if s == [] || !IsWordChar(s[0]) then 0 else 1 + WordRun(s[1..])
  }

  /** The length of the match of `\w+(:\w+)` repeated to `n` groups at the start of
      `s`. `\w` never matches ':', so each greedy group takes its whole run and
      the regex never backtracks. */
  function MatchGroups(s: string, n: nat): (r: Option<nat>)
    requires n >= 1
    ensures r.Some? ==> 1 <= r.value <= |s| && forall i :: 0 <= i < r.value ==> MacChar(s[i])
    decreases n
  {
    var w := WordRun(s);
    if w == 0 then None
    else if n == 1 then Some(w)
    else if w < |s| && s[w] == ':' then
      match MatchGroups(s[w + 1..], n - 1)
      case None => None
      case Some(m) =>
        assert forall i :: w + 1 <= i < w + 1 + m ==> MacChar(s[i]) by {
          forall i | w + 1 <= i < w + 1 + m ensures MacChar(s[i]) { assert s[i] == s[w + 1..][i - (w + 1)]; }
        }
        Some(w + 1 + m)
    else None
  }

  /** `re.search(r"(\A\w+:\w+:\w+:\w+:\w+:\w+)", d).group(1)`, or None when it does not match. */
  function MacOf(d: string): (r: Option<string>)
    ensures r.Some? ==> |r.value| > 0 && (forall i :: 0 <= i < |r.value| ==> MacChar(r.value[i])) && StartsWith(d, r.value)
  {
    match MatchGroups(d, 6)
    case None => None
    case Some(m) => Some(d[..m])
  }

  /** `re.search(lit + r"\w" * skip + r"(\w\w\w\w)", d).group(1)`: the leftmost place
      where `lit` and `skip + 4` word characters follow. */
  function FindId(d: string, lit: string, skip: nat): (r: Option<string>)
    ensures r.Some? ==> |r.value| == 4 && AllWordChars(r.value)
    decreases |d|
  {
    var k := |lit| + skip + 4;
    if StartsWith(d, lit) && k <= |d| && AllWordChars(d[|lit|..k]) then
      var id := d[|lit| + skip..k];
      assert forall i :: 0 <= i < |id| ==> id[i] == d[|lit|..k][skip + i];
      Some(id)
    else if d == [] then None
    else FindId(d[1..], lit, skip)
  }

  /** What `basescan` makes of one advert. */
  datatype Advert = NotBeacon | Malformed | Found(b: Beacon)

  function ParseWith(d: string, lit: string, skip: nat, version: int): (r: Advert)
    requires version == 1 || version == 2
    ensures r.Found? ==> WellFormed(r.b) && r.b.version == version
    ensures r != NotBeacon
  {
    match (MacOf(d), FindId(d, lit, skip))
    case (Some(m), Some(i)) => Found(Beacon(m, i, version))
    case _ => Malformed
  }

  /** An advert naming "HTC BS" is a version 1 station, otherwise one naming "LHB-"
      is version 2; a station advert without a MAC or an id cannot be read. */
  function ParseAdvert(d: string): (r: Advert)
    ensures r.Found? ==> WellFormed(r.b)
    ensures r.Found? ==> (r.b.version == 1 <==> Contains(d, "HTC BS"))
    ensures r == NotBeacon <==> !Contains(d, "HTC BS") && !Contains(d, "LHB-")
  {
    if Contains(d, "HTC BS") then ParseWith(d, "HTC BS ", 2, 1)
    else if Contains(d, "LHB-") then ParseWith(d, "LHB-", 4, 2)
    else NotBeacon
  }

  // ------------------------------------------------------------- one scan

  /** The upper-cased first 17 characters of an entry: what the duplicate test compares. */
  function Key(b: Beacon): string {
    Upper(Take(Render(b), 17))
  }

  /** The duplicate test as written: `macs[:17].upper() == mac.upper() in macs` is
      Python's chained comparison, so it also asks for the upper-cased MAC to occur
      in the entry, which fails for an entry holding a lower-case MAC. */
  predicate SeenAsWritten(stations: seq<Beacon>, mac: string)
    ensures SeenAsWritten(stations, mac) ==> Seen(stations, mac)
  {
    exists i :: 0 <= i < |stations| && Key(stations[i]) == Upper(mac) && Contains(Render(stations[i]), Upper(mac))
  }

  /** The duplicate test as intended: some entry starts with the MAC, ignoring case. */
  predicate Seen(stations: seq<Beacon>, mac: string) {
    exists i :: 0 <= i < |stations| && Key(stations[i]) == Upper(mac)
  }

  /** One found station, added unless it is a duplicate. */
  function Add(stations: seq<Beacon>, b: Beacon): seq<Beacon> {
    if Seen(stations, b.mac) then stations else stations + [b]
  }

  function AddAsWritten(stations: seq<Beacon>, b: Beacon): (r: seq<Beacon>)
    ensures r == stations || r == stations + [b]
    ensures !Seen(stations, b.mac) ==> r == stations + [b]
  {
    if SeenAsWritten(stations, b.mac) then stations else stations + [b]
  }

  /** Which duplicate test and give-up rule the scan loop applies: the program's
      as written, or the corrected ones. */
  datatype Variant = AsWritten | Corrected

  function AddBy(v: Variant, stations: seq<Beacon>, b: Beacon): seq<Beacon> {
    if v == AsWritten then AddAsWritten(stations, b) else Add(stations, b)
  }

  /** `basescan` over the adverts of one scan: the entries afterwards, and whether the
      scan stopped on an advert it could not read (the rest of the scan is lost). */
  function Scan(v: Variant, stations: seq<Beacon>, devices: seq<string>): (seq<Beacon>, bool)
    decreases |devices|
  {
    if devices == [] then (stations, false)
    else match ParseAdvert(devices[0])
      case NotBeacon => Scan(v, stations, devices[1..])
      case Malformed => (stations, true)
      case Found(b) => Scan(v, AddBy(v, stations, b), devices[1..])
  }

  /** `basescan` as the program runs it. */
  function ScanAllAsWritten(stations: seq<Beacon>, devices: seq<string>): (r: (seq<Beacon>, bool))
    ensures |r.0| >= |stations| && r.0[..|stations|] == stations
    ensures devices == [] ==> r == (stations, false)
  {
    ScanExtends(AsWritten, stations, devices);
    Scan(AsWritten, stations, devices)
  }

  /** `basescan` with the corrected duplicate test. */
  function ScanAll(stations: seq<Beacon>, devices: seq<string>): (seq<Beacon>, bool) {
    Scan(Corrected, stations, devices)
  }

  /** Helper: adding a station keeps the entries before it. */
  lemma AddByExtends(v: Variant, stations: seq<Beacon>, b: Beacon)
    ensures var s := AddBy(v, stations, b);
      |s| >= |stations| && s[..|stations|] == stations
  {
  }

  /** A scan only ever adds entries, after the ones already known. */
  lemma {:induction false} ScanExtends(v: Variant, stations: seq<Beacon>, devices: seq<string>)
    ensures var r := Scan(v, stations, devices).0;
      |r| >= |stations| && r[..|stations|] == stations
    decreases |devices|
  {
    if devices != [] {
      var a := ParseAdvert(devices[0]);
      if a.NotBeacon? {
        ScanExtends(v, stations, devices[1..]);
      } else if a.Found? {
        var s := AddBy(v, stations, a.b);
        AddByExtends(v, stations, a.b);
        ScanExtends(v, s, devices[1..]);
        var r := Scan(v, s, devices[1..]).0;
        assert r[..|stations|] == r[..|s|][..|stations|];
      }
    }
  }

  /** No two entries share their first 17 characters. */
  predicate DistinctKeys(stations: seq<Beacon>) {
    forall i, j :: 0 <= i < j < |stations| ==> Key(stations[i]) != Key(stations[j])
  }

  predicate AllWellFormed(stations: seq<Beacon>) {
    forall i :: 0 <= i < |stations| ==> WellFormed(stations[i])
  }

  /** Every advert that reads as a station carries a full 17-character MAC. */
  predicate FullMacs(devices: seq<string>) {
    forall i :: 0 <= i < |devices| ==> ParseAdvert(devices[i]).Found? ==> |ParseAdvert(devices[i]).b.mac| == 17
  }

  lemma KeyOfFullMac(b: Beacon)
    requires |b.mac| == 17
    ensures Key(b) == Upper(b.mac)
  {
    assert Take(Render(b), 17) == b.mac;
  }

  /** Adding one station keeps the entries well formed and free of duplicates. */
  lemma AddInvariant(stations: seq<Beacon>, b: Beacon)
    requires AllWellFormed(stations) && DistinctKeys(stations) && WellFormed(b) && |b.mac| == 17
    ensures AllWellFormed(Add(stations, b)) && DistinctKeys(Add(stations, b))
  {
    if !Seen(stations, b.mac) {
      KeyOfFullMac(b);
      var s := stations + [b];
      forall i, j | 0 <= i < j < |s| ensures Key(s[i]) != Key(s[j]) {
        assert s[i] == stations[i];
        if j < |stations| { assert s[j] == stations[j]; }
      }
    }
  }

  lemma FullMacsTail(devices: seq<string>)
    requires devices != [] && FullMacs(devices)
    ensures FullMacs(devices[1..])
  {
    forall i | 0 <= i < |devices[1..]| ensures ParseAdvert(devices[1..][i]).Found? ==> |ParseAdvert(devices[1..][i]).b.mac| == 17 {
      assert devices[1..][i] == devices[i + 1];
    }
  }

  /** A scan keeps the entries well formed and, for full MACs, free of duplicates. */
  lemma {:induction false} ScanAllInvariant(stations: seq<Beacon>, devices: seq<string>)
    requires AllWellFormed(stations) && DistinctKeys(stations) && FullMacs(devices)
    ensures AllWellFormed(ScanAll(stations, devices).0) && DistinctKeys(ScanAll(stations, devices).0)
    decreases |devices|
  {
    if devices != [] {
      FullMacsTail(devices);
      var a := ParseAdvert(devices[0]);
      if a.NotBeacon? {
        ScanAllInvariant(stations, devices[1..]);
      } else if a.Found? {
        assert |a.b.mac| == 17;
        AddInvariant(stations, a.b);
        ScanAllInvariant(Add(stations, a.b), devices[1..]);
      }
    }
  }

  /** A station seen again in a later advert of the same or a later scan is not added twice. */
  lemma AddTwice(stations: seq<Beacon>, b: Beacon)
    requires |b.mac| == 17
    ensures Add(Add(stations, b), b) == Add(stations, b)
  {
    if !Seen(stations, b.mac) {
      KeyOfFullMac(b);
      var s := stations + [b];
      assert Key(s[|stations|]) == Upper(b.mac);
    }
  }

  /** The test as written lets a station whose MAC starts with a letter in lower
      case in twice, when the entry nowhere holds that letter in upper case. */
  lemma LowerCaseAddedTwice(b: Beacon)
    requires |b.mac| == 17 && UpperChar(b.mac[0]) !in Render(b)
    ensures AddAsWritten(AddAsWritten([], b), b) == [b, b]
    ensures Add(Add([], b), b) == [b]
  {
    var u := Upper(b.mac);
    assert u[0] == UpperChar(b.mac[0]);
    if Contains(Render(b), u) {
      ContainsChars(Render(b), u);
      assert false;
    }
    assert !SeenAsWritten([b], b.mac);
    AddTwice([], b);
  }

  lemma LowerCaseMacAddedTwice()
    ensures var b := Beacon("aa:bb:cc:dd:ee:ff", "1234", 1);
      AddAsWritten(AddAsWritten([], b), b) == [b, b] && Add(Add([], b), b) == [b]
  {
    var b := Beacon("aa:bb:cc:dd:ee:ff", "1234", 1);
    var r := Render(b);
    assert r == "aa:bb:cc:dd:ee:ff 1234 1";
    assert UpperChar(b.mac[0]) == 'A';
    assert forall i :: 0 <= i < |r| ==> r[i] != 'A';
    LowerCaseAddedTwice(b);
  }

  /** Splitting an entry at its spaces gives back its MAC, id and version. */
  lemma SplitRender(b: Beacon)
    requires WellFormed(b)
    ensures Split(Render(b)) == [b.mac, b.id, VersionText(b.version)]
  {
    assert ' ' !in b.mac by {
      forall i | 0 <= i < |b.mac| ensures b.mac[i] != ' ' { assert MacChar(b.mac[i]); }
    }
    assert ' ' !in b.id by {
      forall i | 0 <= i < |b.id| ensures b.id[i] != ' ' { assert IsWordChar(b.id[i]); }
    }
    assert Render(b) == b.mac + " " + (b.id + " " + VersionText(b.version));
    SplitAt(b.mac, b.id + " " + VersionText(b.version));
    SplitAt(b.id, VersionText(b.version));
    assert ' ' !in VersionText(b.version);
    SplitNoSpace(VersionText(b.version));
  }

  // ------------------------------------------------------------- the scan loop

  datatype SearchResult = SearchResult(stations: seq<Beacon>, retries: nat, notices: seq<Notice>)

  /** What scan `k + 1` returns: nothing past the end of `scans`. */
  function ScanAt(scans: seq<seq<string>>, k: nat): seq<string> {
    if k < |scans| then scans[k] else []
  }

  /** What the loop says after its 20th scan: as written, that not all stations were
      found, whatever the scan found; corrected, only when some are still missing. */
  function GiveUpNotice(v: Variant, st: seq<Beacon>, paired: nat): seq<Notice> {
    if v == AsWritten || |st| < paired then [NotAllFound(|st|, paired)] else []
  }

  /** Scan number `retries + 1` onwards while fewer entries than paired serials are
      known; `scans[k]` is what scan `k + 1` returns (an empty scan past its end).
      The 20th scan ends the loop. */
  function SearchBy(v: Variant, stations: seq<Beacon>, paired: nat, scans: seq<seq<string>>, retries: nat): (r: SearchResult)
    requires retries < 20
    ensures retries <= r.retries <= 20
    ensures r.retries < 20 ==> |r.stations| >= paired
    ensures |stations| >= paired ==> r == SearchResult(stations, retries, [])
    decreases 20 - retries
  {
    if |stations| >= paired then SearchResult(stations, retries, [])
    else
      var (st, failed) := Scan(v, stations, ScanAt(scans, retries));
      var ns := if failed then [ScanFailed] else [];
      if retries + 1 > 19 then SearchResult(st, retries + 1, ns + GiveUpNotice(v, st, paired))
      else
        var r := SearchBy(v, st, paired, scans, retries + 1);
        SearchResult(r.stations, r.retries, ns + r.notices)
  }

  /** The scan loop of `bs_discovery` as the program runs it. */
  function SearchAsWritten(stations: seq<Beacon>, paired: nat, scans: seq<seq<string>>, retries: nat): (r: SearchResult)
    requires retries < 20
    ensures retries <= r.retries <= 20 && (r.retries < 20 ==> |r.stations| >= paired)
    ensures |r.stations| >= |stations| && r.stations[..|stations|] == stations
  {
    SearchBounds(AsWritten, stations, paired, scans, retries);
    SearchBy(AsWritten, stations, paired, scans, retries)
  }

  /** The scan loop with the corrected duplicate test and give-up notice. */
  function Search(stations: seq<Beacon>, paired: nat, scans: seq<seq<string>>, retries: nat): (r: SearchResult)
    requires retries < 20
    ensures retries <= r.retries <= 20 && (r.retries < 20 ==> |r.stations| >= paired)
    ensures |r.stations| >= |stations| && r.stations[..|stations|] == stations
  {
    SearchBounds(Corrected, stations, paired, scans, retries);
    SearchBy(Corrected, stations, paired, scans, retries)
  }

  /** A search result with notices `ns` shown before its own. */
  function After(ns: seq<Notice>, r: SearchResult): SearchResult {
    r.(notices := ns + r.notices)
  }

  lemma AfterNothing(r: SearchResult)
    ensures After([], r) == r
  {
    assert [] + r.notices == r.notices;
  }

  lemma AfterAfter(a: seq<Notice>, b: seq<Notice>, r: SearchResult)
    ensures After(a, After(b, r)) == After(a + b, r)
  {
    assert a + (b + r.notices) == (a + b) + r.notices;
  }

  /** One unfolding of the loop: a scan, the notice of a failed scan, then the rest. */
  lemma SearchStep(v: Variant, stations: seq<Beacon>, paired: nat, scans: seq<seq<string>>, retries: nat)
    requires retries < 19 && |stations| < paired
    ensures var (st, failed) := Scan(v, stations, ScanAt(scans, retries));
      SearchBy(v, stations, paired, scans, retries) ==
        After(if failed then [ScanFailed] else [], SearchBy(v, st, paired, scans, retries + 1))
  {
  }

  /** The twentieth scan ends the loop. */
  lemma SearchLast(v: Variant, stations: seq<Beacon>, paired: nat, scans: seq<seq<string>>)
    requires |stations| < paired
    ensures var (st, failed) := Scan(v, stations, ScanAt(scans, 19));
      SearchBy(v, stations, paired, scans, 19) ==
        SearchResult(st, 20, (if failed then [ScanFailed] else []) + GiveUpNotice(v, st, paired))
  {
  }

  /** No scan once enough entries are known. */
  lemma SearchDone(v: Variant, stations: seq<Beacon>, paired: nat, scans: seq<seq<string>>, retries: nat)
    requires retries < 20 && |stations| >= paired
    ensures SearchBy(v, stations, paired, scans, retries) == SearchResult(stations, retries, [])
  {
  }

  /** `SearchStep` seen from the loop: after notices `emitted` and one more scan
      from `before` to `st`, the remaining search still completes `goal`. */
  lemma SearchStepAfter(v: Variant, goal: SearchResult, emitted: seq<Notice>, before: seq<Beacon>,
                        st: seq<Beacon>, failed: bool, paired: nat, scans: seq<seq<string>>, k: nat)
    requires k < 19 && |before| < paired
    requires (st, failed) == Scan(v, before, ScanAt(scans, k))
    requires goal == After(emitted, SearchBy(v, before, paired, scans, k))
    ensures goal == After(emitted + (if failed then [ScanFailed] else []), SearchBy(v, st, paired, scans, k + 1))
  {
    SearchStep(v, before, paired, scans, k);
    AfterAfter(emitted, if failed then [ScanFailed] else [], SearchBy(v, st, paired, scans, k + 1));
  }

  /** `SearchLast` seen from the loop. */
  lemma SearchLastAfter(v: Variant, goal: SearchResult, emitted: seq<Notice>, before: seq<Beacon>,
                        st: seq<Beacon>, failed: bool, paired: nat, scans: seq<seq<string>>)
    requires |before| < paired
    requires (st, failed) == Scan(v, before, ScanAt(scans, 19))
    requires goal == After(emitted, SearchBy(v, before, paired, scans, 19))
    ensures goal == SearchResult(st, 20, emitted + ((if failed then [ScanFailed] else []) + GiveUpNotice(v, st, paired)))
  {
    SearchLast(v, before, paired, scans);
  }

  /** `SearchDone` seen from the loop. */
  lemma SearchDoneAfter(v: Variant, goal: SearchResult, emitted: seq<Notice>, st: seq<Beacon>,
                        paired: nat, scans: seq<seq<string>>, k: nat)
    requires k < 20 && |st| >= paired
    requires goal == After(emitted, SearchBy(v, st, paired, scans, k))
    ensures goal == SearchResult(st, k, emitted)
  {
    SearchDone(v, st, paired, scans, k);
    assert emitted + [] == emitted;
  }

  /** The notice list holds a give-up notice. */
  predicate GaveUp(notices: seq<Notice>) {
    exists k :: 0 <= k < |notices| && notices[k].NotAllFound?
  }

  lemma GaveUpAppend(ns: seq<Notice>, rest: seq<Notice>)
    requires forall k :: 0 <= k < |ns| ==> !ns[k].NotAllFound?
    ensures GaveUp(ns + rest) <==> GaveUp(rest)
  {
    if GaveUp(rest) {
      var k :| 0 <= k < |rest| && rest[k].NotAllFound?;
      assert (ns + rest)[|ns| + k] == rest[k];
    }
  }

  /** At most 20 scans; the loop ends once the entries reach the paired count or
      the 20th scan is done; no scan runs when enough entries are known; and
      entries are only ever added. */
  lemma {:induction false} SearchBounds(v: Variant, stations: seq<Beacon>, paired: nat, scans: seq<seq<string>>, retries: nat)
    requires retries < 20
    ensures var r := SearchBy(v, stations, paired, scans, retries);
      retries <= r.retries <= 20 &&
      (|r.stations| >= paired || r.retries == 20) &&
      (|stations| >= paired ==> r.retries == retries && r.stations == stations) &&
      |r.stations| >= |stations| && r.stations[..|stations|] == stations
    decreases 20 - retries
  {
    if |stations| < paired {
      var st := Scan(v, stations, ScanAt(scans, retries)).0;
      ScanExtends(v, stations, ScanAt(scans, retries));
      if retries + 1 <= 19 {
        SearchBounds(v, st, paired, scans, retries + 1);
        var r := SearchBy(v, st, paired, scans, retries + 1);
        assert r.stations[..|stations|] == r.stations[..|st|][..|stations|];
      }
    }
  }

  /** Corrected: the give-up notice appears exactly when stations are still missing at the end. */
  lemma {:induction false} SearchGivesUp(stations: seq<Beacon>, paired: nat, scans: seq<seq<string>>, retries: nat)
    requires retries < 20
    ensures var r := Search(stations, paired, scans, retries);
      GaveUp(r.notices) <==> |r.stations| < paired
    decreases 20 - retries
  {
    if |stations| < paired {
      var (st, failed) := Scan(Corrected, stations, ScanAt(scans, retries));
      var ns: seq<Notice> := if failed then [ScanFailed] else [];
      if retries + 1 <= 19 {
        SearchStep(Corrected, stations, paired, scans, retries);
        SearchGivesUp(st, paired, scans, retries + 1);
        GaveUpAppend(ns, Search(st, paired, scans, retries + 1).notices);
      } else {
        SearchLast(Corrected, stations, paired, scans);
        GaveUpAppend(ns, GiveUpNotice(Corrected, st, paired));
        if |st| < paired {
          assert [NotAllFound(|st|, paired)][0].NotAllFound?;
        }
      }
    }
  }

  /** As written: the give-up notice appears exactly when the 20th scan ran. */
  lemma {:induction false} SearchAsWrittenGivesUp(stations: seq<Beacon>, paired: nat, scans: seq<seq<string>>, retries: nat)
    requires retries < 20
    ensures var r := SearchAsWritten(stations, paired, scans, retries);
      GaveUp(r.notices) <==> r.retries == 20
    decreases 20 - retries
  {
    if |stations| < paired {
      var (st, failed) := Scan(AsWritten, stations, ScanAt(scans, retries));
      var ns: seq<Notice> := if failed then [ScanFailed] else [];
      if retries + 1 <= 19 {
        SearchStep(AsWritten, stations, paired, scans, retries);
        SearchAsWrittenGivesUp(st, paired, scans, retries + 1);
        GaveUpAppend(ns, SearchAsWritten(st, paired, scans, retries + 1).notices);
      } else {
        SearchLast(AsWritten, stations, paired, scans);
        GaveUpAppend(ns, [NotAllFound(|st|, paired)]);
        assert [NotAllFound(|st|, paired)][0].NotAllFound?;
      }
    }
  }

  /** As written: the 20th scan can find the last missing station and the loop
      still reports that not all were found. */
  lemma GiveUpAfterSuccess(stations: seq<Beacon>, paired: nat, scans: seq<seq<string>>)
    requires |stations| < paired && |scans| == 20
    requires var (st, failed) := ScanAllAsWritten(stations, scans[19]); |st| >= paired && !failed
    ensures var st := ScanAllAsWritten(stations, scans[19]).0;
      SearchAsWritten(stations, paired, scans, 19).notices == [NotAllFound(|st|, paired)]
  {
  }

  /** Corrected: a 20th scan that finds the last missing station ends the loop quietly. */
  lemma NoGiveUpAfterSuccess(stations: seq<Beacon>, paired: nat, scans: seq<seq<string>>)
    requires |stations| < paired && |scans| == 20
    requires var (st, failed) := ScanAll(stations, scans[19]); |st| >= paired && !failed
    ensures Search(stations, paired, scans, 19).notices == []
  {
  }

  /** Scans past the end of `scans` find nothing, so the loop runs out its 20 scans
      and gives up with what it has. */
  lemma {:induction false} EmptyScansGiveUp(v: Variant, stations: seq<Beacon>, paired: nat, scans: seq<seq<string>>, k: nat)
    requires |scans| <= k < 20 && |stations| < paired
    ensures SearchBy(v, stations, paired, scans, k) == SearchResult(stations, 20, GiveUpNotice(v, stations, paired))
    decreases 20 - k
  {
    assert Scan(v, stations, ScanAt(scans, k)) == (stations, false);
    if k < 19 {
      EmptyScansGiveUp(v, stations, paired, scans, k + 1);
    }
  }

  /** Helper: a scan past an advert that reads as station `b`. */
  lemma ScanFound(v: Variant, stations: seq<Beacon>, devices: seq<string>, b: Beacon)
    requires devices != [] && ParseAdvert(devices[0]) == Found(b)
    ensures Scan(v, stations, devices) == Scan(v, AddBy(v, stations, b), devices[1..])
  {
  }

  /** Helper: one scan holding the same advert twice. */
  lemma ScanSameTwice(v: Variant, d: string, b: Beacon)
    requires ParseAdvert(d) == Found(b)
    ensures Scan(v, [], [d, d]) == (AddBy(v, AddBy(v, [], b), b), false)
  {
    var s := AddBy(v, [], b);
    ScanFound(v, [], [d, d], b);
    assert [d, d][1..] == [d];
    ScanFound(v, s, [d], b);
    assert [d][1..] == [];
  }

  /** As written, one scan holding the advert of a station with a lower-case MAC
      twice ends a search for two stations, with that one station entered twice. */
  lemma DuplicateEndsSearch(d: string, b: Beacon)
    requires ParseAdvert(d) == Found(b)
    requires |b.mac| == 17 && UpperChar(b.mac[0]) !in Render(b)
    ensures SearchAsWritten([], 2, [[d, d]], 0) == SearchResult([b, b], 1, [])
  {
    LowerCaseAddedTwice(b);
    ScanSameTwice(AsWritten, d, b);
    assert ScanAt([[d, d]], 0) == [d, d];
  }

  /** Corrected, the same scan enters the station once and the search goes on to
      the 20th scan and gives up. */
  lemma DuplicateEnteredOnce(d: string, b: Beacon)
    requires ParseAdvert(d) == Found(b)
    requires |b.mac| == 17
    ensures Search([], 2, [[d, d]], 0) == SearchResult([b], 20, [NotAllFound(1, 2)])
  {
    AddTwice([], b);
    assert Add([], b) == [b];
    ScanSameTwice(Corrected, d, b);
    assert Scan(Corrected, [], ScanAt([[d, d]], 0)) == ([b], false);
    EmptyScansGiveUp(Corrected, [b], 2, [[d, d]], 1);
    SearchStep(Corrected, [], 2, [[d, d]], 0);
  }

  // ------------------------------------------------------------- pairing

  /** `re.search('(' + snshx + ')$', id.upper())`: the short id contains no regex
      metacharacter, so this asks whether the upper-cased id ends with it. */
  predicate IdMatches(b: Beacon, snshx: string)
    ensures IdMatches(b, snshx) <==> |snshx| <= |b.id| && Upper(b.id[|b.id| - |snshx|..]) == snshx
  {
    if |snshx| <= |b.id| then
      UpperSuffix(b.id, |b.id| - |snshx|);
      EndsWith(Upper(b.id), snshx)
    else false
  }

  /** The last entry whose id matches. */
  function LastMatch(stations: seq<Beacon>, snshx: string): (r: Option<Beacon>)
    ensures r.Some? ==> r.value in stations && IdMatches(r.value, snshx)
    ensures r.None? <==> forall i :: 0 <= i < |stations| ==> !IdMatches(stations[i], snshx)
  {
    if stations == [] then None
    else if IdMatches(stations[|stations| - 1], snshx) then Some(stations[|stations| - 1])
    else
      var r := LastMatch(stations[..|stations| - 1], snshx);
      assert forall i :: 0 <= i < |stations| - 1 ==> stations[..|stations| - 1][i] == stations[i];
      r
  }

  /** `addbs` for every matching entry in turn (the service read-out is not modelled). */
  function PairAll(s: StationLogic.State, stations: seq<Beacon>, snshx: string): (r: StationLogic.State)
    ensures (forall i :: 0 <= i < |stations| ==> !IdMatches(stations[i], snshx)) ==> r == s
    ensures (exists i :: 0 <= i < |stations| && IdMatches(stations[i], snshx)) ==> r.status == "Discovered" && r.discovered
    ensures r.sn == s.sn && r.snhx == s.snhx && r.snshx == s.snshx && r.paired == s.paired && r.action == s.action
    ensures r.mode == s.mode && r.tlock == s.tlock && r.islocked == s.islocked && r.connected == s.connected
    ensures r.errque == s.errque && r.tWaitLoop == s.tWaitLoop && r.tLastCmd == s.tLastCmd && r.disconnects == s.disconnects
  {
    if stations == [] then s
    else
      var t := PairAll(s, stations[..|stations| - 1], snshx);
      var b := stations[|stations| - 1];
      if IdMatches(b, snshx) then StationLogic.SetPairing(t, b.mac, b.version)
      else MatchBeforeLast(stations, stations[..|stations| - 1], snshx); t
  }

  /** Helper: when the last entry does not match, a match lies before it. */
  lemma MatchBeforeLast(stations: seq<Beacon>, init: seq<Beacon>, snshx: string)
    requires stations != [] && init == stations[..|stations| - 1] && !IdMatches(stations[|stations| - 1], snshx)
    ensures (exists i :: 0 <= i < |stations| && IdMatches(stations[i], snshx)) ==>
      exists i :: 0 <= i < |init| && IdMatches(init[i], snshx)
  {
    if i :| 0 <= i < |stations| && IdMatches(stations[i], snshx) {
      assert init[i] == stations[i];
    }
  }

  /** Pairing over all entries is pairing with the last match, and leaves the
      station alone when none matches. */
  lemma {:induction false} PairAllIsLastMatch(s: StationLogic.State, stations: seq<Beacon>, snshx: string)
    ensures PairAll(s, stations, snshx) ==
      match LastMatch(stations, snshx)
      case None => s
      case Some(b) => StationLogic.SetPairing(s, b.mac, b.version)
  {
    if stations != [] {
      var init := stations[..|stations| - 1];
      PairAllIsLastMatch(s, init, snshx);
      var b := stations[|stations| - 1];
      if IdMatches(b, snshx) {
        match LastMatch(init, snshx)
        case None =>
        case Some(c) => StationLogic.SetPairingLastWins(s, c.mac, c.version, b.mac, b.version);
      }
    }
  }

  /** A station whose serial is unknown (short id "N/A") is never paired: ids are word characters. */
  lemma UnpairedNeverMatches(b: Beacon)
    requires WellFormed(b)
    ensures !IdMatches(b, StationLogic.NotAvailable)
  {
    var u := Upper(b.id);
    assert IsWordChar(u[2]) by { assert u[2] == UpperChar(b.id[2]); }
    assert u[|u| - 3..][1] == u[2];
  }

  /** A station without a serial is never paired, whatever the scans found. */
  lemma NoSerialNeverPaired(s: StationLogic.State, stations: seq<Beacon>)
    requires AllWellFormed(stations)
    ensures PairAll(s, stations, StationLogic.NotAvailable) == s
  {
    PairAllIsLastMatch(s, stations, StationLogic.NotAvailable);
    forall i | 0 <= i < |stations| ensures !IdMatches(stations[i], StationLogic.NotAvailable) {
      UnpairedNeverMatches(stations[i]);
    }
  }

  // ------------------------------------------------------------- the database

  /** What reading the pairing database gave: the file unreadable (never opened),
      unparsable, or the serials of the first two stations, where present. */
  datatype Store = StoreMissing | StoreMalformed | StoreRead(serial1: Option<int>, serial2: Option<int>)

  /** The notices of reading the store. */
  function StoreNotices(store: Store): (r: seq<Notice>)
    ensures r == [] <==> store.StoreRead?
    ensures r != [] ==> r[0] == StoreUnreadable
    ensures StoreCloseFailed in r <==> store.StoreMissing?
  {
    match store
    case StoreMissing => [StoreUnreadable, StoreCloseFailed]
    case StoreMalformed => [StoreUnreadable]
    case StoreRead(_, _) => []
  }

  /** `bs_paired`: how many serials the store gave. */
  function PairedCount(store: Store): (n: nat)
    ensures n <= 2
    ensures n == 0 <==> !store.StoreRead? || (store.serial1.None? && store.serial2.None?)
  {
    match store
    case StoreRead(a, b) => (if a.Some? then 1 else 0) + (if b.Some? then 1 else 0)
    case _ => 0
  }

  /** The serials the store gives each station. */
  function Serial1(store: Store): Option<int> {
    if store.StoreRead? then store.serial1 else None
  }

  function Serial2(store: Store): Option<int> {
    if store.StoreRead? then store.serial2 else None
  }

  /** A station as `bs_discovery` leaves it before scanning: locked, its serial reset
      and then set from the store where the store has one. */
  function Prepared(s: StationLogic.State, serial: Option<int>): (r: StationLogic.State)
    ensures r.tlock && !r.islocked && r.mac == "" && r.action == s.action && r.mode == s.mode
    ensures r.sn == (if serial.Some? then serial.value else 0)
    ensures serial.None? || serial.value == 0 ==> r.snshx == StationLogic.NotAvailable && !r.paired
    ensures serial.Some? && serial.value != 0 ==> r.snshx == StationLogic.ShortId(serial.value)
    ensures r.status == StationLogic.NotAvailable && !r.paired
    ensures r.(tlock := s.tlock, islocked := s.islocked, mac := s.mac, sn := s.sn, snhx := s.snhx,
               snshx := s.snshx, paired := s.paired, status := s.status) == s
  {
    var t := StationLogic.SetSerial(StationLogic.SetLock(s, true), 0);
    if serial.Some? then StationLogic.SetSerial(t, serial.value) else t
  }
}
