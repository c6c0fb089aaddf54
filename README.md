# Pimax base-station manager: controller and discovery model

The program keeps two Valve lighthouse base stations in step with a Pimax
headset. The headset goes on, so both stations wake up. The headset goes
off, so both go to standby. While the headset is on, each station gets a
keep-alive command at regular intervals. A discovery run pairs the
stations with the serial numbers in the lighthouse database. To do this,
it scans Bluetooth LE adverts and matches the last four hex digits of
each serial against the id a station advertises.

This project models, in Dafny, the station worker (`BaseStations`), the
headset's status handling (`HeadSet.setstatus`), the coordinator's
requests (`MainObj`), the command frames, the error-rate window, the BLE
scan (`basescan`), the discovery run (`bs_discovery`) and the `UUID`
value type of `Pimax_BSAW.py`. It then proves properties of that model.

Layout:

- `bytes.dfy`, `wrappers.dfy`, `text.dfy`, `hex.dfy`: the vocabulary.
  - Bytes. `Bytes.byte` is the integer range 0..255 as a newtype rather
    than `bv8`. The frame layout and the hex conversions are stated in integer
    arithmetic (`/ 256`, `% 256`, sums of digit values), and over integers
    these proofs need no conversions between bit-vectors and numbers.
  - `Option` and `Result`.
  - The Python string built-ins the program uses: slicing, `upper()` on
    ASCII, `replace`, `split(" ")` and the regex class `\w` over ASCII.
  - `hex()`, `"%04X"`, and `binascii.a2b_hex`/`b2a_hex` with their round
    trip.
- `codec.dfy`: `build_2_bs_ble_cmd`.
  - A version 2 station takes one byte, sleep or wake.
  - A version 1 station takes 20 bytes: a big-endian command id, a
    big-endian timeout, a little-endian station id and twelve zero bytes.
  - A decoder is the partner that states the layout.
- `uuid.dfy`: the `UUID` class.
  - Construction from an integer, from text or from another UUID, with
    its `ValueError` cases.
  - The 8-4-4-4-12 text form.
  - `getCommonName`.
  - Expansion of short forms with the Bluetooth Base UUID (Bluetooth Core
    Specification, Volume 3, Part B, section 2.5.1).
- `error_window.dfy`: `logmanyerrors` and `purgeerrque` over whole-second
  timestamps.
- `station_logic.dfy`: a station worker's state as a record, and its
  logic as functions.
  - The setters.
  - The pre-loop gate.
  - The resolution of the pending action.
  - The bookkeeping after a written or skipped frame.
  - `bs_proc_err`.
  - One round of the connected loop and of the outer loop.
- `discovery.dfy`: `basescan` and the parts of `bs_discovery` that are
  not BLE.
  - Reading an advert.
  - The duplicate test.
  - The bounded scan loop.
  - The suffix match that pairs a station.
  - Reading the database.
- `coordinator.dfy`: the mode toggle, the configured timeout, and the
  headset's reaction to a status change.
- `events.dfy`: the notices ("toasts") the program shows. These are
  recorded, not shown.
- `controller.dfy`: the three objects as classes.
  - `BaseStation` holds the worker's attributes in one record field `st`.
  - `HeadSet` holds the headset's `status` and flags.
  - `MainObj` holds the coordinator's flags, its list of discovered
    stations and the notices shown.
  - Each method is proved against the function that specifies it. A loop
    in the source is a loop here, with invariants. This covers the purge,
    the scan of one advert list, the scan loop and the pairing loop.
  - The methods run the code as written, including the three defects listed
    under "## Findings". The purge walks the list by position while removing
    from it. The duplicate test is the chained comparison. The give-up notice
    follows every 20th scan.

Things the proofs show, beyond the contracts of each operation:

- The keep-alive escalation at `Pimax_BSAW.py:432-434` can never fire. It
  sits inside `elif self.ping_cmd:` and requires `not self.ping_cmd`.
  Because of that, the resolution of an action does not depend on the
  clock (`StationLogic.ResolveIgnoresClock`).
- No action a worker can hold carries the `-error` tag, so the first
  branch of `bs_pre_action` is dead code.
  - `bs_proc_err` restores the untagged action.
  - Only the status is tagged.
  - See `StationLogic.KnownActionUntagged` and the `*Reachable` lemmas.
- A worker sends nothing while the headset is off, unless a standby is
  pending on a connected station (`StationLogic.HeadsetOffNeverProceeds`).
- From an empty window, a run of errors with no purge in between shows
  the "too many errors" notice exactly once, once at least 20 errors
  have occurred, and never before (`ErrorWindow.LogAllFromEmpty`).

Facts about the code that the model keeps as they are:

- After a failed write the action is the untagged previous one and only
  the status carries `-error` (`Pimax_BSAW.py:360-361`).
- `Off` executes nothing and moves on to `""`, or to `Ping` in Auto mode
  (`Pimax_BSAW.py:424-426` and `438-439`). It does not stay `Off`.
- The connected loop sets the pacing interval to 25 seconds after every
  gate (`Pimax_BSAW.py:303`). The 3-second retry that `bs_proc_err` sets
  after a failed write on a live link (`Pimax_BSAW.py:359`) therefore
  governs at most the next gate of that loop. The 7-second wait after a
  lost link (`Pimax_BSAW.py:366`) is different. The outer loop's gates
  (`Pimax_BSAW.py:274-284`) do not reset it, so it paces every
  reconnection attempt until the station is connected again.
- The escalation to Wakeup at `Pimax_BSAW.py:431-434` is dead code (see
  above).

## Model

| member | source | states |
|---|---|---|
| Codec.BuildCommand | Pimax_BSAW.py:455-491 | a version 2 frame is one byte, every other frame is 20 bytes |
| Codec.EncodeV1 | Pimax_BSAW.py:483-487 | the version 1 frame is 20 bytes |
| Codec.EncodeV1Layout | Pimax_BSAW.py:483-487 | byte 0-1 command id, 2-3 timeout, 4-7 station id, 8-19 zero |
| Codec.BigEndian16Value | Pimax_BSAW.py:484-485 | the two big-endian bytes denote the 16-bit value |
| Codec.LittleEndian32Value | Pimax_BSAW.py:486 | the four little-endian bytes denote the 32-bit value |
| Codec.Zeros | Pimax_BSAW.py:487 | twelve zero bytes |
| Codec.DecodeEncodeV1 | Pimax_BSAW.py:483-487 | reading a version 1 frame back gives its three fields |
| Codec.V2Frame | Pimax_BSAW.py:462-472 | version 2: the sleep byte 0x00 exactly for Standby and Off, the wake byte 0x01 otherwise |
| Codec.V1Wakeup | Pimax_BSAW.py:473-487 | version 1 Wakeup: id 0x1201, timeout field 0x1202, wildcard id 0xffffffff |
| Codec.V1Standby | Pimax_BSAW.py:473-487 | version 1 Standby: id 0x1202, timeout 4, the own serial |
| Codec.V1Other | Pimax_BSAW.py:473-487 | every other action: id 0x1201, the configured timeout, the own serial |
| Codec.SelectV1 | Pimax_BSAW.py:473-482 | command id 0x1201 or 0x1202, and 0x1202 exactly for Standby; the wildcard id for Wakeup, the own serial otherwise; the configured timeout for every action but Wakeup and Standby |
| Codec.CanBuild | Pimax_BSAW.py:473-487 | a frame can be built exactly for version 2, or when the version 1 fields of the action fit 16, 16 and 32 bits |
| Codec.NoTimeoutIdNeverSent | Pimax_BSAW.py:211-213 | the id 0x1200 never appears in a frame |
| Hex.PyHex | Pimax_BSAW.py:550 | `hex()` has at least three characters |
| Hex.NatToHexValue | Pimax_BSAW.py:550 | the digits written denote the number |
| Hex.NatToHexLowDigits | Pimax_BSAW.py:551 | the last k digits denote the number modulo 16^k |
| Hex.HexDecode | Pimax_BSAW.py:1288 | `a2b_hex` succeeds exactly on an even number of hex digits, giving half as many bytes |
| Hex.HexEncode | Pimax_BSAW.py:1296 | `b2a_hex` writes two lower-case hex digits per byte |
| Hex.DecodeEncode | Pimax_BSAW.py:1288-1296 | decoding what was encoded gives the bytes back |
| Hex.DecodeValue | Pimax_BSAW.py:1288 | the decoded bytes denote the number the digits denote |
| Text.RemoveChar | Pimax_BSAW.py:1284 | `replace("-", "")` leaves no dash and never lengthens |
| Text.Upper | Pimax_BSAW.py:1363 | `upper()` maps every character and keeps the length |
| Uuid.Format04X | Pimax_BSAW.py:1278 | `"%04X"` gives at least four hex digits |
| Uuid.FromDigits | Pimax_BSAW.py:1288-1293 | success exactly when the digits decode to 16 bytes, which it then holds with the given common name; NotHex exactly when they do not decode; WrongLength carries the decoded length |
| Uuid.Create | Pimax_BSAW.py:1271-1293 | an integer is refused exactly when outside 0..0xFFFFFFFF; otherwise success exactly when the dash-free, expanded text decodes to 16 bytes, and NotHex exactly when it does not decode |
| Uuid.LongFormText | Pimax_BSAW.py:1272-1288 | text of 32 hex digits is accepted with its dashes anywhere, and holds those digits' bytes |
| Uuid.IntOutOfRange | Pimax_BSAW.py:1274-1277 | a negative or too large integer raises the short-form error |
| Uuid.ShortFormText | Pimax_BSAW.py:1284-1288 | text of at most eight hex digits is padded to eight, followed by the Base UUID tail |
| Uuid.ShortFormInt | Pimax_BSAW.py:1274-1288 | an integer becomes its four big-endian bytes followed by the Base UUID tail |
| Uuid.ToString | Pimax_BSAW.py:1295-1297 | a 16-byte value prints as 36 characters with dashes at positions 8, 13, 18 and 23 |
| Uuid.ToStringDigits | Pimax_BSAW.py:1284-1297 | removing the dashes from the text form gives its 32 hex digits |
| Uuid.TextRoundTrip | Pimax_BSAW.py:1279-1297 | `UUID(str(u))` has the bytes of `u` |
| Uuid.CopyAndEquality | Pimax_BSAW.py:1279-1300 | `UUID(u)` copies the bytes; `UUID(str(u)) == u` |
| Uuid.Equals | Pimax_BSAW.py:1299-1300 | fails exactly when `UUID(other)` raises, with its error; against a 16-byte UUID, true exactly when the bytes are equal |
| Uuid.ToStringShortForm | Pimax_BSAW.py:1286-1297 | a value that came from a short form prints as its first eight digits and `-0000-1000-8000-00805f9b34fb` |
| Uuid.ShortIntText | Pimax_BSAW.py:1274-1297 | the text form of `UUID(n)` is the hex of `n`'s four bytes and the Base suffix |
| Uuid.CommonNameShortForm | Pimax_BSAW.py:1305-1311 | the common name drops the Base tail, and a leading "0000" as well |
| Uuid.CommonNameOf16Bit | Pimax_BSAW.py:1305-1311 | the common name of `UUID(n)` for a 16-bit `n` is four lower-case digits denoting `n` |
| Uuid.CommonName | Pimax_BSAW.py:1305-1311 | four, eight or 36 characters; the whole 36-character text exactly when it does not end like the Base UUID |
| Uuid.V2CommandCharacteristic | Pimax_BSAW.py:562-563 | `str(UUID(0x12))` is `00000012-0000-1000-8000-00805f9b34fb` |
| Uuid.EncodeValue | Pimax_BSAW.py:1296 | the hex text denotes the number the bytes denote |
| ErrorWindow.Logged | Pimax_BSAW.py:507-517 | the queue gets `now` appended, and is emptied exactly when it reaches 20 entries; it never holds 20 |
| ErrorWindow.Noted | Pimax_BSAW.py:514-516 | the latch is set by the first overflow and never cleared |
| ErrorWindow.LogAll | Pimax_BSAW.py:500-517 | a run of errors shows at most one notice; the latch ends set exactly when it was set before or the notice was shown; after any error the window holds fewer than 20 entries; no error changes nothing |
| ErrorWindow.LogAllFromEmpty | Pimax_BSAW.py:500-517 | k errors from an empty window leave k mod 20 entries and show exactly one notice once k >= 20 |
| ErrorWindow.LatchedIsSilent | Pimax_BSAW.py:514-516 | once latched, no further error shows a notice |
| ErrorWindow.Purge | Pimax_BSAW.py:493-498 | the purged window keeps no entry older than 180 seconds and never grows |
| ErrorWindow.PurgeKeepsFresh | Pimax_BSAW.py:493-498 | the purge keeps every fresh entry as often as it occurs and drops every stale one |
| ErrorWindow.PurgeFreshIsIdentity | Pimax_BSAW.py:493-498 | a window with no stale entries is left unchanged |
| ErrorWindow.RemoveFirst | Pimax_BSAW.py:498 | `list.remove` drops exactly one occurrence, the first: the result is the list without its element at the first position holding the value |
| ErrorWindow.PurgeFrom | Pimax_BSAW.py:496-498 | the walk from position i never lengthens the list, and leaves it unchanged when no entry from i on is stale |
| ErrorWindow.PurgeAsWritten | Pimax_BSAW.py:493-498 | the purge as written never lengthens the window, and leaves a window with no stale entry unchanged |
| ErrorWindow.PurgeFromOnlyRemovesStale | Pimax_BSAW.py:496-498 | the loop as written removes only stale entries, from any position on |
| ErrorWindow.PurgeAsWrittenOnlyRemovesStale | Pimax_BSAW.py:493-498 | the purge as written removes only stale entries and adds none |
| ErrorWindow.PurgeAsWrittenKeepsStale | Pimax_BSAW.py:496-498 | the purge as written keeps the second of two stale entries; the intended purge drops both |
| StationLogic.SetStatus | Pimax_BSAW.py:594-628 | the status and exactly the flags it implies (discovered, standby, ping, wakeup); nothing else |
| StationLogic.SetStatusIdempotent | Pimax_BSAW.py:594-628 | setting a status twice is setting it once |
| StationLogic.SetSerial | Pimax_BSAW.py:534-551 | 0 forgets MAC, hex forms, pairing and status; any other serial derives `hex(sn)` and the short id; nothing else changes |
| StationLogic.SetSerialForgets | Pimax_BSAW.py:534-551 | the short id is "N/A" exactly for serial 0 |
| StationLogic.ShortIdNotPlaceholder | Pimax_BSAW.py:551 | a short id never reads "N/A" |
| StationLogic.LastPyHexChars | Pimax_BSAW.py:551 | `hex(sn)[-4:]` has at least three characters, each a hex digit, 'x' or '-' |
| StationLogic.ShortIdDigits | Pimax_BSAW.py:551 | for a serial of four or more digits the short id is four upper-case hex digits denoting the serial mod 0x10000 |
| StationLogic.LastOfPyHex | Pimax_BSAW.py:551 | `hex(sn)[-4:]` is the last four digits of the serial |
| StationLogic.SetPairing | Pimax_BSAW.py:553-568 | the MAC, version 2 or 1 with its command characteristic, status Discovered, the wakeup flag cleared; no other field changes |
| StationLogic.SetPairingLastWins | Pimax_BSAW.py:553-568 | pairing twice is pairing with the second answer |
| StationLogic.SetLock | Pimax_BSAW.py:570-576 | only the lock changes, and `islocked` is cleared |
| StationLogic.SetAction | Pimax_BSAW.py:578-589 | Standby is exactly `setstatus("Standby")`: the standby status and flags, the action kept; anything else requests a Wakeup due at once and changes nothing but the action, the clock and the standby and wakeup flags |
| StationLogic.SetMode | Pimax_BSAW.py:591-592 | only the mode changes |
| StationLogic.Initial | Pimax_BSAW.py:189-255 | a new worker has no serial (setting serial 0 changes nothing), no errors, no disconnects, no link, and its clock at `now` |
| StationLogic.ShortId | Pimax_BSAW.py:551 | the short id is three or four characters |
| StationLogic.GetTray | Pimax_BSAW.py:630-637 | the label, " [" and the short id first and "]" last; once a serial is known `:status]` ends it; the length is that of label and short id plus 3, or plus the status and 4, so nothing else is in between |
| StationLogic.PreLoop | Pimax_BSAW.py:370-408 | the gate changes only the action, and only to the forced Standby when it proceeds; it quits only when quitting with a MAC; it proceeds only with a MAC and either a standby pending on a connected station or, not quitting, the headset connected, no discovery and no lock |
| StationLogic.PreLoopStandbyFirst | Pimax_BSAW.py:376-384 | a pending standby on a connected station proceeds as Standby, even when quitting |
| StationLogic.PreLoopGates | Pimax_BSAW.py:370-408 | exactly when the gate proceeds, exactly when it quits, and that it changes only the forced Standby |
| StationLogic.HeadsetOffNeverProceeds | Pimax_BSAW.py:380-399 | with the headset off and no standby pending, no round proceeds |
| StationLogic.Resolve | Pimax_BSAW.py:414-439 | the previous action is the current one; for an untagged action nothing is executed exactly for Off or for an empty action without the wakeup or ping flag; in Auto the next action is never empty |
| StationLogic.ResolveAt | Pimax_BSAW.py:410-439 | the previous action is the worker's action; Standby executes Standby and moves to Off; the wakeup flag on an untagged action other than Standby and Off executes Wakeup |
| StationLogic.ResolveTagged | Pimax_BSAW.py:418-420 | a tagged action retries the untagged one and keeps it as next |
| StationLogic.ResolveStandbyOff | Pimax_BSAW.py:421-426 | Standby executes and moves to Off; Off executes nothing and moves to Ping only in Auto |
| StationLogic.ResolveWakeupPing | Pimax_BSAW.py:427-439 | a Wakeup or the wakeup flag executes Wakeup, the ping flag Ping, otherwise the action; next is Ping in Auto |
| StationLogic.ResolveIgnoresClock | Pimax_BSAW.py:431-436 | the resolution is the same whatever the time since the last command and the timeout |
| StationLogic.PreAction | Pimax_BSAW.py:410-450 | the previous action returned is the current one |
| StationLogic.PreActionCommand | Pimax_BSAW.py:441-450 | the frame is empty exactly when nothing is executed, and otherwise is the frame of the executed action |
| StationLogic.OnWriteOk | Pimax_BSAW.py:329-341 | after a write the next action is due and the clock is reset; the status is Off after a standby write on a standby request, which it clears, and the served action otherwise, with the wakeup flag cleared; the ping flag is kept on a standby completion and is otherwise as `setstatus` of the served action leaves it; the discovered flag is raised by Discovered; the error window, MAC, serial and its hex forms, version, characteristic, lock, pairing, link, retry wait and disconnect count are kept |
| StationLogic.OnSkip | Pimax_BSAW.py:317-319 | with nothing to send, the status is the served action, and the next action and clock are set; the error window, MAC, serial and its hex forms, version, characteristic, lock, pairing, link, retry wait and disconnect count are kept |
| StationLogic.ProcErr | Pimax_BSAW.py:358-368 | the action back to the failed one, status tagged `-error`, clock reset, one error logged in the window; MAC, serial and its hex forms, version, characteristic, lock and pairing kept |
| StationLogic.ProcErrEffect | Pimax_BSAW.py:358-368 | one error logged, the retry wait 3 or 7 s, a disconnect counted exactly when the link is down, the flag of the failed action cleared, and the pairing, mode and standby request kept |
| StationLogic.ProcErrFrame | Pimax_BSAW.py:358-368 | nothing but the error bookkeeping, the tagged status and its flags changes; a lost link differs from a live one only in the link state, the 7 s wait and the disconnect count |
| StationLogic.TaggedStatus | Pimax_BSAW.py:362 | a tagged status raises no flag, and clears only the flag of its own action |
| StationLogic.Serve | Pimax_BSAW.py:312-347 | a served round proceeds; it fails exactly when a frame was due and the write failed; then the action stays, otherwise it advances to the resolved next; the window is purged as written, and one error is logged exactly when the round failed; the status is the tagged action after a failure, Off after a written standby on a standby request, and the served action otherwise; without a failure the link, disconnect count and retry wait are kept; after one the wait is 3 s on a live link and 7 s on a lost one, which also drops the link and counts a disconnect; MAC, serial and its hex forms, version, characteristic, pairing and lock are always kept |
| StationLogic.Dispatch | Pimax_BSAW.py:317-347 | the same facts for a purged state and a given resolution: the frame skipped, written or failed with the bookkeeping of `bs_proc_err` |
| StationLogic.InnerStep | Pimax_BSAW.py:299-347 | the gate's answer; a round that does not proceed only sets the 25 s pacing and sends nothing; mode, MAC, serial and version are kept |
| StationLogic.OuterStep | Pimax_BSAW.py:274-356 | the gate's answer and nothing sent; the attempt fails exactly when the gate proceeds and the link does not come up; a link that comes up leaves the station connected; a failure drops the link, waits 7 s and counts a disconnect; otherwise the error window and disconnect count are kept |
| StationLogic.KnownActionUntagged | Pimax_BSAW.py:418 | no reachable action carries the error tag |
| StationLogic.ResolveKnown | Pimax_BSAW.py:414-439 | resolving a reachable action yields a reachable next action |
| StationLogic.InitialReachable | Pimax_BSAW.py:247-254 | the initial action and mode are reachable |
| StationLogic.SetActionReachable | Pimax_BSAW.py:578-589 | a request keeps the worker's action and mode reachable |
| StationLogic.InnerStepReachable | Pimax_BSAW.py:299-347 | a connected round keeps them reachable |
| StationLogic.ServeReachable | Pimax_BSAW.py:312-347 | serving keeps them reachable |
| StationLogic.OuterStepReachable | Pimax_BSAW.py:274-356 | an outer round keeps them reachable |
| StationLogic.StandbyCompletes | Pimax_BSAW.py:329-333 | a requested standby on a connected station sends Standby, ends Off with the request cleared and the next action Off |
| StationLogic.WakeupRequestServed | Pimax_BSAW.py:578-589 | after a Wakeup request the next open round sends Wakeup, reports Wakeup, clears the flag and moves on to Ping in Auto |
| StationLogic.LostLinkCounted | Pimax_BSAW.py:342-347 | a failed Ping on a lost link counts a disconnect, waits 7 s, keeps Ping and reports Ping-error |
| Discovery.WordRun | Pimax_BSAW.py:1359 | the longest run of `\w` a string starts with |
| Discovery.MatchGroups | Pimax_BSAW.py:1359 | a match of the `\w+(:\w+)*` groups is a non-empty prefix of word characters and colons |
| Discovery.MacOf | Pimax_BSAW.py:1359 | the MAC match is a non-empty prefix of the advert, of word characters and colons |
| Discovery.FindId | Pimax_BSAW.py:1360 | the id match is four word characters |
| Discovery.ParseWith | Pimax_BSAW.py:1359-1362 | a hit gives a well-formed station of the given version; otherwise the advert cannot be read |
| Discovery.ParseAdvert | Pimax_BSAW.py:1355-1372 | version 1 exactly for "HTC BS" adverts; not a station exactly when neither name occurs |
| Discovery.SeenAsWritten | Pimax_BSAW.py:1363 | the chained test as written holds only when the intended, case-insensitive test does |
| Discovery.AddAsWritten | Pimax_BSAW.py:1363-1366 | the entries are unchanged or get the station appended, and get it appended whenever its MAC is not known yet, ignoring case |
| Discovery.ScanAllAsWritten | Pimax_BSAW.py:1348-1380 | a scan as written only appends after the known entries; an empty scan changes nothing and does not fail |
| Discovery.ScanExtends | Pimax_BSAW.py:1354-1377 | with either duplicate test, a scan only appends to the entries known |
| Discovery.KeyOfFullMac | Pimax_BSAW.py:1363 | for a 17-character MAC the compared prefix is the MAC |
| Discovery.AddInvariant | Pimax_BSAW.py:1363-1366 | adding a station keeps all entries well formed and without duplicate MACs |
| Discovery.ScanAllInvariant | Pimax_BSAW.py:1354-1377 | a scan keeps all entries well formed and without duplicate MACs |
| Discovery.AddTwice | Pimax_BSAW.py:1363-1366 | a station seen again is not added again |
| Discovery.LowerCaseAddedTwice | Pimax_BSAW.py:1363-1366 | the test as written adds a MAC with a lower-case first letter twice |
| Discovery.LowerCaseMacAddedTwice | Pimax_BSAW.py:1363-1366 | `aa:bb:cc:dd:ee:ff` seen twice is added twice as written, once as intended |
| Discovery.SplitRender | Pimax_BSAW.py:1559 | splitting an entry at its spaces gives back MAC, id and version |
| Discovery.SearchBounds | Pimax_BSAW.py:1543-1554 | as written or corrected: at most 20 scans; the loop ends with enough entries or after the 20th; no scan when enough are known; entries are only added |
| Discovery.SearchBy | Pimax_BSAW.py:1543-1554 | the loop counts its scans from `retries` up to at most 20, ends before the 20th only with enough entries, and neither scans nor gives notice once enough are known |
| Discovery.SearchAsWritten | Pimax_BSAW.py:1543-1554 | as written: at most 20 scans, fewer only with enough entries, the known entries kept in front |
| Discovery.Search | Pimax_BSAW.py:1543-1554 | corrected: at most 20 scans, fewer only with enough entries, the known entries kept in front |
| Discovery.SearchGivesUp | Pimax_BSAW.py:1544-1554 | corrected: the give-up notice is shown exactly when stations are still missing at the end |
| Discovery.SearchAsWrittenGivesUp | Pimax_BSAW.py:1544-1554 | as written: the give-up notice is shown exactly when the 20th scan ran |
| Discovery.GiveUpAfterSuccess | Pimax_BSAW.py:1549-1554 | as written, a 20th scan that finds the last station still shows the give-up notice |
| Discovery.NoGiveUpAfterSuccess | Pimax_BSAW.py:1549-1554 | corrected, a 20th scan that finds the last station ends the loop with no notice |
| Discovery.EmptyScansGiveUp | Pimax_BSAW.py:1544-1554 | when the scans find nothing more, the loop runs to the 20th scan and gives up with the entries it has |
| Discovery.DuplicateEndsSearch | Pimax_BSAW.py:1363-1366 | as written, one scan that holds a lower-case MAC's advert twice ends the search for two stations after that scan, with the station entered twice |
| Discovery.DuplicateEnteredOnce | Pimax_BSAW.py:1363-1366 | corrected, the same scan enters the station once, and the loop scans 20 times and gives up |
| Discovery.AfterAfter | Pimax_BSAW.py:1544-1554 | notices shown before a result compose |
| Discovery.SearchStep | Pimax_BSAW.py:1544-1554 | as written or corrected: one scan, the notice of a failed scan, then the rest of the loop |
| Discovery.SearchLast | Pimax_BSAW.py:1549-1554 | the 20th scan ends the loop, with the give-up notice of the variant |
| Discovery.SearchDone | Pimax_BSAW.py:1544 | no scan once enough stations are known |
| Discovery.GaveUpAppend | Pimax_BSAW.py:1549-1554 | notices without a give-up in front do not change whether the loop gave up |
| Discovery.IdMatches | Pimax_BSAW.py:1560 | an entry matches exactly when the upper-cased last characters of its id are the short id |
| Discovery.LastMatch | Pimax_BSAW.py:1558-1563 | the last entry whose id ends with the short id, or none exactly when no entry matches |
| Discovery.PairAll | Pimax_BSAW.py:1557-1563 | with no matching entry the station is unchanged; with one it ends Discovered; serial, its hex forms, paired flag, action, mode, lock, link, errors, clock and disconnect count are kept |
| Discovery.PairAllIsLastMatch | Pimax_BSAW.py:1557-1563 | pairing over all entries is pairing with the last match, and no change without one |
| Discovery.UnpairedNeverMatches | Pimax_BSAW.py:1560 | a station id never ends with "N/A" |
| Discovery.NoSerialNeverPaired | Pimax_BSAW.py:1557-1563 | a station without a serial is never paired by any scan result |
| Discovery.PairedCount | Pimax_BSAW.py:1507-1522 | at most 2, and 0 exactly when the database gave no serial |
| Discovery.StoreNotices | Pimax_BSAW.py:1507-1531 | no notice exactly when the database was read; otherwise the parse-error notice first, and the close-failure notice exactly when the file could not be opened |
| Discovery.Prepared | Pimax_BSAW.py:1497-1522 | locked, MAC cleared, status N/A and not paired; the stored serial set, or the "N/A" placeholder when there is none; nothing else changes |
| Coordinator.ToggleMode | Pimax_BSAW.py:172-184 | the mode becomes Idle exactly from Auto, and Auto otherwise |
| Coordinator.ToggleTwice | Pimax_BSAW.py:172-184 | toggling twice gives back the mode |
| Coordinator.ConfiguredTimeout | Pimax_BSAW.py:145-147 | a configured timeout is taken exactly when it lies within 30..120 s |
| Coordinator.TimeoutStaysBounded | Pimax_BSAW.py:145-147 | from the default of 60 s, the timeout stays within 30..120 s whatever is configured |
| Coordinator.HeadsetReaction | Pimax_BSAW.py:823-833 | a change to On or DEBUG wakes both stations; a change to Off puts both to standby unless it comes from N/A |
| Coordinator.HeadsetConnected | Pimax_BSAW.py:817-822 | On and DEBUG connect, Off disconnects, anything else keeps the flag |
| Coordinator.OnOffAlternate | Pimax_BSAW.py:812-834 | over On/Off reports from On, Off or the initial N/A, wake-ups and standbys strictly alternate, the first undoing the status the run started in (a wake-up from N/A) |
| Controller.BaseStation.constructor | Pimax_BSAW.py:189-255 | the initial worker: status N/A, action Wakeup, locked, no errors, mode Auto |
| Controller.BaseStation.SetStatus | Pimax_BSAW.py:594-628 | the new state is `StationLogic.SetStatus` of the old |
| Controller.BaseStation.SetSerial | Pimax_BSAW.py:534-551 | the new state is `StationLogic.SetSerial` of the old |
| Controller.BaseStation.SetPairing | Pimax_BSAW.py:553-568 | the new state is `StationLogic.SetPairing` of the old |
| Controller.BaseStation.SetLock | Pimax_BSAW.py:570-576 | the new state is `StationLogic.SetLock` of the old |
| Controller.BaseStation.SetAction | Pimax_BSAW.py:578-589 | the new state is `StationLogic.SetAction` of the old |
| Controller.BaseStation.SetMode | Pimax_BSAW.py:591-592 | the new state is `StationLogic.SetMode` of the old |
| Controller.BaseStation.GetTray | Pimax_BSAW.py:630-637 | the tray text of the worker's label and state: the label, " [" and the short id first and "]" last; `:status]` at the end once a serial is known; the length is that of label and short id plus 3, or plus the status and 4 |
| Controller.BaseStation.PreLoop | Pimax_BSAW.py:370-408 | the gate code 0, 1 or 9 and the state `StationLogic.PreLoop` gives |
| Controller.BaseStation.PreAction | Pimax_BSAW.py:410-450 | the frame, previous and next action; the frame is empty exactly when nothing is executed |
| Controller.BaseStation.PurgeErrQue | Pimax_BSAW.py:493-498 | the window becomes `ErrorWindow.PurgeAsWritten` of the old one, the walk of the list iterator over a list it removes from; nothing else changes |
| Controller.BaseStation.LogManyErrors | Pimax_BSAW.py:500-517 | the window, the coordinator's latch and the notices as `ErrorWindow` states them |
| Controller.BaseStation.ProcErr | Pimax_BSAW.py:358-368 | the new state is `StationLogic.ProcErr` of the old, with the latch and notice of `logmanyerrors` |
| Controller.BaseStation.AfterWrite | Pimax_BSAW.py:329-341 | the new state is `StationLogic.OnWriteOk` of the old |
| Controller.BaseStation.AfterSkip | Pimax_BSAW.py:317-319 | the new state is `StationLogic.OnSkip` of the old |
| Controller.BaseStation.Serve | Pimax_BSAW.py:312-347 | the new state and the action sent are those of `StationLogic.Serve`; after a failed write, the coordinator's latch and notices are updated as `logmanyerrors` does on the purged window, and are otherwise unchanged |
| Controller.BaseStation.InnerRound | Pimax_BSAW.py:299-347 | one connected round: the state, gate code and action sent of `StationLogic.InnerStep`; the latch and notices as in `Serve` when the round failed, and otherwise unchanged |
| Controller.BaseStation.OuterRound | Pimax_BSAW.py:274-356 | one outer round: the state and gate code of `StationLogic.OuterStep`; after a failed connection attempt, the latch and notices as `logmanyerrors` updates them, and otherwise unchanged |
| Controller.HeadSet.constructor | Pimax_BSAW.py:719-742 | status N/A, unlocked, not connected |
| Controller.HeadSet.SetStatus | Pimax_BSAW.py:812-834 | the status and connected flag recorded; both stations woken, put to standby or left unchanged as `Coordinator.HeadsetReaction` says |
| Controller.HeadSet.SetLock | Pimax_BSAW.py:790-796 | the lock set, `islocked` cleared, status and connection kept |
| Controller.HeadSet.GetTray | Pimax_BSAW.py:798-803 | the label and " [" first, the status and "]" last, and nothing in between |
| Controller.MainObj.constructor | Pimax_BSAW.py:47-87 | not latched, not quitting, discovery flag set, mode Auto, timeout 60 s, no stations |
| Controller.MainObj.LoadConfiguration | Pimax_BSAW.py:135-154 | a read value is taken as `ConfiguredTimeout` says; an unreadable file stops the program with one notice |
| Controller.MainObj.SetStandby | Pimax_BSAW.py:156-162 | both stations get the Standby request |
| Controller.MainObj.SetWakeup | Pimax_BSAW.py:164-170 | both stations get the Wakeup request |
| Controller.MainObj.SetMode | Pimax_BSAW.py:172-184 | the mode toggled and handed to both stations; nothing else changes |
| Controller.MainObj.BaseScan | Pimax_BSAW.py:1348-1380 | the entries after one scan as `Discovery.ScanAllAsWritten` gives them, with the chained duplicate test; a notice when the scan stopped on an unreadable advert |
| Controller.MainObj.PrepareStations | Pimax_BSAW.py:1490-1531 | both stations prepared from the database, the count of serials, the entries cleared, the database notices |
| Controller.MainObj.ScanUntilFound | Pimax_BSAW.py:1543-1554 | the entries, number of scans and notices of `Discovery.SearchAsWritten`: a duplicate entry counts toward the paired number, and every 20th scan is followed by the give-up notice |
| Controller.MainObj.PairStations | Pimax_BSAW.py:1557-1563 | each station paired as `Discovery.PairAll` says with its own short id |
| Controller.MainObj.RunDiscovery | Pimax_BSAW.py:1490-1573 | with nothing paired: a notice, and the stations stay locked; otherwise scanned as `Discovery.SearchAsWritten` says, paired with the last match, unlocked, discovery flag cleared |

## Left out

- BLE I/O is not modelled: `BleakClient`, `discover()`, `write_gatt_char`, `getsvcs` and the service read-out in `addbs`. The result of a write, whether the link is up, and the adverts each scan returns are parameters.
- Threads, `blelock`, the worker `lock` and every `time.sleep` are not modelled. Each round is one atomic step at one clock reading.
- The clock is not modelled: `time.time()` and `datetime.now()` become a parameter `now` in whole seconds.
- USB polling of the headset (`HeadSet.run`) is not modelled. Its On/Off reports are the arguments of `HeadSet.SetStatus` and `Coordinator.OnOffAlternate`.
- Logging is not modelled, and toasts are not shown. The notices are recorded in `MainObj.notices`; the message texts, beyond their arguments, are not.
- File, JSON and configuration reading are not modelled. The database is modelled as the `Discovery.Store` value, and the configured timeout as an `Option<int>`.
- Only the timeout is taken from the configuration: the USB vendor id and the database path are not modelled.
- `Controller.MainObj.LoadConfiguration` treats reading the configuration as all or nothing. In the source, a file that yields the timeout and then fails on the database path both sets the timeout and stops the program.
- Serials read from the database are whole numbers; a serial of another JSON type is not modelled.
- `bs_version_force` is never set after its initial 0, so `addbs` always uses the advertised version.
- The lighthouse model, manufacturer and firmware fields, `bs_serials`, the `state` attribute, `is_active`, `getlasterrsecs` and the plain getters are not modelled. None of them feeds the modelled logic.
- Exceptions other than those modelled are not modelled. The modelled ones are the unreadable advert in `basescan`, the unreadable or missing database, the unreadable configuration and the `UUID` `ValueError`s. `discover()` raising, `bs_discovery`'s outer handlers and `logmanyerrors`' handler are not.
- `UUID.__hash__` is not modelled.
- `UUID`: a text argument is used as given. `str()` of objects other than text, integers and UUIDs is not modelled.
- `upper()` and `\w` are ASCII only.
- `StationLogic.PreAction`, `Controller.BaseStation.PreAction`, `Controller.BaseStation.Serve` and `Controller.BaseStation.InnerRound` require `Encodable`: nothing is executed, or the executed action's frame can be built. For a version 1 station, a frame serialises the serial for every action but Wakeup and the timeout for every action but Wakeup and Standby (`Pimax_BSAW.py:473-487`), and each must fit its field. Otherwise `to_bytes` raises `OverflowError` at `Pimax_BSAW.py:312`.
- `Controller.BaseStation.InnerRound`: the outer handler catches that `OverflowError` (`Pimax_BSAW.py:353-356`). It runs `bs_proc_err` as for a failed connection, with the link down and the loop's last `prevact`. The model does not capture this path, because its rounds require `Encodable`.
- `StationLogic.PreAction`: its own ensures gives only the previous action. The frame and the next action are stated by `StationLogic.PreActionCommand`.
- `Controller.BaseStation`: the worker's attributes are kept in one record field `st` rather than as separate fields.
- `Controller.HeadSet.SetStatus` and the `MainObj` methods require the two station objects to be distinct, as the program creates them.

## Findings

| source | as written | input that shows it | evidently intended | confidence | as-written member | corrected member |
|---|---|---|---|---|---|---|
| Pimax_BSAW.py:493-498 | `purgeerrque` removes entries from `errque` while iterating over it, so the entry after each removed one is skipped | window `[0, 1]` at time 1000: both are older than 180 s, and `[1]` remains | drop every entry older than 180 s | not executed | ErrorWindow.PurgeAsWrittenKeepsStale | ErrorWindow.Purge |
| Pimax_BSAW.py:1549-1554 | the give-up notice is shown after the 20th scan without testing whether that scan found the missing stations | one station paired, none known, the 20th scan finds it | notify only when stations are still missing | not executed | Discovery.GiveUpAfterSuccess | Discovery.NoGiveUpAfterSuccess |
| Pimax_BSAW.py:1363 | `macs[:17].upper() == mac.upper() in macs` is a chained comparison that also asks for the upper-cased MAC to occur in the entry | an advert from `aa:bb:cc:dd:ee:ff` seen twice is added twice; with two stations paired, one scan holding that advert twice ends the scan loop | skip an entry whose first 17 characters equal the MAC, ignoring case | not executed | Discovery.DuplicateEndsSearch | Discovery.DuplicateEnteredOnce |

The methods in `controller.dfy` and `StationLogic.Serve` run the code as
written: `ErrorWindow.PurgeAsWritten`, `Discovery.AddAsWritten`,
`Discovery.ScanAllAsWritten` and `Discovery.SearchAsWritten`. The
corrected definitions stand beside them as reference definitions, and the
intended property is proved about each.

- `ErrorWindow.Purge` comes with `ErrorWindow.PurgeKeepsFresh`. The
  as-written side is `ErrorWindow.PurgeAsWrittenKeepsStale`.
- `Discovery.Search` comes with `Discovery.SearchGivesUp` and
  `Discovery.NoGiveUpAfterSuccess`. The as-written side is
  `Discovery.SearchAsWrittenGivesUp` and `Discovery.GiveUpAfterSuccess`.
- `Discovery.Add` and `Discovery.ScanAll` come with `Discovery.AddTwice`,
  `Discovery.AddInvariant`, `Discovery.ScanAllInvariant` and
  `Discovery.DuplicateEnteredOnce`. The as-written side is
  `Discovery.LowerCaseAddedTwice` and `Discovery.LowerCaseMacAddedTwice`,
  whose entry has the kind of MAC that `Discovery.DuplicateEndsSearch` requires.
- `Discovery.Search` and `Discovery.SearchAsWritten` are one loop,
  `Discovery.SearchBy`, with a `Discovery.Variant` that selects the
  duplicate test and the give-up notice.
