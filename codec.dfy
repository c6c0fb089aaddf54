/**
 * The base-station command frame (`BaseStations.build_2_bs_ble_cmd`).
 *
 * Version 2 stations take one byte: 0x00 (sleep) or 0x01 (wake up).
 * Version 1 stations take 20 bytes: a big-endian 16-bit command id, a
 * big-endian 16-bit timeout in seconds, a little-endian 32-bit station id and
 * twelve zero bytes.
 */
module Codec {
  import opened Wrappers
  import opened Bytes

  const CmdIdWakeupV2: byte := 0x01
  const CmdIdSleepV2: byte := 0x00
  /** Declared by the source next to the other ids but never put into a frame. */
  const CmdIdWakeupNoTimeout: int := 0x1200
  const CmdIdWakeupDefaultTimeout: int := 0x1201
  const CmdIdWakeupTimeout: int := 0x1202
  /** The wildcard station id a version 1 Wakeup addresses. */
  const DefaultId: int := 0xffff_ffff
  /** The timeout a version 1 Standby frame carries. */
  const StandbyTimeout: int := 4

  /** The three numbers of a version 1 frame. */
  datatype V1Fields = V1Fields(cmdId: int, timeout: int, deviceId: int)

  /** What `int.to_bytes` accepts for the three fields: otherwise Python raises OverflowError. */
  predicate FieldsFit(f: V1Fields) {
    0 <= f.cmdId < 0x1_0000 && 0 <= f.timeout < 0x1_0000 && 0 <= f.deviceId < 0x1_0000_0000
  }

  function ToByte(v: int): (b: byte)
    requires 0 <= v < 256
    ensures b as int == v
  {
    v as byte
  }

  function BigEndian16(x: int): (b: seq<byte>)
    requires 0 <= x < 0x1_0000
    ensures |b| == 2
  {
    [ToByte(x / 256), ToByte(x % 256)]
  }

  function LittleEndian32(x: int): (b: seq<byte>)
    requires 0 <= x < 0x1_0000_0000
    ensures |b| == 4
  {
    var y := x / 256;
    var z := y / 256;
    [ToByte(x % 256), ToByte(y % 256), ToByte(z % 256), ToByte(z / 256)]
  }

  lemma BigEndian16Value(x: int)
    requires 0 <= x < 0x1_0000
    ensures BigEndian16(x)[0] as int * 256 + BigEndian16(x)[1] as int == x
  {
  }

  lemma LittleEndian32Value(x: int)
    requires 0 <= x < 0x1_0000_0000
    ensures var b := LittleEndian32(x);
      b[0] as int + b[1] as int * 0x100 + b[2] as int * 0x1_0000 + b[3] as int * 0x100_0000 == x
  {
    var y := x / 256;
    var z := y / 256;
    assert x == x % 256 + 256 * y;
    assert y == y % 256 + 256 * z;
    assert z == z % 256 + 256 * (z / 256);
  }

  function Zeros(n: nat): (b: seq<byte>)
    ensures |b| == n && forall i :: 0 <= i < n ==> b[i] == 0
  {
    if n == 0 then [] else [0 as byte] + Zeros(n - 1)
  }

  /** The version 1 byte layout. */
  function EncodeV1(f: V1Fields): (frame: seq<byte>)
    requires FieldsFit(f)
    ensures |frame| == 20
  {
    BigEndian16(f.cmdId) + BigEndian16(f.timeout) + LittleEndian32(f.deviceId) + Zeros(12)
  }

  /** Reads a version 1 frame back: the partner of `EncodeV1`. */
  function DecodeV1(frame: seq<byte>): Option<V1Fields> {
    if |frame| == 20 && forall i :: 8 <= i < 20 ==> frame[i] == 0 then
      Some(V1Fields(frame[0] as int * 256 + frame[1] as int,
                    frame[2] as int * 256 + frame[3] as int,
                    frame[4] as int + frame[5] as int * 0x100
                    + frame[6] as int * 0x1_0000 + frame[7] as int * 0x100_0000))
    else None
  }

  /** Where the bytes of each field sit in a version 1 frame. */
  lemma EncodeV1Layout(f: V1Fields)
    requires FieldsFit(f)
    ensures var e, c, t, d := EncodeV1(f), BigEndian16(f.cmdId), BigEndian16(f.timeout), LittleEndian32(f.deviceId);
      e[0] == c[0] && e[1] == c[1] && e[2] == t[0] && e[3] == t[1] &&
      e[4] == d[0] && e[5] == d[1] && e[6] == d[2] && e[7] == d[3] &&
      forall i :: 8 <= i < 20 ==> e[i] == 0
  {
    var e := EncodeV1(f);
    var z := Zeros(12);
    assert forall i :: 8 <= i < 20 ==> e[i] == z[i - 8];
  }

  lemma DecodeEncodeV1(f: V1Fields)
    requires FieldsFit(f)
    ensures DecodeV1(EncodeV1(f)) == Some(f)
  {
    var e := EncodeV1(f);
    EncodeV1Layout(f);
    BigEndian16Value(f.cmdId);
    BigEndian16Value(f.timeout);
    LittleEndian32Value(f.deviceId);
    var c := e[0] as int * 256 + e[1] as int;
    var t := e[2] as int * 256 + e[3] as int;
    var d := e[4] as int + e[5] as int * 0x100 + e[6] as int * 0x1_0000 + e[7] as int * 0x100_0000;
    assert c == f.cmdId && t == f.timeout && d == f.deviceId;
    assert DecodeV1(e) == Some(V1Fields(c, t, d));
  }

  /** Which fields a version 1 frame carries for an action (Pimax_BSAW.py, lines 474-482). */
  function SelectV1(action: string, sn: int, timeout: int): (r: V1Fields)
    ensures r.cmdId == CmdIdWakeupDefaultTimeout || r.cmdId == CmdIdWakeupTimeout
    ensures r.cmdId == CmdIdWakeupTimeout <==> action == "Standby"
    ensures r.deviceId == (if action == "Wakeup" then DefaultId else sn)
    ensures action != "Wakeup" && action != "Standby" ==> r.timeout == timeout
  {
    if action == "Wakeup" then V1Fields(CmdIdWakeupDefaultTimeout, CmdIdWakeupTimeout, DefaultId)
    else if action == "Standby" then V1Fields(CmdIdWakeupTimeout, StandbyTimeout, sn)
    else V1Fields(CmdIdWakeupDefaultTimeout, timeout, sn)
  }

  /** What the encoder needs of its inputs without raising: a version 1 frame
      serialises the serial unless it is a Wakeup, and the timeout unless it is a
      Wakeup or a Standby. */
  predicate CanBuild(action: string, version: int, sn: int, timeout: int)
    ensures CanBuild(action, version, sn, timeout) <==> version == 2 || FieldsFit(SelectV1(action, sn, timeout))
  {
    version == 2 ||
    ((action == "Wakeup" || 0 <= sn < 0x1_0000_0000) &&
     (action == "Wakeup" || action == "Standby" || 0 <= timeout < 0x1_0000))
  }

  /** `build_2_bs_ble_cmd(action)` for a station of protocol `version`, serial `sn`
      and keep-alive timeout `timeout`. */
  function BuildCommand(action: string, version: int, sn: int, timeout: int): (frame: seq<byte>)
    requires CanBuild(action, version, sn, timeout)
    ensures |frame| == (if version == 2 then 1 else 20)
  {
    if version == 2 then
      [if action == "Standby" || action == "Off" then CmdIdSleepV2 else CmdIdWakeupV2]
    else
      EncodeV1(SelectV1(action, sn, timeout))
  }

  /** A version 2 frame is one byte, the sleep id exactly for Standby and Off. */
  lemma V2Frame(action: string, sn: int, timeout: int)
    ensures |BuildCommand(action, 2, sn, timeout)| == 1
    ensures BuildCommand(action, 2, sn, timeout)[0] == CmdIdSleepV2 <==> action == "Standby" || action == "Off"
    ensures BuildCommand(action, 2, sn, timeout)[0] == CmdIdWakeupV2 <==> action != "Standby" && action != "Off"
  {
  }

  /** A version 1 Wakeup keeps the default-timeout command id, puts 0x1202 in the
      timeout field and addresses the wildcard id, whatever the serial and timeout. */
  lemma V1Wakeup(version: int, sn: int, timeout: int)
    requires version != 2
    ensures DecodeV1(BuildCommand("Wakeup", version, sn, timeout))
         == Some(V1Fields(0x1201, 0x1202, 0xffff_ffff))
  {
    DecodeEncodeV1(SelectV1("Wakeup", sn, timeout));
  }

  /** A version 1 Standby uses command id 0x1202, a 4 second timeout and the own serial. */
  lemma V1Standby(version: int, sn: int, timeout: int)
    requires version != 2 && 0 <= sn < 0x1_0000_0000
    ensures DecodeV1(BuildCommand("Standby", version, sn, timeout)) == Some(V1Fields(0x1202, 4, sn))
  {
    DecodeEncodeV1(SelectV1("Standby", sn, timeout));
  }

  /** Every other action uses command id 0x1201, the configured timeout and the own serial. */
  lemma V1Other(action: string, version: int, sn: int, timeout: int)
    requires version != 2 && action != "Wakeup" && action != "Standby"
    requires 0 <= sn < 0x1_0000_0000 && 0 <= timeout < 0x1_0000
    ensures DecodeV1(BuildCommand(action, version, sn, timeout)) == Some(V1Fields(0x1201, timeout, sn))
  {
    DecodeEncodeV1(SelectV1(action, sn, timeout));
  }

  /** Command id 0x1200 (wake up without timeout) never reaches the wire. */
  lemma NoTimeoutIdNeverSent(action: string, version: int, sn: int, timeout: int)
    requires CanBuild(action, version, sn, timeout) && version != 2
    ensures DecodeV1(BuildCommand(action, version, sn, timeout)).Some?
    ensures DecodeV1(BuildCommand(action, version, sn, timeout)).value.cmdId != CmdIdWakeupNoTimeout
  {
    DecodeEncodeV1(SelectV1(action, sn, timeout));
  }
}
