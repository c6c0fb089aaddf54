/**
 * The `UUID` value type: parsing from an integer, from text or from another
 * UUID, the 8-4-4-4-12 text form and the common (short) name.  A short form
 * (at most eight hex digits) is expanded with the Bluetooth Base UUID
 * 00000000-0000-1000-8000-00805F9B34FB (Bluetooth Core Specification,
 * Volume 3, Part B, section 2.5.1).
 */
module Uuid {
  import opened Wrappers
  import opened Bytes
  import opened Text
  import opened Hex

  /** `binVal` holds 16 bytes in every value `Create` returns. */
  datatype Uuid = Uuid(binVal: seq<byte>, commonName: Option<string>)

  /** What the constructor accepts: an integer, text, or another UUID. */
  datatype UuidArg = FromInt(n: int) | FromText(s: string) | FromUuid(u: Uuid)

  /** The source's ValueError cases (the odd-length and non-hex errors of `a2b_hex` are one case here). */
  datatype UuidError = ShortFormOutOfRange | NotHex | WrongLength(len: nat)

  /** The last 96 bits of the Base UUID, as the source appends them. */
  const BaseTail: string := "00001000800000805F9B34FB"
  const BaseTailBytes: seq<byte> := [0x00, 0x00, 0x10, 0x00, 0x80, 0x00, 0x00, 0x80, 0x5F, 0x9B, 0x34, 0xFB]
  /** How the text form of a Base-UUID-derived value ends. */
  const BaseSuffix: string := "-0000-1000-8000-00805f9b34fb"

  /** `"%04X" % n`: upper-case hex, at least four digits. */
  function Format04X(n: nat): (s: string)
    ensures AllHex(s) && |s| >= 4
  {
    var d := NatToHex(n, true);
    if |d| < 4 then Repeat('0', 4 - |d|) + d else d
  }

  /** `__str__`: lower-case hex in groups of 8-4-4-4-12 joined by '-'. */
  function ToString(u: Uuid): (r: string)
    ensures |u.binVal| == 16 ==> |r| == 36
    ensures |u.binVal| == 16 ==> r[8] == '-' && r[13] == '-' && r[18] == '-' && r[23] == '-'
  {
    var h := HexEncode(u.binVal);
    if |h| == 32 then (DashedExact(h); Dashed(h)) else Dashed(h)
  }

  /** `"-".join([s[0:8], s[8:12], s[12:16], s[16:20], s[20:32]])`. */
  function Dashed(h: string): string {
    Slice(h, 0, 8) + "-" + Slice(h, 8, 12) + "-" + Slice(h, 12, 16) + "-" + Slice(h, 16, 20) + "-" + Slice(h, 20, 32)
  }

  /** The text the constructor works on, before the dashes are removed. */
  function ArgText(val: UuidArg): string
    requires val.FromInt? ==> 0 <= val.n
  {
    match val
    case FromInt(n) => Format04X(n)
    case FromText(s) => s
    case FromUuid(u) => ToString(u)
  }

  /** A short form (at most eight digits) padded to eight, followed by the tail. */
  function Expand(digits: string): string {
    if |digits| <= 8 then Repeat('0', 8 - |digits|) + digits + BaseTail else digits
  }

  /** `a2b_hex` of the expanded digits, and the 16-byte check. */
  function FromDigits(full: string, commonName: Option<string>): (r: Result<Uuid, UuidError>)
    ensures r.Success? ==> |r.value.binVal| == 16 && r.value.commonName == commonName
    ensures r.Success? <==> HexDecode(full).Some? && |HexDecode(full).value| == 16
    ensures r.Success? ==> r.value.binVal == HexDecode(full).value
    ensures r == Failure(NotHex) <==> HexDecode(full).None?
    ensures r.Failure? && r.error.WrongLength? ==> r.error.len == |HexDecode(full).value| != 16
    ensures r != Failure(ShortFormOutOfRange)
  {
    match HexDecode(full)
    case None => Failure(NotHex)
    case Some(b) => if |b| != 16 then Failure(WrongLength(|b|)) else Success(Uuid(b, commonName))
  }

  /** `UUID(val, common_name)`. */
  function Create(val: UuidArg, commonName: Option<string>): (r: Result<Uuid, UuidError>)
    ensures r.Success? ==> |r.value.binVal| == 16 && r.value.commonName == commonName
    ensures val.FromInt? ==> (r == Failure(ShortFormOutOfRange) <==> val.n < 0 || val.n > 0xFFFF_FFFF)
    ensures !val.FromInt? ==> r != Failure(ShortFormOutOfRange)
    ensures r != Failure(ShortFormOutOfRange) ==>
      var full := Expand(RemoveChar(ArgText(val), '-'));
      (r.Success? <==> HexDecode(full).Some? && |HexDecode(full).value| == 16) &&
      (r == Failure(NotHex) <==> HexDecode(full).None?) &&
      (r.Success? ==> r.value.binVal == HexDecode(full).value)
  {
    if val.FromInt? && (val.n < 0 || val.n > 0xFFFF_FFFF) then Failure(ShortFormOutOfRange)
    else FromDigits(Expand(RemoveChar(ArgText(val), '-')), commonName)
  }

  /** `__eq__`: compares the bytes with those of `UUID(other)`, raising what that raises. */
  function Equals(u: Uuid, other: UuidArg): (r: Result<bool, UuidError>)
    ensures r.Failure? <==> Create(other, None).Failure?
    ensures r.Failure? ==> r.error == Create(other, None).error
    ensures other.FromUuid? && |other.u.binVal| == 16 ==> r == Success(u.binVal == other.u.binVal)
  {
    CopyBytes(other);
    match Create(other, None)
    case Success(o) => Success(u.binVal == o.binVal)
    case Failure(e) => Failure(e)
  }

  /** `getCommonName`: the text form, cut to its first eight digits when it ends
      like the Base UUID, and then to four when those start with "0000". */
  function CommonName(u: Uuid): (r: string)
    ensures |u.binVal| == 16 ==> |r| == 4 || |r| == 8 || |r| == 36
    ensures |u.binVal| == 16 ==> (|r| == 36 <==> !EndsWith(ToString(u), BaseSuffix))
  {
    var s := ToString(u);
    if EndsWith(s, BaseSuffix) then
      var t := Slice(s, 0, 8);
      if StartsWith(t, "0000") then t[4..] else t
    else s
  }

  // ---------------------------------------------------------------- the tail

  /** Helper for `DecodeTail`: the first four tail bytes. */
  lemma DecodeTail1()
    ensures HexDecode("00001000") == Some([0x00, 0x00, 0x10, 0x00])
  {
    DecodePair('0', '0');
    assert "00" == ['0', '0'];
    DecodeSnoc("00", '0', '0');
    assert "00" + ['0', '0'] == "0000";
    DecodeSnoc("0000", '1', '0');
    assert "0000" + ['1', '0'] == "000010";
    DecodeSnoc("000010", '0', '0');
    assert "000010" + ['0', '0'] == "00001000";
    assert ByteOf('0', '0') == 0x00 && ByteOf('1', '0') == 0x10;
    assert [0x00 as byte] + [0x00] + [0x10] + [0x00] == [0x00, 0x00, 0x10, 0x00];
  }

  /** Helper for `DecodeTail`: the middle four tail bytes. */
  lemma DecodeTail2()
    ensures HexDecode("80000080") == Some([0x80, 0x00, 0x00, 0x80])
  {
    DecodePair('8', '0');
    assert "80" == ['8', '0'];
    DecodeSnoc("80", '0', '0');
    assert "80" + ['0', '0'] == "8000";
    DecodeSnoc("8000", '0', '0');
    assert "8000" + ['0', '0'] == "800000";
    DecodeSnoc("800000", '8', '0');
    assert "800000" + ['8', '0'] == "80000080";
    assert ByteOf('0', '0') == 0x00 && ByteOf('8', '0') == 0x80;
    assert [0x80 as byte] + [0x00] + [0x00] + [0x80] == [0x80, 0x00, 0x00, 0x80];
  }

  /** Helper for `DecodeTail`: the last four tail bytes. */
  lemma DecodeTail3()
    ensures HexDecode("5F9B34FB") == Some([0x5F, 0x9B, 0x34, 0xFB])
  {
    DecodePair('5', 'F');
    assert "5F" == ['5', 'F'];
    DecodeSnoc("5F", '9', 'B');
    assert "5F" + ['9', 'B'] == "5F9B";
    DecodeSnoc("5F9B", '3', '4');
    assert "5F9B" + ['3', '4'] == "5F9B34";
    DecodeSnoc("5F9B34", 'F', 'B');
    assert "5F9B34" + ['F', 'B'] == "5F9B34FB";
    assert ByteOf('5', 'F') == 0x5F && ByteOf('9', 'B') == 0x9B;
    assert ByteOf('3', '4') == 0x34 && ByteOf('F', 'B') == 0xFB;
    assert [0x5F as byte] + [0x9B] + [0x34] + [0xFB] == [0x5F, 0x9B, 0x34, 0xFB];
  }

  /** The appended tail is the Base UUID's last twelve bytes. */
  lemma DecodeTail()
    ensures AllHex(BaseTail) && |BaseTail| == 24
    ensures HexDecode(BaseTail) == Some(BaseTailBytes)
  {
    var s1, s2, s3 := "00001000", "80000080", "5F9B34FB";
    var b1: seq<byte>, b2: seq<byte>, b3: seq<byte> := [0x00, 0x00, 0x10, 0x00], [0x80, 0x00, 0x00, 0x80], [0x5F, 0x9B, 0x34, 0xFB];
    DecodeTail1();
    DecodeTail2();
    DecodeTail3();
    DecodeConcat(s1, s2);
    DecodeConcat(s1 + s2, s3);
    TailText();
    TailBytes();
  }

  /** Helper: the three pieces of the tail text. */
  lemma TailText()
    ensures "00001000" + "80000080" + "5F9B34FB" == BaseTail
  {
    assert "00001000" + "80000080" == "0000100080000080";
  }

  /** Helper: the three pieces of the tail bytes. */
  lemma TailBytes()
    ensures [0x00, 0x00, 0x10, 0x00] + [0x80, 0x00, 0x00, 0x80] + [0x5F, 0x9B, 0x34, 0xFB] == BaseTailBytes
  {
    var b1: seq<byte>, b2: seq<byte>, b3: seq<byte> := [0x00, 0x00, 0x10, 0x00], [0x80, 0x00, 0x00, 0x80], [0x5F, 0x9B, 0x34, 0xFB];
    assert b1 + b2 == [0x00, 0x00, 0x10, 0x00, 0x80, 0x00, 0x00, 0x80];
  }

  /** Helper: `b2a_hex` of four bytes, byte by byte. */
  lemma Encode4(a: byte, b: byte, c: byte, d: byte)
    ensures HexEncode([a, b, c, d]) == HexEncode([a]) + HexEncode([b]) + HexEncode([c]) + HexEncode([d])
  {
    assert [a, b, c, d] == [a] + [b] + [c] + [d];
    EncodeConcat([a] + [b] + [c], [d]);
    EncodeConcat([a] + [b], [c]);
    EncodeConcat([a], [b]);
  }

  /** Helper for `EncodeTail`: the first four tail bytes. */
  lemma EncodeTail1()
    ensures HexEncode([0x00, 0x00, 0x10, 0x00]) == "00001000"
  {
    Encode4(0x00, 0x00, 0x10, 0x00);
    EncodeByte(0x00);
    EncodeByte(0x10);
  }

  /** Helper for `EncodeTail`: the middle four tail bytes. */
  lemma EncodeTail2()
    ensures HexEncode([0x80, 0x00, 0x00, 0x80]) == "80000080"
  {
    Encode4(0x80, 0x00, 0x00, 0x80);
    EncodeByte(0x00);
    EncodeByte(0x80);
  }

  /** Helper for `EncodeTail`: the last four tail bytes. */
  lemma EncodeTail3()
    ensures HexEncode([0x5F, 0x9B, 0x34, 0xFB]) == "5f9b34fb"
  {
    Encode4(0x5F, 0x9B, 0x34, 0xFB);
    EncodeByte(0x5F);
    assert HexEncode([0x5F]) == "5f";
    EncodeByte(0x9B);
    assert HexEncode([0x9B]) == "9b";
    EncodeByte(0x34);
    assert HexEncode([0x34]) == "34";
    EncodeByte(0xFB);
    assert HexEncode([0xFB]) == "fb";
    assert "5f" + "9b" + "34" + "fb" == "5f9b34fb";
  }

  /** `b2a_hex` of the tail bytes: the lower-case form of the appended tail. */
  lemma EncodeTail()
    ensures HexEncode(BaseTailBytes) == "00001000800000805f9b34fb"
  {
    var t1: seq<byte>, t2: seq<byte>, t3: seq<byte> := [0x00, 0x00, 0x10, 0x00], [0x80, 0x00, 0x00, 0x80], [0x5F, 0x9B, 0x34, 0xFB];
    var s1, s2, s3 := "00001000", "80000080", "5f9b34fb";
    EncodeTail1();
    EncodeTail2();
    EncodeTail3();
    EncodeConcat(t1 + t2, t3);
    EncodeConcat(t1, t2);
    assert BaseTailBytes == t1 + t2 + t3;
    assert s1 + s2 + s3 == "00001000800000805f9b34fb";
  }

  // ------------------------------------------------------------- properties

  /** An integer outside 0..0xFFFFFFFF is refused. */
  lemma IntOutOfRange(n: int, c: Option<string>)
    requires n < 0 || n > 0xFFFF_FFFF
    ensures Create(FromInt(n), c) == Failure(ShortFormOutOfRange)
  {
  }

  /** Text of at most eight hex digits (after the dashes are removed) is the
      short form: left-padded to eight digits, followed by the Base UUID tail. */
  lemma ShortFormText(s: string, c: Option<string>)
    requires var d := RemoveChar(s, '-'); |d| <= 8 && AllHex(d)
    ensures Create(FromText(s), c).Success?
    ensures var b := Create(FromText(s), c).value.binVal;
      BeValue(b[..4]) == HexValue(RemoveChar(s, '-')) && b[4..] == BaseTailBytes
  {
    var d := RemoveChar(s, '-');
    assert Create(FromText(s), c) == FromDigits(Expand(d), c);
    ShortFormDigits(d, c);
  }

  /** Shared step of the short forms: eight padded digits and the tail. */
  lemma ShortFormDigits(d: string, c: Option<string>)
    requires |d| <= 8 && AllHex(d)
    ensures FromDigits(Expand(d), c).Success?
    ensures var b := FromDigits(Expand(d), c).value.binVal;
      BeValue(b[..4]) == HexValue(d) && b[4..] == BaseTailBytes
  {
    var p := Repeat('0', 8 - |d|) + d;
    ExpandDecodes(d);
    var h := HexDecode(p).value;
    var b := h + BaseTailBytes;
    assert HexDecode(Expand(d)) == Some(b) && |b| == 16;
    assert b[..4] == h && b[4..] == BaseTailBytes;
  }

  /** Helper for `ShortFormDigits`: the expanded digits decode to the padded
      digits' four bytes followed by the tail bytes. */
  lemma ExpandDecodes(d: string)
    requires |d| <= 8 && AllHex(d)
    ensures var p := Repeat('0', 8 - |d|) + d;
      AllHex(p) && |p| == 8 && BeValue(HexDecode(p).value) == HexValue(d) &&
      HexDecode(Expand(d)) == Some(HexDecode(p).value + BaseTailBytes)
  {
    var p := Repeat('0', 8 - |d|) + d;
    assert Expand(d) == p + BaseTail;
    HexValueZeroPad(8 - |d|, d);
    DecodeTail();
    DecodeConcat(p, BaseTail);
    DecodeValue(p);
  }

  /** Text holding 32 hex digits once its dashes are removed, wherever the dashes
      stand, is accepted: its bytes are those digits decoded. */
  lemma LongFormText(s: string, c: Option<string>)
    requires var d := RemoveChar(s, '-'); |d| == 32 && AllHex(d)
    ensures Create(FromText(s), c).Success?
    ensures var d := RemoveChar(s, '-'); var b := Create(FromText(s), c).value.binVal;
      Some(b) == HexDecode(d) && BeValue(b) == HexValue(d)
  {
    var d := RemoveChar(s, '-');
    assert Expand(d) == d;
    DecodeValue(d);
  }

  /** An integer in 0..0xFFFFFFFF is the short form of its own value. */
  lemma ShortFormInt(n: int, c: Option<string>)
    requires 0 <= n <= 0xFFFF_FFFF
    ensures Create(FromInt(n), c).Success?
    ensures var b := Create(FromInt(n), c).value.binVal;
      BeValue(b[..4]) == n && b[4..] == BaseTailBytes
  {
    var t := Format04X(n);
    Format04XValue(n);
    HexHasNoDash(t);
    assert Create(FromInt(n), c) == FromDigits(Expand(t), c);
    ShortFormDigits(t, c);
  }

  /** `"%04X" % n` for a 32-bit `n` is at most eight digits denoting `n`. */
  lemma Format04XValue(n: nat)
    requires n <= 0xFFFF_FFFF
    ensures |Format04X(n)| <= 8 && HexValue(Format04X(n)) == n
  {
    var h := NatToHex(n, true);
    NatToHexAtMost8(n, true);
    NatToHexValue(n, true);
    if |h| < 4 {
      HexValueZeroPad(4 - |h|, h);
    }
  }

  /** Hex digits contain no '-', so removing dashes leaves them alone. */
  lemma HexHasNoDash(s: string)
    requires AllHex(s)
    ensures RemoveChar(s, '-') == s
  {
    assert '-' !in s by {
      forall i | 0 <= i < |s| ensures s[i] != '-' { assert IsHexDigit(s[i]); }
    }
    RemoveAbsent(s, '-');
  }

  /** Removing dashes from `a + "-" + b`, where `b` is hex. */
  lemma RemoveDashJoin(a: string, b: string)
    requires AllHex(b)
    ensures RemoveChar(a + "-" + b, '-') == RemoveChar(a, '-') + b
  {
    var ra := RemoveChar(a, '-');
    RemoveDash();
    RemoveConcat(a, "-", '-');
    assert RemoveChar(a + "-", '-') == ra + [];
    RemoveConcat(a + "-", b, '-');
    HexHasNoDash(b);
    assert ra + [] == ra;
  }

  /** Helper: a lone dash is removed. */
  lemma RemoveDash()
    ensures RemoveChar("-", '-') == []
  {
    assert "-"[1..] == [];
  }

  /** Removing the dashes from the 8-4-4-4-12 grouping of 32 hex digits gives the digits back. */
  lemma DashedDigits(h: string)
    requires |h| == 32 && AllHex(h)
    ensures RemoveChar(Dashed(h), '-') == h
  {
    var p0, p1, p2, p3, p4 := h[0..8], h[8..12], h[12..16], h[16..20], h[20..32];
    assert AllHex(p0) && AllHex(p1) && AllHex(p2) && AllHex(p3) && AllHex(p4);
    DashedExact(h);
    RemoveDashes(p0, p1, p2, p3, p4);
    assert p0 + p1 + p2 + p3 + p4 == h;
  }

  lemma RemoveDashes(p0: string, p1: string, p2: string, p3: string, p4: string)
    requires AllHex(p0) && AllHex(p1) && AllHex(p2) && AllHex(p3) && AllHex(p4)
    ensures RemoveChar(p0 + "-" + p1 + "-" + p2 + "-" + p3 + "-" + p4, '-') == p0 + p1 + p2 + p3 + p4
  {
    HexHasNoDash(p0);
    RemoveDashJoin(p0, p1);
    RemoveDashJoin(p0 + "-" + p1, p2);
    RemoveDashJoin(p0 + "-" + p1 + "-" + p2, p3);
    RemoveDashJoin(p0 + "-" + p1 + "-" + p2 + "-" + p3, p4);
  }

  /** Removing the dashes from the text form gives back the 32 hex digits. */
  lemma ToStringDigits(u: Uuid)
    requires |u.binVal| == 16
    ensures RemoveChar(ToString(u), '-') == HexEncode(u.binVal)
  {
    DashedDigits(HexEncode(u.binVal));
  }

  /** `UUID(str(u))` has the bytes of `u`. */
  lemma TextRoundTrip(u: Uuid, c: Option<string>)
    requires |u.binVal| == 16
    ensures Create(FromText(ToString(u)), c) == Success(Uuid(u.binVal, c))
  {
    ToStringDigits(u);
    DecodeEncode(u.binVal);
  }

  /** Helper for `Equals`: `UUID(u)` of a 16-byte `u` copies its bytes. */
  lemma CopyBytes(other: UuidArg)
    ensures other.FromUuid? && |other.u.binVal| == 16 ==> Create(other, None) == Success(Uuid(other.u.binVal, None))
  {
    if other.FromUuid? && |other.u.binVal| == 16 {
      TextRoundTrip(other.u, None);
    }
  }

  /** `UUID(u)` copies the bytes of `u`, and `UUID(str(u)) == u` holds. */
  lemma CopyAndEquality(u: Uuid)
    requires |u.binVal| == 16
    ensures Create(FromUuid(u), None) == Success(Uuid(u.binVal, None))
    ensures Equals(Create(FromText(ToString(u)), None).value, FromUuid(u)) == Success(true)
  {
    CopyBytes(FromUuid(u));
    TextRoundTrip(u, None);
  }

  /** The text form of a Base-UUID-derived value is its first eight digits and the Base suffix. */
  lemma ToStringShortForm(b4: seq<byte>, c: Option<string>)
    requires |b4| == 4
    ensures ToString(Uuid(b4 + BaseTailBytes, c)) == HexEncode(b4) + BaseSuffix
  {
    EncodeConcat(b4, BaseTailBytes);
    EncodeTail();
    DashedShort(HexEncode(b4));
  }

  lemma DashedExact(h: string)
    requires |h| == 32
    ensures Dashed(h) == h[0..8] + "-" + h[8..12] + "-" + h[12..16] + "-" + h[16..20] + "-" + h[20..32]
  {
  }

  lemma DashedShort(e: string)
    requires |e| == 8
    ensures Dashed(e + "00001000800000805f9b34fb") == e + BaseSuffix
  {
    var t1, t2, t3, t4 := "0000", "1000", "8000", "00805f9b34fb";
    TailGroups();
    DashedGroups(e, t1, t2, t3, t4);
  }

  /** Helper: the tail groups, joined plainly and with dashes. */
  lemma TailGroups()
    ensures "0000" + "1000" + "8000" + "00805f9b34fb" == "00001000800000805f9b34fb"
    ensures "-" + "0000" + "-" + "1000" + "-" + "8000" + "-" + "00805f9b34fb" == BaseSuffix
  {
    TailDigits();
    TailDashes();
  }

  /** Helper: the tail groups joined plainly. */
  lemma TailDigits()
    ensures "0000" + "1000" + "8000" + "00805f9b34fb" == "00001000800000805f9b34fb"
  {
    assert "0000" + "1000" == "00001000";
    assert "00001000" + "8000" == "000010008000";
    assert "000010008000" + "00805f9b34fb" == "00001000800000805f9b34fb";
  }

  /** Helper: the tail groups joined with dashes. */
  lemma TailDashes()
    ensures "-" + "0000" + "-" + "1000" + "-" + "8000" + "-" + "00805f9b34fb" == BaseSuffix
  {
    assert "-" + "0000" + "-" + "1000" == "-0000-1000";
    assert "-0000-1000" + "-" + "8000" == "-0000-1000-8000";
    assert "-0000-1000-8000" + "-" + "00805f9b34fb" == BaseSuffix;
  }

  /** Helper: dashing the 32 digits puts a dash between the five groups. */
  lemma DashedGroups(e: string, t1: string, t2: string, t3: string, t4: string)
    requires |e| == 8 && |t1| == 4 && |t2| == 4 && |t3| == 4 && |t4| == 12
    ensures Dashed(e + (t1 + t2 + t3 + t4)) == e + ("-" + t1 + "-" + t2 + "-" + t3 + "-" + t4)
  {
    var h := e + (t1 + t2 + t3 + t4);
    DashedExact(h);
    GroupSlices(e, t1, t2, t3, t4);
    DashAssoc(e, "-" + t1 + "-" + t2 + "-" + t3, t4);
  }

  /** Helper: the five groups as slices of the digits. */
  lemma GroupSlices(e: string, t1: string, t2: string, t3: string, t4: string)
    requires |e| == 8 && |t1| == 4 && |t2| == 4 && |t3| == 4 && |t4| == 12
    ensures var h := e + (t1 + t2 + t3 + t4);
      h[0..8] == e && h[8..12] == t1 && h[12..16] == t2 && h[16..20] == t3 && h[20..32] == t4
  {
    var t := t1 + t2 + t3 + t4;
    assert t[0..4] == t1 && t[4..8] == t2 && t[8..12] == t3 && t[12..24] == t4;
  }

  /** Helper: regrouping a concatenation. */
  lemma DashAssoc(e: string, m: string, t4: string)
    ensures e + m + "-" + t4 == e + (m + "-" + t4)
  {
  }

  /** `getCommonName` of a Base-UUID-derived value drops the tail, and a leading "0000" too. */
  lemma CommonNameShortForm(b4: seq<byte>, c: Option<string>)
    requires |b4| == 4
    ensures CommonName(Uuid(b4 + BaseTailBytes, c))
         == if b4[0] == 0 && b4[1] == 0 then HexEncode(b4[2..]) else HexEncode(b4)
  {
    ToStringShortForm(b4, c);
    var e := HexEncode(b4);
    var s := e + BaseSuffix;
    assert s[|s| - |BaseSuffix|..] == BaseSuffix;
    assert Slice(s, 0, 8) == e;
    ZeroPrefix(b4);
  }

  /** The first four digits are "0000" exactly when the first two bytes are zero. */
  lemma ZeroPrefix(b4: seq<byte>)
    requires |b4| == 4
    ensures StartsWith(HexEncode(b4), "0000") <==> b4[0] == 0 && b4[1] == 0
    ensures HexEncode(b4)[4..] == HexEncode(b4[2..])
  {
    assert b4 == [b4[0], b4[1]] + b4[2..];
    EncodeConcat([b4[0], b4[1]], b4[2..]);
    Encode2(b4[0], b4[1]);
    EncodeByte(b4[0]);
    EncodeByte(b4[1]);
    ZeroByteDigits(b4[0]);
    ZeroByteDigits(b4[1]);
    var e := HexEncode(b4);
    var d := [Digit(b4[0] as int / 16, false), Digit(b4[0] as int % 16, false),
              Digit(b4[1] as int / 16, false), Digit(b4[1] as int % 16, false)];
    assert e[..4] == d;
    assert d == "0000" <==> d[0] == '0' && d[1] == '0' && d[2] == '0' && d[3] == '0';
  }

  lemma Encode2(a: byte, b: byte)
    ensures HexEncode([a, b]) == HexEncode([a]) + HexEncode([b])
  {
    assert [a, b] == [a] + [b];
    EncodeConcat([a], [b]);
  }

  lemma ZeroByteDigits(x: byte)
    ensures (Digit(x as int / 16, false) == '0' && Digit(x as int % 16, false) == '0') <==> x == 0
  {
  }

  /** The Bluetooth value of a 16-bit number: `getCommonName(UUID(n))` is its four
      lower-case digits, so `UUID(0x12)` is called "0012". */
  lemma CommonNameOf16Bit(n: int)
    requires 0 <= n < 0x1_0000
    ensures Create(FromInt(n), None).Success?
    ensures var cn := CommonName(Create(FromInt(n), None).value);
      |cn| == 4 && AllLowerHex(cn) && HexValue(cn) == n
  {
    ShortFormInt(n, None);
    var b := Create(FromInt(n), None).value.binVal;
    var b4 := b[..4];
    assert b == b4 + BaseTailBytes;
    BeValue4(b4);
    CommonNameShortForm(b4, None);
    EncodeValue(b4[2..]);
    BeValue2(b4[2..]);
  }

  lemma BeValue4(b: seq<byte>)
    requires |b| == 4
    ensures BeValue(b) == BeValue(b[..2]) * 0x1_0000 + b[2] as int * 256 + b[3] as int
  {
    assert b[..3][..2] == b[..2];
    assert BeValue(b) == BeValue(b[..3]) * 256 + b[3] as int;
    assert BeValue(b[..3]) == BeValue(b[..2]) * 256 + b[2] as int;
  }

  lemma BeValue2(b: seq<byte>)
    requires |b| == 2
    ensures BeValue(b) == b[0] as int * 256 + b[1] as int
  {
    assert b[..1][..0] == [];
    assert BeValue(b) == BeValue(b[..1]) * 256 + b[1] as int;
    assert BeValue(b[..1]) == BeValue(b[..1][..0]) * 256 + b[0] as int;
  }

  /** The digits `b2a_hex` writes denote the number the bytes denote. */
  lemma EncodeValue(b: seq<byte>)
    ensures HexValue(HexEncode(b)) == BeValue(b)
  {
    DecodeEncode(b);
    DecodeValue(HexEncode(b));
  }

  /** The text form of `UUID(n)` for an integer `n`: its four bytes in hex, then the Base suffix. */
  lemma ShortIntText(n: int, c: Option<string>)
    requires 0 <= n <= 0xFFFF_FFFF
    ensures Create(FromInt(n), c).Success?
    ensures var b := Create(FromInt(n), c).value.binVal;
      BeValue(b[..4]) == n && ToString(Create(FromInt(n), c).value) == HexEncode(b[..4]) + BaseSuffix
  {
    ShortFormInt(n, c);
    var u := Create(FromInt(n), c).value;
    assert u.binVal == u.binVal[..4] + BaseTailBytes;
    ToStringShortForm(u.binVal[..4], c);
    assert u == Uuid(u.binVal[..4] + BaseTailBytes, c);
  }

  /** The command characteristic of a version 2 station, `str(UUID(0x12))`. */
  lemma V2CommandCharacteristic(n: int)
    requires n == 0x12
    ensures Create(FromInt(n), None).Success?
    ensures ToString(Create(FromInt(n), None).value) == "00000012-0000-1000-8000-00805f9b34fb"
  {
    SmallIntText(n);
    SmallText();
  }

  /** Helper for `V2CommandCharacteristic`: the text form of `UUID(0x12)` in pieces. */
  lemma SmallIntText(n: int)
    requires n == 0x12
    ensures Create(FromInt(n), None).Success?
    ensures ToString(Create(FromInt(n), None).value) == HexEncode([0, 0, 0, 0x12]) + BaseSuffix
  {
    ShortIntText(n, None);
    var b := Create(FromInt(n), None).value.binVal;
    SmallValueBytes(b[..4]);
  }

  /** Helper for `V2CommandCharacteristic`: the pieces joined. */
  lemma SmallText()
    ensures HexEncode([0, 0, 0, 0x12]) + BaseSuffix == "00000012-0000-1000-8000-00805f9b34fb"
  {
    EncodeSmall();
    SuffixHalves();
    SmallFront();
    SmallBack();
  }

  /** Helper: the Base suffix in two halves. */
  lemma SuffixHalves()
    ensures "-0000-1000" + "-8000-00805f9b34fb" == BaseSuffix
  {
  }

  /** Helper: joining the first half. */
  lemma SmallFront()
    ensures "00000012" + "-0000-1000" == "00000012-0000-1000"
  {
  }

  /** Helper: joining the second half. */
  lemma SmallBack()
    ensures "00000012-0000-1000" + "-8000-00805f9b34fb" == "00000012-0000-1000-8000-00805f9b34fb"
  {
  }

  /** Helper: the only four big-endian bytes denoting 0x12. */
  lemma SmallValueBytes(b4: seq<byte>)
    requires |b4| == 4 && BeValue(b4) == 0x12
    ensures b4 == [0, 0, 0, 0x12]
  {
    BeValue4(b4);
    BeValue2(b4[..2]);
    var hi := BeValue(b4[..2]);
    assert b4[2] as int * 256 + b4[3] as int < 0x1_0000;
    assert hi == 0;
    assert b4[2] as int * 256 + b4[3] as int == 0x12;
    assert b4[0] as int * 256 + b4[1] as int == 0;
  }

  /** Helper: `b2a_hex` of the four bytes of 0x12. */
  lemma EncodeSmall()
    ensures HexEncode([0, 0, 0, 0x12]) == "00000012"
  {
    Encode4(0, 0, 0, 0x12);
    EncodeByte(0);
    EncodeByte(0x12);
  }
}
