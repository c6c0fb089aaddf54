/**
 * Hexadecimal text: Python's `hex()`, `"%X"` formatting, `binascii.a2b_hex`
 * (hex text to bytes) and `binascii.b2a_hex` (bytes to lower-case hex text),
 * with the value of a digit string and of a big-endian byte string.
 */
module Hex {
  import opened Text
  import opened Bytes
  import opened Wrappers

  predicate IsHexDigit(c: char) {
    ('0' <= c <= '9') || ('a' <= c <= 'f') || ('A' <= c <= 'F')
  }

  predicate IsLowerHexDigit(c: char) {
    ('0' <= c <= '9') || ('a' <= c <= 'f')
  }

  predicate AllHex(s: string) {
    forall i :: 0 <= i < |s| ==> IsHexDigit(s[i])
  }

  predicate AllLowerHex(s: string) {
    forall i :: 0 <= i < |s| ==> IsLowerHexDigit(s[i])
  }

  /** The digit for `d`, in lower or upper case. */
  function Digit(d: nat, upper: bool): (c: char)
    requires d < 16
    ensures IsHexDigit(c) && (!upper ==> IsLowerHexDigit(c))
  {
    if d < 10 then ('0' as int + d) as char
    else if upper then ('A' as int + d - 10) as char
    else ('a' as int + d - 10) as char
  }

  /** The value of one hex digit of either case. */
  function DigitValue(c: char): (v: nat)
    requires IsHexDigit(c)
    ensures v < 16
  {
    if '0' <= c <= '9' then c as int - '0' as int
    else if 'a' <= c <= 'f' then c as int - 'a' as int + 10
    else c as int - 'A' as int + 10
  }

  lemma DigitRoundTrip(d: nat, upper: bool)
    requires d < 16
    ensures DigitValue(Digit(d, upper)) == d
  {
  }

  /** The hex digits of `n`, most significant first, without leading zeros
      (Python `format(n, "x")`, or `"X"` when `upper`). */
  function NatToHex(n: nat, upper: bool): (s: string)
    ensures |s| >= 1 && AllHex(s)
    ensures !upper ==> AllLowerHex(s)
    decreases n
  {
    (if n < 16 then [] else NatToHex(n / 16, upper)) + [Digit(n % 16, upper)]
  }

  /** Python `hex(n)`: "0x" and lower-case digits, "-0x" for a negative `n`. */
  function PyHex(n: int): (s: string)
    ensures |s| >= 3
  {
    if n < 0 then "-0x" + NatToHex(-n, false) else "0x" + NatToHex(n, false)
  }

  /** The number a string of hex digits denotes, most significant digit first. */
  function HexValue(s: string): nat
    requires AllHex(s)
  {
    if s == [] then 0 else HexValue(s[..|s| - 1]) * 16 + DigitValue(s[|s| - 1])
  }

  lemma HexValueSnoc(p: string, c: char)
    requires AllHex(p) && IsHexDigit(c)
    ensures AllHex(p + [c])
    ensures HexValue(p + [c]) == HexValue(p) * 16 + DigitValue(c)
  {
    assert (p + [c])[..|p|] == p;
  }

  function Pow16(k: nat): (p: nat)
    ensures p >= 1
  {
    if k == 0 then 1 else 16 * Pow16(k - 1)
  }

  lemma {:induction false} NatToHexValue(n: nat, upper: bool)
    ensures HexValue(NatToHex(n, upper)) == n
    decreases n
  {
    var p := if n < 16 then [] else NatToHex(n / 16, upper);
    var c := Digit(n % 16, upper);
    assert NatToHex(n, upper) == p + [c];
    if n >= 16 {
      NatToHexValue(n / 16, upper);
    }
    assert HexValue(p) == n / 16;
    HexValueSnoc(p, c);
    DigitRoundTrip(n % 16, upper);
    assert n == (n / 16) * 16 + n % 16;
  }

  lemma {:induction false} NatToHexLength(n: nat, k: nat, upper: bool)
    requires 1 <= k && n < Pow16(k)
    ensures |NatToHex(n, upper)| <= k
    decreases k
  {
    if n >= 16 {
      assert Pow16(k) == 16 * Pow16(k - 1) && Pow16(0) == 1;
      assert k >= 2;
      assert n / 16 < Pow16(k - 1);
      NatToHexLength(n / 16, k - 1, upper);
    }
  }

  lemma Pow16Small()
    ensures Pow16(3) == 0x1000 && Pow16(4) == 0x1_0000
  {
    assert Pow16(2) == 0x100;
  }

  /** A 32-bit number has at most eight hex digits. */
  lemma NatToHexAtMost8(n: nat, upper: bool)
    requires n <= 0xFFFF_FFFF
    ensures |NatToHex(n, upper)| <= 8
  {
    assert Pow16(8) == 0x1_0000_0000 by {
      assert Pow16(4) == 0x1_0000;
    }
    NatToHexLength(n, 8, upper);
  }

  /** A number of at least `16^(k-1)` has at least `k` hex digits. */
  lemma {:induction false} NatToHexLengthAtLeast(n: nat, k: nat, upper: bool)
    requires 1 <= k && Pow16(k - 1) <= n
    ensures |NatToHex(n, upper)| >= k
    decreases k
  {
    if k > 1 {
      assert Pow16(k - 1) == 16 * Pow16(k - 2);
      assert n / 16 >= Pow16(k - 2);
      NatToHexLengthAtLeast(n / 16, k - 1, upper);
      assert NatToHex(n, upper) == NatToHex(n / 16, upper) + [Digit(n % 16, upper)];
    }
  }

  lemma ModUnique(a: int, d: int, t: int, x: int)
    requires d > 0 && 0 <= x < d && a == d * t + x
    ensures a / d == t && a % d == x
  {
    var q, r := a / d, a % d;
    assert a == d * q + r;
    if q > t {
      assert d * q >= d * (t + 1) by { MulMono(d, t + 1, q); }
      assert false;
    } else if q < t {
      assert d * t >= d * (q + 1) by { MulMono(d, q + 1, t); }
      assert false;
    }
  }

  lemma MulMono(d: int, x: int, y: int)
    requires d > 0 && x <= y
    ensures d * x <= d * y
  {
  }

  /** Taking the last digit off and the rest modulo `m`, then putting the digit back. */
  lemma ModStep(a: nat, m: nat)
    requires m >= 1
    ensures (a / 16) % m * 16 + a % 16 == a % (16 * m)
  {
    var q, r := a / 16, a % 16;
    var t, u := q / m, q % m;
    assert a == 16 * q + r;
    assert q == m * t + u;
    assert a == (16 * m) * t + (16 * u + r);
    ModUnique(a, 16 * m, t, 16 * u + r);
  }

  /** The last `k` digits of `n` denote `n` modulo `16^k`. */
  lemma {:induction false} NatToHexLowDigits(n: nat, k: nat, upper: bool)
    requires 1 <= k <= |NatToHex(n, upper)|
    ensures AllHex(NatToHex(n, upper)[|NatToHex(n, upper)| - k..])
    ensures HexValue(NatToHex(n, upper)[|NatToHex(n, upper)| - k..]) == n % Pow16(k)
    decreases k
  {
    if k == 1 {
      LowestDigit(n, upper);
    } else {
      NatToHexSnocLength(n, upper);
      NatToHexLowDigits(n / 16, k - 1, upper);
      LowDigitsNext(n, k, upper);
    }
  }

  lemma NatToHexSnocLength(n: nat, upper: bool)
    ensures n < 16 ==> |NatToHex(n, upper)| == 1
    ensures n >= 16 ==> |NatToHex(n, upper)| == |NatToHex(n / 16, upper)| + 1
  {
  }

  lemma LowestDigit(n: nat, upper: bool)
    ensures AllHex(NatToHex(n, upper)[|NatToHex(n, upper)| - 1..])
    ensures HexValue(NatToHex(n, upper)[|NatToHex(n, upper)| - 1..]) == n % Pow16(1)
  {
    var h := NatToHex(n, upper);
    var c := Digit(n % 16, upper);
    DigitRoundTrip(n % 16, upper);
    assert h[|h| - 1..] == [c];
    HexValueSnoc([], c);
    assert [] + [c] == [c];
  }

  /** The inductive step: the low `k - 1` digits of `n / 16` and the digit of `n % 16`. */
  lemma LowDigitsNext(n: nat, k: nat, upper: bool)
    requires 2 <= k <= |NatToHex(n, upper)|
    requires k - 1 <= |NatToHex(n / 16, upper)|
    requires AllHex(NatToHex(n / 16, upper)[|NatToHex(n / 16, upper)| - (k - 1)..])
    requires HexValue(NatToHex(n / 16, upper)[|NatToHex(n / 16, upper)| - (k - 1)..]) == (n / 16) % Pow16(k - 1)
    ensures AllHex(NatToHex(n, upper)[|NatToHex(n, upper)| - k..])
    ensures HexValue(NatToHex(n, upper)[|NatToHex(n, upper)| - k..]) == n % Pow16(k)
  {
    var h := NatToHex(n, upper);
    var c := Digit(n % 16, upper);
    DigitRoundTrip(n % 16, upper);
    var p := NatToHex(n / 16, upper);
    assert h == p + [c];
    SuffixSnoc(p, c, k - 1);
    LowDigitsStep(n, p[|p| - (k - 1)..], c, Pow16(k - 1));
  }

  lemma SuffixSnoc(p: string, c: char, j: nat)
    requires j <= |p|
    ensures (p + [c])[|p| + 1 - (j + 1)..] == p[|p| - j..] + [c]
  {
  }

  /** One more low digit: appending the digit of `n % 16` to the low digits of `n / 16`. */
  lemma LowDigitsStep(n: nat, sp: string, c: char, m: nat)
    requires AllHex(sp) && IsHexDigit(c) && m >= 1
    requires DigitValue(c) == n % 16 && HexValue(sp) == (n / 16) % m
    ensures AllHex(sp + [c]) && HexValue(sp + [c]) == n % (16 * m)
  {
    HexValueSnoc(sp, c);
    ModStep(n, m);
  }

  /** Strings whose digits have the same values, position by position, have the same value. */
  lemma {:induction false} HexValuePointwise(s: string, t: string)
    requires AllHex(s) && AllHex(t) && |s| == |t|
    requires forall i :: 0 <= i < |s| ==> DigitValue(s[i]) == DigitValue(t[i])
    ensures HexValue(s) == HexValue(t)
    decreases |s|
  {
    if s != [] {
      HexValuePointwise(s[..|s| - 1], t[..|t| - 1]);
    }
  }

  /** `upper()` keeps a hex string hex and keeps its value. */
  lemma UpperHexValue(s: string)
    requires AllHex(s)
    ensures AllHex(Upper(s)) && HexValue(Upper(s)) == HexValue(s)
  {
    var u := Upper(s);
    forall i | 0 <= i < |s| ensures IsHexDigit(u[i]) && DigitValue(u[i]) == DigitValue(s[i]) {
      assert u[i] == UpperChar(s[i]);
    }
    HexValuePointwise(s, u);
  }

  lemma {:induction false} HexValueZeros(k: nat)
    ensures AllHex(Repeat('0', k)) && HexValue(Repeat('0', k)) == 0
  {
    if k > 0 {
      var z := Repeat('0', k);
      assert z[..k - 1] == Repeat('0', k - 1);
      HexValueZeros(k - 1);
    }
  }

  /** Leading zeros do not change the value. */
  lemma {:induction false} HexValueZeroPad(k: nat, s: string)
    requires AllHex(s)
    ensures AllHex(Repeat('0', k) + s)
    ensures HexValue(Repeat('0', k) + s) == HexValue(s)
    decreases |s|
  {
    var z := Repeat('0', k);
    if s == [] {
      assert z + s == z;
      HexValueZeros(k);
    } else {
      var t := z + s;
      assert t[..|t| - 1] == z + s[..|s| - 1];
      assert t[|t| - 1] == s[|s| - 1];
      HexValueZeroPad(k, s[..|s| - 1]);
    }
  }

  function ByteOf(hi: char, lo: char): (b: byte)
    requires IsHexDigit(hi) && IsHexDigit(lo)
    ensures b as int == DigitValue(hi) * 16 + DigitValue(lo)
  {
    var v := DigitValue(hi) * 16 + DigitValue(lo);
    ByteValue(v);
    v as byte
  }

  lemma ByteValue(v: nat)
    requires v < 256
    ensures (v as byte) as int == v
  {
  }

  /** `binascii.a2b_hex`: `None` (the source's exception) for an odd length or a non-hex character. */
  function HexDecode(s: string): (r: Option<seq<byte>>)
    ensures r.Some? <==> |s| % 2 == 0 && AllHex(s)
    ensures r.Some? ==> |r.value| == |s| / 2
    decreases |s|
  {
    if s == [] then Some([])
    else if |s| < 2 then None
    else
      var rest := HexDecode(s[..|s| - 2]);
      assert AllHex(s) <==> AllHex(s[..|s| - 2]) && IsHexDigit(s[|s| - 2]) && IsHexDigit(s[|s| - 1]) by {
        if AllHex(s[..|s| - 2]) && IsHexDigit(s[|s| - 2]) && IsHexDigit(s[|s| - 1]) {
          forall i | 0 <= i < |s| ensures IsHexDigit(s[i]) {
            if i < |s| - 2 { assert s[i] == s[..|s| - 2][i]; }
          }
        }
      }
      if !IsHexDigit(s[|s| - 2]) || !IsHexDigit(s[|s| - 1]) || rest.None? then None
      else Some(rest.value + [ByteOf(s[|s| - 2], s[|s| - 1])])
  }

  /** `binascii.b2a_hex`: two lower-case digits per byte. */
  function HexEncode(b: seq<byte>): (s: string)
    ensures |s| == 2 * |b| && AllHex(s) && AllLowerHex(s)
  {
    if b == [] then []
    else HexEncode(b[..|b| - 1]) + [Digit(b[|b| - 1] as int / 16, false), Digit(b[|b| - 1] as int % 16, false)]
  }

  /** The number a byte string denotes, most significant byte first. */
  function BeValue(b: seq<byte>): nat {
    if b == [] then 0 else BeValue(b[..|b| - 1]) * 256 + b[|b| - 1] as int
  }

  lemma EncodeByte(x: byte)
    ensures HexEncode([x]) == [Digit(x as int / 16, false), Digit(x as int % 16, false)]
  {
    assert [x][..0] == [];
  }

  lemma DecodePair(hi: char, lo: char)
    requires IsHexDigit(hi) && IsHexDigit(lo)
    ensures HexDecode([hi, lo]) == Some([ByteOf(hi, lo)])
  {
    var s := [hi, lo];
    assert s[..|s| - 2] == [];
    assert s[|s| - 2] == hi && s[|s| - 1] == lo;
    assert [] + [ByteOf(hi, lo)] == [ByteOf(hi, lo)];
  }

  lemma DecodeSnoc(a: string, hi: char, lo: char)
    requires |a| % 2 == 0 && AllHex(a) && IsHexDigit(hi) && IsHexDigit(lo)
    ensures HexDecode(a + [hi, lo]) == Some(HexDecode(a).value + [ByteOf(hi, lo)])
  {
    var s := a + [hi, lo];
    assert s[..|s| - 2] == a;
    assert s[|s| - 2] == hi && s[|s| - 1] == lo;
  }

  /** Decoding what was encoded gives the bytes back. */
  lemma {:induction false} DecodeEncode(b: seq<byte>)
    ensures HexDecode(HexEncode(b)) == Some(b)
  {
    if b != [] {
      var s := HexEncode(b);
      var last := b[|b| - 1];
      assert s[..|s| - 2] == HexEncode(b[..|b| - 1]);
      DecodeEncode(b[..|b| - 1]);
      DigitRoundTrip(last as int / 16, false);
      DigitRoundTrip(last as int % 16, false);
      assert ByteOf(s[|s| - 2], s[|s| - 1]) == last;
      assert b[..|b| - 1] + [last] == b;
    }
  }

  lemma {:induction false} EncodeConcat(a: seq<byte>, b: seq<byte>)
    ensures HexEncode(a + b) == HexEncode(a) + HexEncode(b)
    decreases |b|
  {
    if b == [] {
      assert a + b == a;
    } else {
      var ab, b', x := a + b, b[..|b| - 1], b[|b| - 1];
      var dx := [Digit(x as int / 16, false), Digit(x as int % 16, false)];
      assert ab[..|ab| - 1] == a + b';
      assert HexEncode(ab) == HexEncode(a + b') + dx;
      assert HexEncode(b) == HexEncode(b') + dx;
      EncodeConcat(a, b');
      assert (HexEncode(a) + HexEncode(b')) + dx == HexEncode(a) + (HexEncode(b') + dx);
    }
  }

  lemma {:induction false} DecodeConcat(a: string, b: string)
    requires |a| % 2 == 0 && |b| % 2 == 0 && AllHex(a) && AllHex(b)
    ensures AllHex(a + b)
    ensures HexDecode(a + b) == Some(HexDecode(a).value + HexDecode(b).value)
    decreases |b|
  {
    assert AllHex(a + b) by {
      forall i | 0 <= i < |a + b| ensures IsHexDigit((a + b)[i]) {
        if i < |a| { assert (a + b)[i] == a[i]; } else { assert (a + b)[i] == b[i - |a|]; }
      }
    }
    if b == [] {
      assert a + b == a;
      assert HexDecode(a).value + HexDecode(b).value == HexDecode(a).value;
    } else {
      var ab := a + b;
      var b' := b[..|b| - 2];
      assert ab[..|ab| - 2] == a + b';
      assert ab[|ab| - 2] == b[|b| - 2] && ab[|ab| - 1] == b[|b| - 1];
      assert AllHex(b') by {
        forall i | 0 <= i < |b'| ensures IsHexDigit(b'[i]) { assert b'[i] == b[i]; }
      }
      DecodeConcat(a, b');
      var x := ByteOf(b[|b| - 2], b[|b| - 1]);
      assert HexDecode(ab) == Some(HexDecode(a + b').value + [x]);
      assert HexDecode(b) == Some(HexDecode(b').value + [x]);
      assert (HexDecode(a).value + HexDecode(b').value) + [x] == HexDecode(a).value + (HexDecode(b').value + [x]);
    }
  }

  /** The bytes `a2b_hex` produces denote the number the digits denote. */
  lemma {:induction false} DecodeValue(s: string)
    requires |s| % 2 == 0 && AllHex(s)
    ensures BeValue(HexDecode(s).value) == HexValue(s)
    decreases |s|
  {
    if s != [] {
      var s' := s[..|s| - 2];
      assert AllHex(s') by {
        forall i | 0 <= i < |s'| ensures IsHexDigit(s'[i]) { assert s'[i] == s[i]; }
      }
      DecodeValue(s');
      var b := HexDecode(s).value;
      assert b[..|b| - 1] == HexDecode(s').value;
      assert s[..|s| - 1][..|s| - 2] == s';
      assert s[..|s| - 1][|s| - 2] == s[|s| - 2];
      var hi, lo := DigitValue(s[|s| - 2]), DigitValue(s[|s| - 1]);
      assert b[|b| - 1] as int == hi * 16 + lo;
      calc {
        HexValue(s);
        HexValue(s[..|s| - 1]) * 16 + lo;
        (HexValue(s') * 16 + hi) * 16 + lo;
        HexValue(s') * 256 + (hi * 16 + lo);
      }
    }
  }
}
