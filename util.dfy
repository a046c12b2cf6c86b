/**
 * UUIDs as `bleep/util.py` uses them: Python `uuid.UUID` values viewed
 * through their six `fields`, the Bluetooth Base UUID
 * (Bluetooth Core Specification, Vol 3, Part B, section 2.5.1), the
 * "short" test, and the 8-4-4-4-12 lower-case hexadecimal string that
 * `str()` gives (RFC 4122, section 3) together with the four-character
 * form `shortest_uuid` cuts out of it.
 */
module Util {
  import opened Wrappers

  type U16 = x: nat | x < 0x1_0000
  type U32 = x: nat | x < 0x1_0000_0000
  type U48 = x: nat | x < 0x1_0000_0000_0000

  /** A UUID by its fields, in the order of Python's `UUID.fields`. */
  datatype Uuid = Uuid(
    timeLow: U32,
    timeMid: U16,
    timeHiVersion: U16,
    clockSeqHiVariant: byte,
    clockSeqLow: byte,
    node: U48)

  /** `uuid.fields`, indexable as the source indexes it. */
  function Fields(u: Uuid): (f: seq<nat>)
    ensures |f| == 6
  {
    [u.timeLow, u.timeMid, u.timeHiVersion, u.clockSeqHiVariant, u.clockSeqLow, u.node]
  }

  /** 00000000-0000-1000-8000-00805F9B34FB */
  const BASE_UUID := Uuid(0, 0, 0x1000, 0x80, 0x00, 0x0080_5F9B_34FB)

  /**
   * `is_short_uuid`: fields 1 to 5 agree with the Base UUID; field 0 is not
   * looked at, so a short UUID is the Base UUID with its own `time_low`.
   */
  predicate IsShortUuid(u: Uuid)
    ensures IsShortUuid(u) ==> u == BASE_UUID.(timeLow := u.timeLow)
  {
    var f, g := Fields(BASE_UUID), Fields(u);
    assert (forall x :: 1 <= x < 6 ==> f[x] == g[x]) ==> f[1] == g[1] && f[2] == g[2] && f[3] == g[3] && f[4] == g[4] && f[5] == g[5];
    forall x :: 1 <= x < 6 ==> f[x] == g[x]
  }

  /** Shortness spelled out field by field: only `time_low` is free. */
  lemma IsShortUuidFields(u: Uuid)
    ensures IsShortUuid(u) <==>
      && u.timeMid == 0
      && u.timeHiVersion == 0x1000
      && u.clockSeqHiVariant == 0x80
      && u.clockSeqLow == 0x00
      && u.node == 0x0080_5F9B_34FB
  {
    var f, g := Fields(BASE_UUID), Fields(u);
    if IsShortUuid(u) {
      assert f[1] == g[1] && f[2] == g[2] && f[3] == g[3] && f[4] == g[4] && f[5] == g[5];
    } else {
      var x :| 1 <= x < 6 && f[x] != g[x];
      assert x == 1 || x == 2 || x == 3 || x == 4 || x == 5;
    }
  }

  /** A UUID is short exactly when it is the Base UUID with some `time_low`. */
  lemma ShortIsBaseAlias(u: Uuid)
    ensures IsShortUuid(u) <==> u == BASE_UUID.(timeLow := u.timeLow)
  {
    IsShortUuidFields(u);
  }

  /** The Base UUID is short. */
  lemma BaseIsShort()
    ensures IsShortUuid(BASE_UUID)
  {
    IsShortUuidFields(BASE_UUID);
  }

  /**
   * Every `xxxxxxxx-0000-1000-8000-00805f9b34fb` is short, whatever its
   * `time_low`, including values above 0xFFFF.
   */
  lemma EveryAliasIsShort(t: U32)
    ensures IsShortUuid(BASE_UUID.(timeLow := t))
  {
    IsShortUuidFields(BASE_UUID.(timeLow := t));
  }

  /** Changing `time_low` never changes shortness. */
  lemma ShortIgnoresTimeLow(u: Uuid, t: U32)
    ensures IsShortUuid(u) <==> IsShortUuid(u.(timeLow := t))
  {
    IsShortUuidFields(u);
    IsShortUuidFields(u.(timeLow := t));
  }

  // ---------------------------------------------------------------------
  // Lower-case hexadecimal rendering, as Python's '%0Nx' format gives it.

  function Pow16(n: nat): (p: nat)
    ensures p > 0
  {
    if n == 0 then 1 else 16 * Pow16(n - 1)
  }

  function HexDigit(d: nat): (c: char)
    requires d < 16
  {
    if d < 10 then (('0' as int) + d) as char else (('a' as int) + d - 10) as char
  }

  function DigitValue(c: char): (d: nat)
    ensures d < 16
  {
    if '0' <= c <= '9' then (c as int) - ('0' as int)
    else if 'a' <= c <= 'f' then (c as int) - ('a' as int) + 10
    else 0
  }

  /** The last `w` hexadecimal digits of `n`, most significant first. */
  function Hex(n: nat, w: nat): (s: string)
    ensures |s| == w
  {
    if w == 0 then [] else Hex(n / 16, w - 1) + [HexDigit(n % 16)]
  }

  /** The number a string of hexadecimal digits denotes. */
  function ParseHex(s: string): (n: nat)
    ensures n < Pow16(|s|)
  {
    if s == [] then 0 else ParseHex(s[..|s| - 1]) * 16 + DigitValue(s[|s| - 1])
  }

  /** Rendering a number that fits in `w` digits loses nothing. */
  lemma {:induction false} HexRoundTrip(n: nat, w: nat)
    requires n < Pow16(w)
    ensures ParseHex(Hex(n, w)) == n
  {
    if w > 0 {
      var s := Hex(n, w);
      assert s[..w - 1] == Hex(n / 16, w - 1);
      HexRoundTrip(n / 16, w - 1);
    }
  }

  /** The last `b` digits of a wider rendering are the `b`-digit rendering. */
  lemma {:induction false} HexSuffix(n: nat, a: nat, b: nat)
    ensures Hex(n, a + b)[a..] == Hex(n, b)
  {
    if b > 0 {
      HexSuffix(n / 16, a, b - 1);
      assert Hex(n, a + b) == Hex(n / 16, a + b - 1) + [HexDigit(n % 16)];
    }
  }

  // ---------------------------------------------------------------------
  // str(uuid) and shortest_uuid.

  /** `str(uuid)`: 8-4-4-4-12 lower-case hexadecimal digits. */
  function Str(u: Uuid): (s: string)
    ensures |s| == 36
    ensures s[8] == s[13] == s[18] == s[23] == '-'
  {
    Hex(u.timeLow, 8) + "-" + Hex(u.timeMid, 4) + "-" + Hex(u.timeHiVersion, 4) + "-"
    + Hex(u.clockSeqHiVariant, 2) + Hex(u.clockSeqLow, 2) + "-" + Hex(u.node, 12)
  }

  /** Where each field sits in `str(uuid)`. */
  lemma StrSlices(u: Uuid)
    ensures Str(u)[0..8] == Hex(u.timeLow, 8)
    ensures Str(u)[9..13] == Hex(u.timeMid, 4)
    ensures Str(u)[14..18] == Hex(u.timeHiVersion, 4)
    ensures Str(u)[19..21] == Hex(u.clockSeqHiVariant, 2)
    ensures Str(u)[21..23] == Hex(u.clockSeqLow, 2)
    ensures Str(u)[24..36] == Hex(u.node, 12)
  {
  }

  /** `str` is one-to-one: the string determines every field. */
  lemma StrInjective(u: Uuid, v: Uuid)
    requires Str(u) == Str(v)
    ensures u == v
  {
    StrSlices(u);
    StrSlices(v);
    HexRoundTrip(u.timeLow, 8);
    HexRoundTrip(v.timeLow, 8);
    HexRoundTrip(u.timeMid, 4);
    HexRoundTrip(v.timeMid, 4);
    HexRoundTrip(u.timeHiVersion, 4);
    HexRoundTrip(v.timeHiVersion, 4);
    HexRoundTrip(u.clockSeqHiVariant, 2);
    HexRoundTrip(v.clockSeqHiVariant, 2);
    HexRoundTrip(u.clockSeqLow, 2);
    HexRoundTrip(v.clockSeqLow, 2);
    HexRoundTrip(u.node, 12);
    HexRoundTrip(v.node, 12);
  }

  /**
   * `shortest_uuid`: characters 4 to 8 of `str(uuid)` when short, which are
   * the last four hexadecimal digits of `time_low`, else the whole string.
   */
  function ShortestUuid(u: Uuid): (s: string)
    ensures |s| == if IsShortUuid(u) then 4 else 36
    ensures IsShortUuid(u) ==> s == Hex(u.timeLow, 4)
    ensures !IsShortUuid(u) ==> s == Str(u)
  {
    if IsShortUuid(u) then
      StrSlices(u);
      HexSuffix(u.timeLow, 4, 4);
      Str(u)[4..8]
    else
      Str(u)
  }

  /** Distinct long UUIDs keep distinct names; so do distinct 16-bit aliases. */
  lemma ShortestUuidInjective(u: Uuid, v: Uuid)
    requires ShortestUuid(u) == ShortestUuid(v)
    requires IsShortUuid(u) ==> u.timeLow < 0x1_0000
    requires IsShortUuid(v) ==> v.timeLow < 0x1_0000
    ensures u == v
  {
    if IsShortUuid(u) && IsShortUuid(v) {
      assert Pow16(4) == 0x1_0000;
      HexRoundTrip(u.timeLow, 4);
      HexRoundTrip(v.timeLow, 4);
      ShortIsBaseAlias(u);
      ShortIsBaseAlias(v);
    } else if !IsShortUuid(u) && !IsShortUuid(v) {
      StrInjective(u, v);
    }
  }

  /** The digits of 0x180D, read off one division by 16 at a time. */
  lemma Hex180D()
    ensures Hex(0x180D, 4) == "180d"
  {
    assert HexDigit(0x1) == '1' && HexDigit(0x8) == '8' && HexDigit(0x0) == '0' && HexDigit(0xD) == 'd';
    assert Hex(0x1, 1) == "1";
    assert Hex(0x18, 2) == "18";
    assert Hex(0x180, 3) == "180";
  }

  /** The last four digits of 0x0001180D are those of 0x180D. */
  lemma Hex1180D()
    ensures Hex(0x0001_180D, 4) == "180d"
  {
    assert HexDigit(0x1) == '1' && HexDigit(0x8) == '8' && HexDigit(0x0) == '0' && HexDigit(0xD) == 'd';
    assert Hex(0x11, 1) == "1";
    assert Hex(0x118, 2) == "18";
    assert Hex(0x1180, 3) == "180";
  }

  /**
   * The upper 16 bits of a short UUID's `time_low` do not reach its short
   * form: 0001180d-0000-1000-8000-00805f9b34fb and
   * 0000180d-0000-1000-8000-00805f9b34fb are both shown as "180d".
   */
  lemma ShortestUuidDropsHighBits()
    ensures BASE_UUID.(timeLow := 0x0001_180D) != BASE_UUID.(timeLow := 0x180D)
    ensures ShortestUuid(BASE_UUID.(timeLow := 0x0001_180D)) == ShortestUuid(BASE_UUID.(timeLow := 0x180D)) == "180d"
  {
    var u, v := BASE_UUID.(timeLow := 0x0001_180D), BASE_UUID.(timeLow := 0x180D);
    EveryAliasIsShort(0x0001_180D);
    EveryAliasIsShort(0x180D);
    Hex180D();
    Hex1180D();
  }
}
