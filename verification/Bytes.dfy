// Bytes and little-endian integers.
module Bytes {
  import opened Prelude

  type byte = bv8

  function Bit(b: byte, mask: byte): int {
    if b & mask != 0 then 1 else 0
  }

  function Put(digit: int, mask: byte): byte {
    if digit == 1 then mask else 0
  }

  function Pack(d0: int, d1: int, d2: int, d3: int, d4: int, d5: int, d6: int, d7: int): byte {
    Put(d0, 0x01) | Put(d1, 0x02) | Put(d2, 0x04) | Put(d3, 0x08)
    | Put(d4, 0x10) | Put(d5, 0x20) | Put(d6, 0x40) | Put(d7, 0x80)
  }

  /** `n` binary digits of `v`, low digit first. */
  function Digits(v: int, n: nat): (d: seq<int>)
    requires v >= 0
    ensures |d| == n && forall i :: 0 <= i < n ==> Digit(d[i])
  {
    if n == 0 then [] else [v % 2] + Digits(v / 2, n - 1)
  }

  function Weigh(d: seq<int>): int {
    if d == [] then 0 else d[0] + 2 * Weigh(d[1..])
  }

  predicate Digit(d: int) {
    d == 0 || d == 1
  }

  function PackDigits(d: seq<int>): byte
    requires |d| == 8
  {
    Pack(d[0], d[1], d[2], d[3], d[4], d[5], d[6], d[7])
  }

  function Bits(b: byte): (d: seq<int>)
    ensures |d| == 8 && forall i :: 0 <= i < 8 ==> Digit(d[i])
  {
    [Bit(b, 0x01), Bit(b, 0x02), Bit(b, 0x04), Bit(b, 0x08), Bit(b, 0x10), Bit(b, 0x20), Bit(b, 0x40), Bit(b, 0x80)]
  }

  function Pow2(n: nat): (p: int)
    ensures p >= 1
  {
    if n == 0 then 1 else 2 * Pow2(n - 1)
  }

  lemma Pow2Eight()
    ensures Pow2(8) == 256
  {
    assert Pow2(4) == 16;
  }

  /** The byte of an integer, `v as u8`. */
  function ByteOf(v: int): byte
    requires 0 <= v < 256
  {
    PackDigits(Digits(v, 8))
  }

  function ValueOf(b: byte): (v: int)
    ensures 0 <= v < 256
  {
    WeighBounds(Bits(b));
    Pow2Eight();
    Weigh(Bits(b))
  }

  lemma {:induction false} WeighBounds(d: seq<int>)
    requires forall i :: 0 <= i < |d| ==> Digit(d[i])
    ensures 0 <= Weigh(d) < Pow2(|d|)
  {
    if d != [] {
      WeighBounds(d[1..]);
    }
  }

  lemma {:induction false} WeighedDigits(v: int, n: nat)
    requires 0 <= v < Pow2(n)
    ensures Weigh(Digits(v, n)) == v
  {
    if n > 0 {
      WeighedDigits(v / 2, n - 1);
    }
  }

  lemma {:induction false} DigitsWeighed(d: seq<int>)
    requires forall i :: 0 <= i < |d| ==> Digit(d[i])
    ensures Weigh(d) >= 0 && Digits(Weigh(d), |d|) == d
  {
    if d != [] {
      DigitsWeighed(d[1..]);
      assert Weigh(d) % 2 == d[0] && Weigh(d) / 2 == Weigh(d[1..]);
    }
  }

  lemma PackedBits(d: seq<int>)
    requires |d| == 8 && forall i :: 0 <= i < 8 ==> Digit(d[i])
    ensures Bits(PackDigits(d)) == d
  {
    hide Pack, Bit;
    PackedBit(d[0], d[1], d[2], d[3], d[4], d[5], d[6], d[7]);
    assert Digit(d[0]) && Digit(d[1]) && Digit(d[2]) && Digit(d[3]);
    assert Digit(d[4]) && Digit(d[5]) && Digit(d[6]) && Digit(d[7]);
  }

  lemma PackedBit(d0: int, d1: int, d2: int, d3: int, d4: int, d5: int, d6: int, d7: int)
    ensures var b := Pack(d0, d1, d2, d3, d4, d5, d6, d7);
      && (Bit(b, 0x01) == 1 <==> d0 == 1) && (Bit(b, 0x02) == 1 <==> d1 == 1)
      && (Bit(b, 0x04) == 1 <==> d2 == 1) && (Bit(b, 0x08) == 1 <==> d3 == 1)
      && (Bit(b, 0x10) == 1 <==> d4 == 1) && (Bit(b, 0x20) == 1 <==> d5 == 1)
      && (Bit(b, 0x40) == 1 <==> d6 == 1) && (Bit(b, 0x80) == 1 <==> d7 == 1)
  {
  }

  lemma Repacked(b: byte)
    ensures PackDigits(Bits(b)) == b
  {
  }

  lemma ByteRoundTrip(v: int)
    requires 0 <= v < 256
    ensures ValueOf(ByteOf(v)) == v
  {
    hide PackDigits, Bits, Weigh, Digits;
    Pow2Eight();
    PackedBits(Digits(v, 8));
    WeighedDigits(v, 8);
  }

  lemma ValueRoundTrip(b: byte)
    ensures ByteOf(ValueOf(b)) == b
  {
    hide PackDigits, Bits, Weigh, Digits;
    DigitsWeighed(Bits(b));
    Repacked(b);
  }

  function Pow256(n: nat): (p: int)
    ensures p >= 1
  {
    if n == 0 then 1 else 256 * Pow256(n - 1)
  }

  /** `to_le_bytes` for an `n`-byte unsigned integer. */
  function LeBytes(x: int, n: nat): (s: seq<byte>)
    requires 0 <= x < Pow256(n)
    ensures |s| == n
  {
    if n == 0 then [] else [ByteOf(x % 256)] + LeBytes(x / 256, n - 1)
  }

  /** `from_le_bytes`. */
  function FromLe(s: seq<byte>): (x: int)
    ensures 0 <= x < Pow256(|s|)
  {
    if s == [] then 0 else ValueOf(s[0]) + 256 * FromLe(s[1..])
  }

  lemma {:induction false} FromLeOfLeBytes(x: int, n: nat)
    requires 0 <= x < Pow256(n)
    ensures FromLe(LeBytes(x, n)) == x
  {
    hide ValueOf, ByteOf;
    if n > 0 {
      ByteRoundTrip(x % 256);
      FromLeOfLeBytes(x / 256, n - 1);
      assert LeBytes(x, n)[1..] == LeBytes(x / 256, n - 1);
    }
  }

  lemma {:induction false} LeBytesOfFromLe(s: seq<byte>)
    ensures LeBytes(FromLe(s), |s|) == s
  {
    hide ValueOf, ByteOf;
    if s != [] {
      LeBytesOfFromLe(s[1..]);
      ValueRoundTrip(s[0]);
      assert FromLe(s) % 256 == ValueOf(s[0]) && FromLe(s) / 256 == FromLe(s[1..]);
    }
  }

  lemma WidthLimits()
    ensures Pow256(2) == U16_LIMIT && Pow256(4) == U32_LIMIT && Pow256(8) == U64_LIMIT
  {
    assert Pow256(1) == 256 && Pow256(2) == 0x1_0000 && Pow256(3) == 0x100_0000 && Pow256(4) == 0x1_0000_0000;
    assert Pow256(5) == 0x100_0000_0000 && Pow256(6) == 0x1_0000_0000_0000 && Pow256(7) == 0x100_0000_0000_0000;
  }

  function U16Bytes(x: u16): (s: seq<byte>)
    ensures |s| == 2
  {
    WidthLimits();
    LeBytes(x, 2)
  }

  function U32Bytes(x: u32): (s: seq<byte>)
    ensures |s| == 4
  {
    WidthLimits();
    LeBytes(x, 4)
  }

  function U64Bytes(x: u64): (s: seq<byte>)
    ensures |s| == 8
  {
    WidthLimits();
    LeBytes(x, 8)
  }

  /** Two's complement of a signed 64-bit integer. */
  function I64Bytes(x: i64): (s: seq<byte>)
    ensures |s| == 8
  {
    U64Bytes(if x < 0 then x + U64_LIMIT else x)
  }

  function U16Of(s: seq<byte>): u16
    requires |s| == 2
  {
    WidthLimits();
    FromLe(s)
  }

  function U32Of(s: seq<byte>): u32
    requires |s| == 4
  {
    WidthLimits();
    FromLe(s)
  }

  function U64Of(s: seq<byte>): u64
    requires |s| == 8
  {
    WidthLimits();
    FromLe(s)
  }

  function I64Of(s: seq<byte>): i64
    requires |s| == 8
  {
    var u := U64Of(s);
    if u >= I64_LIMIT then u - U64_LIMIT else u
  }

  lemma U16RoundTrips(x: u16, s: seq<byte>)
    requires |s| == 2
    ensures U16Of(U16Bytes(x)) == x && U16Bytes(U16Of(s)) == s
  {
    WidthLimits();
    FromLeOfLeBytes(x, 2);
    LeBytesOfFromLe(s);
  }

  lemma U32RoundTrips(x: u32, s: seq<byte>)
    requires |s| == 4
    ensures U32Of(U32Bytes(x)) == x && U32Bytes(U32Of(s)) == s
  {
    WidthLimits();
    FromLeOfLeBytes(x, 4);
    LeBytesOfFromLe(s);
  }

  lemma U64RoundTrips(x: u64, s: seq<byte>)
    requires |s| == 8
    ensures U64Of(U64Bytes(x)) == x && U64Bytes(U64Of(s)) == s
  {
    WidthLimits();
    FromLeOfLeBytes(x, 8);
    LeBytesOfFromLe(s);
  }

  lemma I64RoundTrips(x: i64, s: seq<byte>)
    requires |s| == 8
    ensures I64Of(I64Bytes(x)) == x && I64Bytes(I64Of(s)) == s
  {
    U64RoundTrips(if x < 0 then x + U64_LIMIT else x, s);
  }
}
