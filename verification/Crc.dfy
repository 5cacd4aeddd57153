// CRC-32C with the reflected polynomial of section 12.1 of RFC 3720, and why it
// detects every burst of four bytes.
module Crc {
  import opened Bytes

  /** A 32-bit word. */
  datatype Word = Word(bits: bv32)

  const POLYNOMIAL: bv32 := 0x82f6_3b78
  const ONES := Word(0xffff_ffff)

  function Xor(a: Word, b: Word): Word {
    Word(a.bits ^ b.bits)
  }

  function Not(a: Word): Word {
    Word(!a.bits)
  }

  function OfByte(b: byte): Word {
    Word(b as bv32)
  }

  function Half(a: Word): Word {
    Word(a.bits >> 1)
  }

  predicate Odd(a: Word) {
    a.bits & 1 == 1
  }

  /** One step of the shift register. */
  function Step(crc: Word): Word {
    if Odd(crc) then Xor(Half(crc), Word(POLYNOMIAL)) else Half(crc)
  }

  function Steps(crc: Word, n: nat): Word
    decreases n
  {
    if n == 0 then crc else Steps(Step(crc), n - 1)
  }

  /** The register after the bytes of `s`. */
  function Register(crc: Word, s: seq<byte>): Word
    decreases |s|
  {
    if s == [] then crc else Register(Steps(Xor(crc, OfByte(s[0])), 8), s[1..])
  }

  function Crc32c(s: seq<byte>): Word {
    Not(Register(ONES, s))
  }

  /** The nested shift loop of the source. */
  method ComputeCrc32c(s: seq<byte>) returns (checksum: Word)
    ensures checksum == Crc32c(s)
  {
    hide Step, Steps, Register, Xor, Not;
    var crc: bv32 := 0xffff_ffff;
    assert s[0..] == s;
    for i := 0 to |s|
      invariant Register(Word(crc), s[i..]) == Register(ONES, s)
    {
      RegisterNext(Word(crc), s[i..]);
      crc := crc ^ (s[i] as bv32);
      ghost var before := Word(crc);
      for j := 0 to 8
        invariant Steps(Word(crc), 8 - j) == Steps(before, 8)
      {
        var mask: bv32 := 0 - (crc & 1);
        MaskedStep(crc);
        StepsNext(Word(crc), 8 - j);
        crc := (crc >> 1) ^ (POLYNOMIAL & mask);
      }
      StepsNext(Word(crc), 0);
    }
    assert s[|s|..] == [];
    RegisterNext(Word(crc), []);
    NotBits(crc);
    checksum := Word(!crc);
  }

  lemma RegisterNext(crc: Word, s: seq<byte>)
    ensures s == [] ==> Register(crc, s) == crc
    ensures s != [] ==> Register(crc, s) == Register(Steps(Word(crc.bits ^ (s[0] as bv32)), 8), s[1..])
  {
  }

  lemma StepsNext(crc: Word, n: nat)
    ensures Steps(crc, n) == if n == 0 then crc else Steps(Step(crc), n - 1)
  {
  }

  lemma NotBits(crc: bv32)
    ensures Word(!crc) == Not(Word(crc))
  {
  }

  lemma MaskedStep(crc: bv32)
    ensures Word((crc >> 1) ^ (POLYNOMIAL & (0 - (crc & 1)))) == Step(Word(crc))
  {
    assert crc & 1 == 0 || crc & 1 == 1;
  }

  // ----- bit-level facts ---------------------------------------------------------

  lemma CancelBits(a: bv32, b: bv32, m: bv32)
    requires a ^ m == b ^ m
    ensures a == b
  {
  }

  lemma XorCancel(a: Word, b: Word, m: Word)
    requires Xor(a, m) == Xor(b, m)
    ensures a == b
  {
    CancelBits(a.bits, b.bits, m.bits);
  }

  lemma XorComm(a: Word, b: Word)
    ensures Xor(a, b) == Xor(b, a)
  {
  }

  lemma XorAssoc(a: Word, b: Word, c: Word)
    ensures Xor(Xor(a, b), c) == Xor(a, Xor(b, c))
  {
  }

  lemma NotOnes(a: Word)
    ensures Xor(Not(a), a) == ONES
  {
  }

  lemma XorOnes(a: Word, b: Word)
    ensures Xor(b, a) == ONES <==> b == Not(a)
  {
    hide Xor;
    NotOnes(a);
    if Xor(b, a) == ONES {
      XorCancel(b, Not(a), a);
    }
  }

  lemma StepInjective(a: Word, b: Word)
    requires Step(a) == Step(b)
    ensures a == b
  {
    // The polynomial's top bit is set and a halved word's is not.
    assert (a.bits >> 1) & 0x8000_0000 == 0 && (b.bits >> 1) & 0x8000_0000 == 0;
    TopBit(a.bits >> 1);
    TopBit(b.bits >> 1);
    assert Odd(a) == Odd(b);
    if Odd(a) {
      XorCancel(Half(a), Half(b), Word(POLYNOMIAL));
    }
    FromHalf(a.bits);
    FromHalf(b.bits);
  }

  lemma TopBit(h: bv32)
    requires h & 0x8000_0000 == 0
    ensures (h ^ POLYNOMIAL) & 0x8000_0000 == 0x8000_0000
  {
  }

  lemma FromHalf(a: bv32)
    ensures a == ((a >> 1) << 1) | (a & 1)
    ensures a & 1 == 0 || a & 1 == 1
  {
  }

  lemma HalfLinear(c: Word, m: Word)
    ensures Half(Xor(c, m)) == Xor(Half(c), Half(m))
  {
  }

  lemma OddLinear(c: bv32, m: bv32)
    requires m & 1 != 1
    ensures (c ^ m) & 1 == c & 1
  {
  }

  lemma StepLinear(c: Word, m: Word)
    requires !Odd(m)
    ensures Step(Xor(c, m)) == Xor(Step(c), Half(m))
  {
    hide Half, Xor;
    assert Odd(Xor(c, m)) == Odd(c) by { OddXor(c, m); }
    HalfLinear(c, m);
    XorSwap(Half(c), Half(m), Word(POLYNOMIAL));
  }

  lemma OddXor(c: Word, m: Word)
    requires !Odd(m)
    ensures Odd(Xor(c, m)) == Odd(c)
  {
    OddLinear(c.bits, m.bits);
  }

  lemma XorSwap(h: Word, k: Word, p: Word)
    ensures Xor(Xor(h, k), p) == Xor(Xor(h, p), k)
  {
  }

  // ----- the register as an injective linear map -------------------------------

  lemma {:induction false} StepsInjective(a: Word, b: Word, n: nat)
    requires Steps(a, n) == Steps(b, n)
    ensures a == b
    decreases n
  {
    hide Step;
    if n > 0 {
      StepsInjective(Step(a), Step(b), n - 1);
      StepInjective(a, b);
    }
  }

  /** Different registers stay different whatever bytes follow. */
  lemma {:induction false} RegisterInjective(a: Word, b: Word, s: seq<byte>)
    requires Register(a, s) == Register(b, s)
    ensures a == b
    decreases |s|
  {
    hide Steps, Xor, OfByte;
    if s != [] {
      var m := OfByte(s[0]);
      RegisterInjective(Steps(Xor(a, m), 8), Steps(Xor(b, m), 8), s[1..]);
      StepsInjective(Xor(a, m), Xor(b, m), 8);
      XorCancel(a, b, m);
    }
  }

  lemma {:induction false} RegisterConcat(crc: Word, s: seq<byte>, t: seq<byte>)
    ensures Register(crc, s + t) == Register(Register(crc, s), t)
    decreases |s|
  {
    hide Steps, Xor, OfByte;
    if s == [] {
      assert s + t == t;
    } else {
      assert (s + t)[1..] == s[1..] + t;
      RegisterConcat(Steps(Xor(crc, OfByte(s[0])), 8), s[1..], t);
    }
  }

  lemma {:induction false} StepsSum(crc: Word, m: nat, n: nat)
    ensures Steps(crc, m + n) == Steps(Steps(crc, m), n)
    decreases m
  {
    hide Step;
    if m > 0 {
      StepsSum(Step(crc), m - 1, n);
    }
  }

  // ----- four bytes are one word -------------------------------------------------

  function ShiftUp(w: Word): Word {
    Word(w.bits << 8)
  }

  /** At most four bytes as a little-endian word. */
  function LeWord(s: seq<byte>): Word
    requires |s| <= 4
    decreases |s|
  {
    if s == [] then Word(0) else Xor(OfByte(s[0]), ShiftUp(LeWord(s[1..])))
  }

  /** `u32::to_le_bytes`. */
  function WordBytes(w: Word): (s: seq<byte>)
    ensures |s| == 4
  {
    [(w.bits & 0xff) as byte, ((w.bits >> 8) & 0xff) as byte,
     ((w.bits >> 16) & 0xff) as byte, ((w.bits >> 24) & 0xff) as byte]
  }

  function JoinedWord(a: byte, b: byte, c: byte, d: byte): Word {
    Xor(OfByte(a), ShiftUp(Xor(OfByte(b), ShiftUp(Xor(OfByte(c), ShiftUp(OfByte(d)))))))
  }

  lemma LeWordUnrolled(s: seq<byte>)
    requires |s| == 4
    ensures LeWord(s) == JoinedWord(s[0], s[1], s[2], s[3])
  {
    hide Xor, OfByte, ShiftUp;
    assert s[1..][1..] == s[2..] && s[2..][1..] == s[3..] && s[3..][1..] == [];
    LastByte(s[3]);
    assert LeWord(s[3..]) == Xor(OfByte(s[3]), ShiftUp(LeWord([])));
    assert LeWord(s[2..]) == Xor(OfByte(s[2]), ShiftUp(OfByte(s[3])));
    assert LeWord(s[1..]) == Xor(OfByte(s[1]), ShiftUp(LeWord(s[2..])));
  }

  lemma LastByte(b: byte)
    ensures Xor(OfByte(b), ShiftUp(Word(0))) == OfByte(b)
  {
  }

  lemma Byte0(a: byte, b: byte, c: byte, d: byte)
    ensures (JoinedWord(a, b, c, d).bits & 0xff) as byte == a
  {
  }

  lemma Byte1(a: byte, b: byte, c: byte, d: byte)
    ensures ((JoinedWord(a, b, c, d).bits >> 8) & 0xff) as byte == b
  {
  }

  lemma Byte2(a: byte, b: byte, c: byte, d: byte)
    ensures ((JoinedWord(a, b, c, d).bits >> 16) & 0xff) as byte == c
  {
  }

  lemma Byte3(a: byte, b: byte, c: byte, d: byte)
    ensures ((JoinedWord(a, b, c, d).bits >> 24) & 0xff) as byte == d
  {
  }

  lemma JoinBits(a: byte, b: byte, c: byte, d: byte)
    ensures WordBytes(JoinedWord(a, b, c, d)) == [a, b, c, d]
  {
    hide JoinedWord;
    Byte0(a, b, c, d);
    Byte1(a, b, c, d);
    Byte2(a, b, c, d);
    Byte3(a, b, c, d);
  }

  lemma SplitBits(w: bv32)
    ensures var s := WordBytes(Word(w)); JoinedWord(s[0], s[1], s[2], s[3]) == Word(w)
  {
  }

  lemma WordRoundTrip(w: Word)
    ensures LeWord(WordBytes(w)) == w
  {
    hide JoinedWord, LeWord;
    LeWordUnrolled(WordBytes(w));
    SplitBits(w.bits);
  }

  lemma BytesRoundTrip(s: seq<byte>)
    requires |s| == 4
    ensures WordBytes(LeWord(s)) == s
  {
    hide JoinedWord, LeWord, WordBytes;
    LeWordUnrolled(s);
    JoinBits(s[0], s[1], s[2], s[3]);
    assert s == [s[0], s[1], s[2], s[3]];
  }

  function Halved(m: Word, n: nat): Word
    decreases n
  {
    if n == 0 then m else Halved(Half(m), n - 1)
  }

  predicate ClearLow(m: Word, n: nat)
    decreases n
  {
    n == 0 || (!Odd(m) && ClearLow(Half(m), n - 1))
  }

  lemma {:induction false} StepsLinear(c: Word, m: Word, n: nat)
    requires ClearLow(m, n)
    ensures Steps(Xor(c, m), n) == Xor(Steps(c, n), Halved(m, n))
    decreases n
  {
    hide Step, Xor, Half, Odd;
    if n > 0 {
      StepLinear(c, m);
      StepsLinear(Step(c), Half(m), n - 1);
    }
  }

  predicate Fits24(w: Word) {
    w.bits <= 0x00ff_ffff
  }

  lemma HalfClears(m: Word, mask: bv32)
    requires m.bits & mask == 0 && mask & 1 == 1
    ensures !Odd(m) && Half(m).bits & (mask >> 1) == 0
  {
    assert m.bits & 1 == (m.bits & mask) & 1;
    assert (m.bits >> 1) & (mask >> 1) == (m.bits & mask) >> 1;
  }

  lemma LowByteClear(m: Word)
    requires m.bits & 0xff == 0
    ensures ClearLow(m, 8)
  {
    hide Odd, Half;
    var m1 := Half(m);
    var m2 := Half(m1);
    var m3 := Half(m2);
    var m4 := Half(m3);
    var m5 := Half(m4);
    var m6 := Half(m5);
    var m7 := Half(m6);
    HalfClears(m, 0xff);
    HalfClears(m1, 0x7f);
    HalfClears(m2, 0x3f);
    HalfClears(m3, 0x1f);
    HalfClears(m4, 0x0f);
    HalfClears(m5, 0x07);
    HalfClears(m6, 0x03);
    HalfClears(m7, 0x01);
    assert ClearLow(m4, 4);
  }

  lemma HalvedEight(m: Word)
    ensures Halved(m, 8) == Half(Half(Half(Half(Half(Half(Half(Half(m))))))))
  {
    hide Half;
    assert Halved(m, 8) == Halved(Half(Half(Half(Half(m)))), 4);
  }

  lemma EightHalves(w: bv32)
    requires w <= 0x00ff_ffff
    ensures ((((((((w << 8) >> 1) >> 1) >> 1) >> 1) >> 1) >> 1) >> 1) >> 1 == w
    ensures (w << 8) & 0xff == 0
  {
  }

  lemma ShiftedWord(w: Word)
    requires Fits24(w)
    ensures ClearLow(ShiftUp(w), 8) && Halved(ShiftUp(w), 8) == w
  {
    hide ClearLow, Halved;
    EightHalves(w.bits);
    LowByteClear(ShiftUp(w));
    HalvedEight(ShiftUp(w));
  }

  lemma {:induction false} LeWordFits(s: seq<byte>)
    requires |s| <= 3
    ensures Fits24(LeWord(s))
    ensures |s| <= 2 ==> LeWord(s).bits <= 0xffff
    ensures |s| <= 1 ==> LeWord(s).bits <= 0xff
    decreases |s|
  {
    if s != [] {
      LeWordFits(s[1..]);
      Grows(s[0], LeWord(s[1..]).bits);
    }
  }

  lemma Grows(b: byte, w: bv32)
    requires w <= 0xffff
    ensures (b as bv32) ^ (w << 8) <= 0x00ff_ffff
    ensures w <= 0xff ==> (b as bv32) ^ (w << 8) <= 0xffff
    ensures w == 0 ==> (b as bv32) ^ (w << 8) <= 0xff
  {
  }

  /** Up to four bytes act on the register as one word xored in before all their steps. */
  lemma {:induction false} RegisterOfWord(crc: Word, s: seq<byte>)
    requires |s| <= 4
    ensures Register(crc, s) == Steps(Xor(crc, LeWord(s)), 8 * |s|)
    decreases |s|
  {
    hide Step, Xor, OfByte, ShiftUp, Fits24;
    if s == [] {
      XorZero(crc);
    } else {
      var first, rest := OfByte(s[0]), LeWord(s[1..]);
      RegisterOfWord(Steps(Xor(crc, first), 8), s[1..]);
      LeWordFits(s[1..]);
      ShiftedWord(rest);
      StepsLinear(Xor(crc, first), ShiftUp(rest), 8);
      XorAssoc(crc, first, ShiftUp(rest));
      StepsSum(Xor(crc, LeWord(s)), 8, 8 * (|s| - 1));
    }
  }

  lemma XorZero(a: Word)
    ensures Xor(a, Word(0)) == a
  {
    assert a.bits ^ 0 == a.bits;
  }

  /** Four bytes are recovered from what they do to the register. */
  lemma FourBytesInjective(crc: Word, u: seq<byte>, v: seq<byte>)
    requires |u| == 4 && |v| == 4
    requires Register(crc, u) == Register(crc, v)
    ensures u == v
  {
    hide Steps, Register, LeWord, WordBytes, Xor;
    RegisterOfWord(crc, u);
    RegisterOfWord(crc, v);
    StepsInjective(Xor(crc, LeWord(u)), Xor(crc, LeWord(v)), 32);
    XorComm(crc, LeWord(u));
    XorComm(crc, LeWord(v));
    XorCancel(LeWord(u), LeWord(v), crc);
    BytesRoundTrip(u);
    BytesRoundTrip(v);
  }

  // ----- codewords ------------------------------------------------------------------

  /** A message followed by its checksum leaves the register at one fixed value. */
  predicate Codeword(s: seq<byte>) {
    Register(ONES, s) == Steps(ONES, 32)
  }

  lemma CodewordIffChecksum(message: seq<byte>, checksum: seq<byte>)
    requires |checksum| == 4
    ensures Codeword(message + checksum) <==> LeWord(checksum) == Crc32c(message)
  {
    hide Steps, Register, LeWord, Xor, Not;
    var r := Register(ONES, message);
    RegisterConcat(ONES, message, checksum);
    RegisterOfWord(r, checksum);
    if Codeword(message + checksum) {
      StepsInjective(Xor(r, LeWord(checksum)), ONES, 32);
    }
    XorComm(r, LeWord(checksum));
    XorOnes(r, LeWord(checksum));
  }

  /** Two codewords that agree outside four consecutive bytes are equal. */
  lemma BurstOfFour(x: seq<byte>, y: seq<byte>, p: nat)
    requires |x| == |y| && p + 4 <= |x|
    requires x[..p] == y[..p] && x[p + 4..] == y[p + 4..]
    requires Codeword(x) && Codeword(y)
    ensures x == y
  {
    hide Steps, Register;
    var u, v, tail := x[p..p + 4], y[p..p + 4], x[p + 4..];
    assert x == x[..p] + u + tail && y == x[..p] + v + tail;
    var r := Register(ONES, x[..p]);
    RegisterConcat(ONES, x[..p] + u, tail);
    RegisterConcat(ONES, x[..p] + v, tail);
    RegisterConcat(ONES, x[..p], u);
    RegisterConcat(ONES, x[..p], v);
    RegisterInjective(Register(r, u), Register(r, v), tail);
    FourBytesInjective(r, u, v);
  }
}
