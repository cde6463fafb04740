/** The CRC as numbers: entries of the table and the CRC of a message, computed with 64-bit vectors. */
module CrcValues {
  import opened Common
  import opened CrcRegister
  import opened Word64
  import opened Crc64

  // ---------- registers as bit vectors ----------

  function Odd(v: bv64): bool { v & 1 == 1 }

  function Half(v: bv64): bv64 { v >> 1 }

  function Plus(a: bv64, b: bv64): bv64 { a ^ b }

  /** The n low bits of v, lowest first. */
  function BitsOf(v: bv64, n: nat): (r: seq<bool>)
    ensures |r| == n
  {
    if n == 0 then [] else [Odd(v)] + BitsOf(Half(v), n - 1)
  }

  function Reg(v: bv64): Register { BitsOf(v, 64) }

  lemma PlusHalf(a: bv64, b: bv64)
    ensures Half(Plus(a, b)) == Plus(Half(a), Half(b))
    ensures Odd(Plus(a, b)) <==> Odd(a) != Odd(b)
  {}

  lemma {:induction false} PlusBits(a: bv64, b: bv64, n: nat)
    ensures BitsOf(Plus(a, b), n) == Xor(BitsOf(a, n), BitsOf(b, n))
    decreases n
  {
    hide Odd, Half, Plus;
    if n > 0 {
      PlusHalf(a, b);
      PlusBits(Half(a), Half(b), n - 1);
    }
  }

  function Shift(v: bv64, n: nat): bv64
    decreases n
  {
    if n == 0 then v else Shift(Half(v), n - 1)
  }

  function ShiftDigit(v: bv64): bv64 { v >> 4 }

  function ShiftQuarter(v: bv64): bv64 { v >> 16 }

  lemma {:induction false} ShiftAdd(v: bv64, m: nat, n: nat)
    ensures Shift(v, m + n) == Shift(Shift(v, m), n)
    decreases m
  {
    hide Half;
    if m > 0 {
      ShiftAdd(Half(v), m - 1, n);
    }
  }

  lemma FourHalves(v: bv64)
    ensures Half(Half(Half(Half(v)))) == ShiftDigit(v)
  {}

  lemma FourDigits(v: bv64)
    ensures ShiftDigit(ShiftDigit(ShiftDigit(ShiftDigit(v)))) == ShiftQuarter(v)
    ensures ShiftQuarter(ShiftQuarter(ShiftQuarter(ShiftQuarter(v)))) == 0
  {}

  lemma ShiftBy4(v: bv64)
    ensures Shift(v, 4) == ShiftDigit(v)
  {
    FourHalves(v);
    hide Half, ShiftDigit;
    var v1 := Half(v);
    var v2 := Half(v1);
    var v3 := Half(v2);
    assert Shift(v, 4) == Shift(v1, 3) == Shift(v2, 2) == Shift(v3, 1) == Shift(Half(v3), 0);
  }

  lemma ShiftBy16(v: bv64)
    ensures Shift(v, 16) == ShiftQuarter(v)
  {
    FourDigits(v);
    hide Shift, ShiftDigit, ShiftQuarter, Half;
    var v1 := ShiftDigit(v);
    var v2 := ShiftDigit(v1);
    var v3 := ShiftDigit(v2);
    ShiftAdd(v, 4, 12);
    ShiftAdd(v1, 4, 8);
    ShiftAdd(v2, 4, 4);
    ShiftBy4(v);
    ShiftBy4(v1);
    ShiftBy4(v2);
    ShiftBy4(v3);
  }

  lemma ShiftBy64(v: bv64)
    ensures Shift(v, 64) == 0
  {
    FourDigits(v);
    hide Shift, ShiftDigit, ShiftQuarter, Half;
    var v1 := ShiftQuarter(v);
    var v2 := ShiftQuarter(v1);
    var v3 := ShiftQuarter(v2);
    ShiftAdd(v, 16, 48);
    ShiftAdd(v1, 16, 32);
    ShiftAdd(v2, 16, 16);
    ShiftBy16(v);
    ShiftBy16(v1);
    ShiftBy16(v2);
    ShiftBy16(v3);
  }

  lemma {:induction false} BitAt(v: bv64, n: nat, i: nat)
    requires i < n
    ensures BitsOf(v, n)[i] == Odd(Shift(v, i))
    decreases i
  {
    hide Odd, Half;
    if i > 0 {
      BitAt(Half(v), n - 1, i - 1);
    }
  }

  lemma RegHalf(v: bv64)
    ensures Reg(Half(v)) == Reg(v)[1..] + [false]
  {
    hide Half;
    var r, t := Reg(Half(v)), Reg(v)[1..] + [false];
    forall i | 0 <= i < 64 ensures r[i] == t[i] {
      BitAt(Half(v), 64, i);
      if i < 63 {
        BitAt(v, 64, i + 1);
      } else {
        ShiftBy64(v);
      }
    }
  }

  /** One step of the register, for the generator p. */
  function HalfStep(p: bv64, v: bv64): bv64 { if Odd(v) then Plus(Half(v), p) else Half(v) }

  lemma HalfSteps(p: bv64, v: bv64)
    ensures Reg(HalfStep(p, v)) == Step(Reg(p), Reg(v))
  {
    hide Half, Plus, Odd;
    RegHalf(v);
    PlusBits(Half(v), p, 64);
    assert Reg(v)[0] == Odd(v);
  }

  // ---------- bit vectors as numbers ----------

  function Digit(v: bv64): nat { (v & 15) as nat }

  lemma ValueNext(v: bv64, n: nat)
    ensures Value(BitsOf(v, n + 1)) == (if Odd(v) then 1 else 0) + 2 * Value(BitsOf(Half(v), n))
  {
    hide Odd, Half;
    assert BitsOf(v, n + 1)[1..] == BitsOf(Half(v), n);
  }

  lemma DigitBits(v: bv64)
    ensures Digit(v) == (if Odd(v) then 1 else 0) + (if Odd(Half(v)) then 2 else 0)
      + (if Odd(Half(Half(v))) then 4 else 0) + (if Odd(Half(Half(Half(v)))) then 8 else 0)
  {}

  lemma ValueDigit(v: bv64, n: nat)
    ensures Value(BitsOf(v, n + 4)) == Digit(v) + 16 * Value(BitsOf(ShiftDigit(v), n))
  {
    hide Value, BitsOf, Odd, Half, ShiftDigit, Digit;
    var v1 := Half(v);
    var v2 := Half(v1);
    var v3 := Half(v2);
    ValueNext(v, n + 3);
    ValueNext(v1, n + 2);
    ValueNext(v2, n + 1);
    ValueNext(v3, n);
    DigitBits(v);
    FourHalves(v);
  }

  /** The number of the 16 low bits. */
  function Quarter(v: bv64): nat {
    Digit(v) + 16 * Digit(ShiftDigit(v)) + 256 * Digit(ShiftDigit(ShiftDigit(v)))
    + 4096 * Digit(ShiftDigit(ShiftDigit(ShiftDigit(v))))
  }

  lemma ValueQuarter(v: bv64, n: nat)
    ensures Value(BitsOf(v, n + 16)) == Quarter(v) + 0x1_0000 * Value(BitsOf(ShiftQuarter(v), n))
  {
    hide Value, BitsOf, Digit, ShiftDigit, ShiftQuarter;
    var v1 := ShiftDigit(v);
    var v2 := ShiftDigit(v1);
    var v3 := ShiftDigit(v2);
    ValueDigit(v, n + 12);
    ValueDigit(v1, n + 8);
    ValueDigit(v2, n + 4);
    ValueDigit(v3, n);
    FourDigits(v);
  }

  function Number(v: bv64): nat {
    Quarter(v) + 0x1_0000 * Quarter(ShiftQuarter(v)) + 0x1_0000_0000 * Quarter(ShiftQuarter(ShiftQuarter(v)))
    + 0x1_0000_0000_0000 * Quarter(ShiftQuarter(ShiftQuarter(ShiftQuarter(v))))
  }

  lemma ValueNumber(v: bv64)
    ensures Value(Reg(v)) == Number(v)
  {
    hide Value, BitsOf, Quarter, ShiftQuarter;
    var v1 := ShiftQuarter(v);
    var v2 := ShiftQuarter(v1);
    var v3 := ShiftQuarter(v2);
    ValueQuarter(v, 48);
    ValueQuarter(v1, 32);
    ValueQuarter(v2, 16);
    ValueQuarter(v3, 0);
    ValueOfNothing(ShiftQuarter(v3));
  }

  lemma ValueOfNothing(v: bv64)
    ensures Value(BitsOf(v, 0)) == 0
  {}

  /** A number and a bit vector with the same digits are the same register. */
  lemma Same(x: uint64, v: bv64)
    requires Number(v) == x
    ensures Poly(x) == Reg(v)
  {
    hide Value, Number, Bits;
    ValueNumber(v);
    ValueBits(Reg(v));
  }

  // ---------- the table and a message ----------

  const GENERATOR: bv64 := 0x9A6C9329AC4BC9B5

  lemma GeneratorIsKnown()
    ensures G() == Reg(GENERATOR)
  {
    assert Number(0x9A6C9329AC4BC9B5) == 0x9A6C9329AC4BC9B5;
    hide Number, Poly, Reg;
    Same(0x9A6C9329AC4BC9B5, GENERATOR);
  }

  /** Eight steps of the register. */
  function ByteStep(v: bv64): bv64 { FourSteps(FourSteps(v)) }

  function FourSteps(v: bv64): bv64 {
    HalfStep(GENERATOR, HalfStep(GENERATOR, HalfStep(GENERATOR, HalfStep(GENERATOR, v))))
  }

  lemma FourStepsAdvance(v: bv64)
    ensures Reg(FourSteps(v)) == Advance(G(), 4, Reg(v))
  {
    GeneratorIsKnown();
    hide HalfStep, Reg, GENERATOR, Step, G;
    var v1 := HalfStep(GENERATOR, v);
    var v2 := HalfStep(GENERATOR, v1);
    var v3 := HalfStep(GENERATOR, v2);
    HalfSteps(GENERATOR, v);
    HalfSteps(GENERATOR, v1);
    HalfSteps(GENERATOR, v2);
    HalfSteps(GENERATOR, v3);
    assert Advance(G(), 4, Reg(v)) == Advance(G(), 3, Reg(v1)) == Advance(G(), 2, Reg(v2)) == Advance(G(), 1, Reg(v3))
      == Advance(G(), 0, Reg(HalfStep(GENERATOR, v3)));
  }

  lemma ByteStepAdvances(v: bv64)
    ensures Reg(ByteStep(v)) == Advance(G(), 8, Reg(v))
  {
    hide FourSteps, Reg, Advance, G;
    FourStepsAdvance(v);
    FourStepsAdvance(FourSteps(v));
    AdvanceAdd(G(), 4, 4, Reg(v));
  }

  lemma EntryIs(b: byte, v: bv64, x: uint64, w: bv64)
    requires Number(v) == b && Number(w) == x && ByteStep(v) == w
    ensures U1(b) == x
  {
    hide Number, ByteStep, U1, Entry, G, Advance, Poly, Reg, Pad, Bits, Word;
    Same(b, v);
    Same(x, w);
    PolyByte(b);
    ByteStepAdvances(v);
    EntryPoly(8, b);
    EntryIsU1(b);
    PolyInjective(U1(b), x);
  }

  lemma EntryIsU1(b: byte)
    ensures U1(b) == Entry(8, b)
  {}

  lemma Entry1()
    ensures U1(1) == 0x7f6e_f0c8_3035_8979
  {
    hide U1, Poly, Bits, Word, Value, BitsOf, Reg, G;
    EntryIs(1, 1, 0x7f6e_f0c8_3035_8979, 0x7f6e_f0c8_3035_8979);
  }

  lemma Entry2()
    ensures U1(2) == 0xfedd_e190_606b_12f2
  {
    hide U1, Poly, Bits, Word, Value, BitsOf, Reg, G;
    EntryIs(2, 2, 0xfedd_e190_606b_12f2, 0xfedd_e190_606b_12f2);
  }

  lemma Entry4()
    ensures U1(4) == 0xc962_e573_9841_b68f
  {
    hide U1, Poly, Bits, Word, Value, BitsOf, Reg, G;
    EntryIs(4, 4, 0xc962_e573_9841_b68f, 0xc962_e573_9841_b68f);
  }

  lemma Entry8()
    ensures U1(8) == 0xa61c_ecb4_6814_fe75
  {
    hide U1, Poly, Bits, Word, Value, BitsOf, Reg, G;
    EntryIs(8, 8, 0xa61c_ecb4_6814_fe75, 0xa61c_ecb4_6814_fe75);
  }

  lemma Entry16()
    ensures U1(16) == 0x78e0_ff3b_88be_6f81
  {
    hide U1, Poly, Bits, Word, Value, BitsOf, Reg, G;
    EntryIs(16, 16, 0x78e0_ff3b_88be_6f81, 0x78e0_ff3b_88be_6f81);
  }

  lemma Entry32()
    ensures U1(32) == 0xf1c1_fe77_117c_df02
  {
    hide U1, Poly, Bits, Word, Value, BitsOf, Reg, G;
    EntryIs(32, 32, 0xf1c1_fe77_117c_df02, 0xf1c1_fe77_117c_df02);
  }

  lemma Entry64()
    ensures U1(64) == 0xd75a_dabd_7a6e_2d6f
  {
    hide U1, Poly, Bits, Word, Value, BitsOf, Reg, G;
    EntryIs(64, 64, 0xd75a_dabd_7a6e_2d6f, 0xd75a_dabd_7a6e_2d6f);
  }

  lemma Entry128()
    ensures U1(128) == 0x9a6c_9329_ac4b_c9b5
  {
    hide U1, Poly, Bits, Word, Value, BitsOf, Reg, G;
    EntryIs(128, 128, 0x9a6c_9329_ac4b_c9b5, 0x9a6c_9329_ac4b_c9b5);
  }

  /** The entries of m_u1 at the powers of two. */
  lemma TableBasis()
    ensures U1(1) == 0x7f6e_f0c8_3035_8979 && U1(2) == 0xfedd_e190_606b_12f2
    ensures U1(4) == 0xc962_e573_9841_b68f && U1(8) == 0xa61c_ecb4_6814_fe75
    ensures U1(16) == 0x78e0_ff3b_88be_6f81 && U1(32) == 0xf1c1_fe77_117c_df02
    ensures U1(64) == 0xd75a_dabd_7a6e_2d6f && U1(128) == 0x9a6c_9329_ac4b_c9b5
  {
    hide *;
    Entry1();
    Entry2();
    Entry4();
    Entry8();
    Entry16();
    Entry32();
    Entry64();
    Entry128();
  }

  /** Every other entry is a sum of these: the table is linear in its index. */
  lemma TableAdds(a: byte, b: byte, c: byte)
    requires c == BitXor(a, b)
    ensures U1(c) == BitXor(U1(a), U1(b))
  {
    hide Advance, Poly, Word, Entry, G, BitXor, Xor;
    EntryPoly(8, a);
    EntryPoly(8, b);
    EntryPoly(8, c);
    PolyByte(a);
    PolyByte(b);
    PolyByte(c);
    PolyXor(a, b);
    PolyXor(U1(a), U1(b));
    AdvanceLinear(G(), 8, Poly(a), Poly(b));
    PolyInjective(U1(c), BitXor(U1(a), U1(b)));
  }

  /** One more byte of a message. */
  lemma FeedNext(data: seq<byte>, s: bv64, b: byte, w: bv64, next: bv64)
    requires Feed(G(), Reg(0xFFFF_FFFF_FFFF_FFFF), BitString(data)) == Reg(s)
    requires Number(w) == b && next == ByteStep(Plus(s, w))
    ensures Feed(G(), Reg(0xFFFF_FFFF_FFFF_FFFF), BitString(data + [b])) == Reg(next)
  {
    hide Number, ByteStep, Plus, G, Advance, Poly, Reg, Pad, Bits, Word, Feed, BitString, Xor;
    FeedBytesConcat(Reg(0xFFFF_FFFF_FFFF_FFFF), data, [b]);
    OneByte(b);
    FeedBlock(G(), Reg(s), Bits(b, 8));
    PolyByte(b);
    Same(b, w);
    SumIsReg(s, w);
    ByteStepAdvances(Plus(s, w));
  }

  lemma OneByte(b: byte)
    ensures BitString([b]) == Bits(b, 8)
  {}

  lemma SumIsReg(s: bv64, w: bv64)
    ensures Reg(Plus(s, w)) == Xor(Reg(s), Reg(w))
  {
    PlusBits(s, w, 64);
  }

  lemma FeedNothing(s: Register)
    ensures Feed(G(), s, BitString([])) == s
  {}

  lemma AllOnes()
    ensures Number(0xFFFF_FFFF_FFFF_FFFF) == TWO_TO_THE_64 - 1
  {}

  lemma CrcFromRegister(data: seq<byte>, s: bv64, last: uint64)
    requires Feed(G(), Reg(0xFFFF_FFFF_FFFF_FFFF), BitString(data)) == Reg(s) && Number(s) == last
    ensures Crc(data, 0) == TWO_TO_THE_64 - 1 - last
  {
    hide Feed, BitString, G, Poly, Word, Reg, Number;
    AllOnes();
    Same(TWO_TO_THE_64 - 1, 0xFFFF_FFFF_FFFF_FFFF);
    Same(last, s);
    PolyInjective(Word(Feed(G(), Poly(Complement(0)), BitString(data))), last);
  }

  lemma Digits1To3(d: seq<byte>)
    requires Feed(G(), Reg(0xFFFF_FFFF_FFFF_FFFF), BitString(d)) == Reg(0xFFFF_FFFF_FFFF_FFFF)
    ensures Feed(G(), Reg(0xFFFF_FFFF_FFFF_FFFF), BitString(d + [0x31] + [0x32] + [0x33])) == Reg(0x6427_8334_3634_d71f)
  {
    hide Feed, BitString, G, Reg, Poly, Bits, Word, Value, BitsOf;
    FeedNext(d, 0xFFFF_FFFF_FFFF_FFFF, 0x31, 0x31, 0xdc6a_5e3c_b9e4_412d);
    FeedNext(d + [0x31], 0xdc6a_5e3c_b9e4_412d, 0x32, 0x32, 0x96f1_8dfa_140c_58b1);
    FeedNext(d + [0x31] + [0x32], 0x96f1_8dfa_140c_58b1, 0x33, 0x33, 0x6427_8334_3634_d71f);
  }

  lemma Digits4To6(d: seq<byte>)
    requires Feed(G(), Reg(0xFFFF_FFFF_FFFF_FFFF), BitString(d)) == Reg(0x6427_8334_3634_d71f)
    ensures Feed(G(), Reg(0xFFFF_FFFF_FFFF_FFFF), BitString(d + [0x34] + [0x35] + [0x36])) == Reg(0xf6a6_6499_e1f7_a4cf)
  {
    hide Feed, BitString, G, Reg, Poly, Bits, Word, Value, BitsOf;
    FeedNext(d, 0x6427_8334_3634_d71f, 0x34, 0x34, 0xd60a_2418_1d00_8e2b);
    FeedNext(d + [0x34], 0xd60a_2418_1d00_8e2b, 0x35, 0x35, 0xe995_1d48_009d_3507);
    FeedNext(d + [0x34] + [0x35], 0xe995_1d48_009d_3507, 0x36, 0x36, 0xf6a6_6499_e1f7_a4cf);
  }

  lemma Digits7To9(d: seq<byte>)
    requires Feed(G(), Reg(0xFFFF_FFFF_FFFF_FFFF), BitString(d)) == Reg(0xf6a6_6499_e1f7_a4cf)
    ensures Feed(G(), Reg(0xFFFF_FFFF_FFFF_FFFF), BitString(d + [0x37] + [0x38] + [0x39])) == Reg(0x5174_eb79_f586_6777)
  {
    hide Feed, BitString, G, Reg, Poly, Bits, Word, Value, BitsOf;
    FeedNext(d, 0xf6a6_6499_e1f7_a4cf, 0x37, 0x37, 0x62fd_0208_be12_5d88);
    FeedNext(d + [0x37], 0x62fd_0208_be12_5d88, 0x38, 0x38, 0x132f_6f67_3d37_6b6b);
    FeedNext(d + [0x37] + [0x38], 0x132f_6f67_3d37_6b6b, 0x39, 0x39, 0x5174_eb79_f586_6777);
  }

  lemma LastRegister()
    ensures Number(0x5174_eb79_f586_6777) == 0x5174_eb79_f586_6777
  {}

  /** The CRC of the nine digits 1 to 9 in ASCII. */
  lemma CheckValue()
    ensures Crc([0x31, 0x32, 0x33, 0x34, 0x35, 0x36, 0x37, 0x38, 0x39], 0) == 0xAE8B_1486_0A79_9888
  {
    hide Feed, BitString, G, Reg, Crc, Number;
    FeedNothing(Reg(0xFFFF_FFFF_FFFF_FFFF));
    LastRegister();
    Digits1To3([]);
    var d: seq<byte> := [] + [0x31] + [0x32] + [0x33];
    Digits4To6(d);
    Digits7To9(d + [0x34] + [0x35] + [0x36]);
    var all: seq<byte> := [0x31, 0x32, 0x33, 0x34, 0x35, 0x36, 0x37, 0x38, 0x39];
    assert d + [0x34] + [0x35] + [0x36] + [0x37] + [0x38] + [0x39] == all;
    CrcFromRegister(all, 0x5174_eb79_f586_6777, 0x5174_eb79_f586_6777);
  }
}
