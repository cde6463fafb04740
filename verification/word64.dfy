/** Unsigned 64-bit words and bytes as numbers, and their reading as CRC registers:
    bit j of a word, lowest bit first, is coefficient j of the register. */
module Word64 {
  import opened Common
  import opened CrcRegister

  const TWO_TO_THE_64: nat := 0x1_0000_0000_0000_0000

  type uint64 = n: nat | n < TWO_TO_THE_64

  /** The n low bits of x, lowest first. */
  function Bits(x: nat, n: nat): (bits: seq<bool>)
    ensures |bits| == n
  {
    if n == 0 then [] else [x % 2 == 1] + Bits(x / 2, n - 1)
  }

  /** The number with the given bits, lowest first. */
  function Value(bits: seq<bool>): nat {
    if bits == [] then 0 else (if bits[0] then 1 else 0) + 2 * Value(bits[1..])
  }

  function Poly(x: uint64): Register { Bits(x, 64) }

  function Word(r: Register): (x: uint64)
    ensures Poly(x) == r
  {
    ValueBits(r);
    Pow2At64();
    Value(r)
  }

  /** x ^ y */
  function BitXor(x: uint64, y: uint64): uint64 { Word(Xor(Poly(x), Poly(y))) }

  /** x >> 8 */
  function ShiftRight8(x: uint64): uint64 { x / 256 }

  /** x & 0xff */
  function LowByte(x: uint64): byte { x % 256 }

  /** ~x */
  function Complement(x: uint64): uint64 { TWO_TO_THE_64 - 1 - x }

  // ---------- numbers and their bits ----------

  lemma Pow2At64()
    ensures Pow2(64) == TWO_TO_THE_64
  {
    Pow2At8();
    Pow2Twice(8, 256);
    Pow2Twice(16, 0x1_0000);
    Pow2Twice(32, 0x1_0000_0000);
  }

  lemma Pow2Twice(n: nat, p: nat)
    requires Pow2(n) == p
    ensures Pow2(n + n) == p * p
  {
    Pow2Add(n, n);
  }

  lemma {:induction false} Pow2Add(m: nat, n: nat)
    ensures Pow2(m + n) == Pow2(m) * Pow2(n)
  {
    if m > 0 {
      Pow2Add(m - 1, n);
    }
  }

  lemma {:induction false} ValueBits(bits: seq<bool>)
    ensures Value(bits) < Pow2(|bits|) && Bits(Value(bits), |bits|) == bits
  {
    if bits != [] {
      ValueBits(bits[1..]);
    }
  }

  lemma {:induction false} BitsValue(x: nat, n: nat)
    requires x < Pow2(n)
    ensures Value(Bits(x, n)) == x
  {
    if n > 0 {
      BitsValue(x / 2, n - 1);
    }
  }

  lemma ValueStep(bits: seq<bool>)
    requires bits != []
    ensures Value(bits) == (if bits[0] then 1 else 0) + 2 * Value(bits[1..])
  {}

  lemma Twice(n: nat, v: nat)
    requires n > 0
    ensures Pow2(n) * v == 2 * (Pow2(n - 1) * v)
  {
    var p := Pow2(n - 1);
    assert (2 * p) * v == 2 * (p * v);
  }

  lemma {:induction false} ValueConcat(a: seq<bool>, b: seq<bool>)
    ensures Value(a + b) == Value(a) + Pow2(|a|) * Value(b)
  {
    if a == [] {
      assert a + b == b;
    } else {
      hide *;
      assert (a + b)[1..] == a[1..] + b;
      ValueStep(a);
      ValueStep(a + b);
      ValueConcat(a[1..], b);
      Twice(|a|, Value(b));
    }
  }

  lemma PolyInjective(x: uint64, y: uint64)
    requires Poly(x) == Poly(y)
    ensures x == y
  {
    Pow2At64();
    BitsValue(x, 64);
    BitsValue(y, 64);
  }

  lemma DropOne(x: nat, n: nat)
    ensures Bits(x / 2, n) == Bits(x, n + 1)[1..]
  {}

  lemma DropTwo(x: nat, n: nat)
    ensures Bits(x / 4, n) == Bits(x, n + 2)[2..]
  {
    hide Bits;
    DropOne(x, n + 1);
    DropOne(x / 2, n);
    assert x / 2 / 2 == x / 4;
  }

  lemma DropFour(x: nat, n: nat)
    ensures Bits(x / 16, n) == Bits(x, n + 4)[4..]
  {
    hide Bits;
    DropTwo(x, n + 2);
    DropTwo(x / 4, n);
    assert x / 4 / 4 == x / 16;
  }

  /** Dividing by 256 drops the eight low bits. */
  lemma DropByte(x: nat, n: nat)
    ensures Bits(x / 256, n) == Bits(x, n + 8)[8..]
  {
    hide Bits;
    DropFour(x, n + 4);
    DropFour(x / 16, n);
    assert x / 16 / 16 == x / 256;
  }

  lemma {:induction false} BitsOfZero(n: nat)
    ensures Bits(0, n) == Zeros(n)
  {
    if n > 0 {
      BitsOfZero(n - 1);
    }
  }

  lemma {:induction false} BitsPrefix(x: nat, m: nat, n: nat)
    requires m <= n
    ensures Bits(x, n)[..m] == Bits(x, m)
  {
    if m > 0 {
      BitsPrefix(x / 2, m - 1, n - 1);
    }
  }

  /** No bits beyond the range of the number. */
  lemma {:induction false} BitsBeyond(x: nat, m: nat, n: nat)
    requires m <= n && x < Pow2(m)
    ensures Bits(x, n) == Bits(x, m) + Zeros(n - m)
  {
    if m == 0 {
      BitsOfZero(n);
    } else {
      BitsBeyond(x / 2, m - 1, n - 1);
    }
  }

  lemma PolyXor(x: uint64, y: uint64)
    ensures Poly(BitXor(x, y)) == Xor(Poly(x), Poly(y))
  {}

  lemma PolyShift(x: uint64)
    ensures Poly(ShiftRight8(x)) == Poly(x)[8..] + Zeros(8)
  {
    hide Bits;
    Pow2At64();
    DropByte(x, 64);
    BitsBeyond(x, 64, 72);
    assert Bits(x, 72)[8..] == Bits(x, 64)[8..] + Zeros(8);
  }

  lemma PolyLowByte(x: uint64)
    ensures Bits(LowByte(x), 8) == Poly(x)[..8]
  {
    BitsPrefix(x, 8, 64);
    LowBits(x);
  }

  function Halve(x: nat, n: nat): nat {
    if n == 0 then x else Halve(x / 2, n - 1)
  }

  lemma {:induction false} ValueOfBits(x: nat, n: nat)
    ensures x == Value(Bits(x, n)) + Pow2(n) * Halve(x, n)
  {
    if n > 0 {
      var h := Halve(x, n);
      ValueOfBits(x / 2, n - 1);
      assert Pow2(n) * h == 2 * (Pow2(n - 1) * h);
    }
  }

  lemma LowBits(x: nat)
    ensures Bits(x % 256, 8) == Bits(x, 8)
  {
    Pow2At8();
    LowBitsOf(x, 8);
  }

  lemma LowBitsOf(x: nat, n: nat)
    requires Pow2(n) == 256
    ensures Bits(x % 256, n) == Bits(x, n)
  {
    var value, rest := Value(Bits(x, n)), Halve(x, n);
    ValueOfBits(x, n);
    ValueBits(Bits(x, n));
    RemainderBy256(x, value, rest);
  }

  lemma RemainderBy256(x: nat, r: nat, q: nat)
    requires x == r + 256 * q && r < 256
    ensures x % 256 == r
  {}

  lemma Pow2At8()
    ensures Pow2(8) == 256
  {
    assert Pow2(4) == 16;
    Pow2Add(4, 4);
  }
}
