/** The CRC-64 of crc64.cpp: table lookups, four lanes at a time for long inputs,
    refining the bit-by-bit register and therefore polynomial division. */
module Crc64 {
  import opened Common
  import opened CrcRegister
  import opened CrcDivision
  import opened Word64

  /** The generator polynomial without its leading term, in the reflected form of the source. */
  const POLY: uint64 := 0x9A6C9329AC4BC9B5

  function G(): Register { Poly(POLY) }

  /** The register after byte b and then zeros, n bits in all. */
  function Entry(n: nat, b: byte): uint64 {
    Word(Advance(G(), n, Pad(Bits(b, 8))))
  }

  /** The table m_u1, given by the equation its literals satisfy. */
  function U1(b: byte): uint64 { Entry(8, b) }

  /** The table m_u32: eight slices of 256 entries, slice k looking 25 + k bytes ahead. */
  function U32(i: nat): uint64
    requires i < 8 * 256
  {
    Entry(8 * (25 + i / 256), i % 256)
  }

  /** The bits of a byte string in the order the CRC consumes them. */
  function BitString(data: seq<byte>): (bits: seq<bool>)
    ensures |bits| == 8 * |data|
  {
    if data == [] then [] else Bits(data[0], 8) + BitString(data[1..])
  }

  /** The CRC of data continued from crc: complement, divide bit by bit, complement. */
  function Crc(data: seq<byte>, crc: uint64): uint64 {
    Complement(Word(Feed(G(), Poly(Complement(crc)), BitString(data))))
  }

  // ---------- bytes and words as bits ----------

  lemma {:induction false} BitStringConcat(a: seq<byte>, b: seq<byte>)
    ensures BitString(a + b) == BitString(a) + BitString(b)
  {
    if a == [] {
      assert a + b == b;
    } else {
      assert (a + b)[1..] == a[1..] + b;
      BitStringConcat(a[1..], b);
    }
  }

  /** The word loaded from eight bytes, first byte lowest. */
  function LoadWord(bytes: seq<byte>): uint64
    requires |bytes| == 8
  {
    Word(BitString(bytes))
  }

  /** Reading bits lowest first makes the load little-endian. */
  lemma LittleEndian(bytes: seq<byte>)
    requires bytes != []
    ensures Value(BitString(bytes)) == bytes[0] + 256 * Value(BitString(bytes[1..]))
  {
    Pow2At8();
    BitsValue(bytes[0], 8);
    ValueConcat(Bits(bytes[0], 8), BitString(bytes[1..]));
  }

  // ---------- one table lookup, one word of lookups, one lane ----------

  lemma EntryPoly(n: nat, b: byte)
    ensures Poly(Entry(n, b)) == Advance(G(), n, Pad(Bits(b, 8)))
  {}

  /** The low byte and the rest of a word, as polynomials. */
  lemma SplitByte(x: uint64)
    ensures Poly(x) == Xor(Pad(Bits(LowByte(x), 8)), Pad(Zeros(8) + Poly(x)[8..]))
    ensures Poly(ShiftRight8(x)) == Pad(Poly(x)[8..])
  {
    PolyLowByte(x);
    PolyShift(x);
  }

  /** n >= 8 zero bits after a word: the table entry of its low byte, plus the rest with 8 bits fewer to go. */
  lemma AdvanceByte(b: uint64, n: nat)
    requires n >= 8
    ensures Advance(G(), n, Poly(b))
         == Xor(Poly(Entry(n, LowByte(b))), Advance(G(), n - 8, Poly(ShiftRight8(b))))
  {
    hide Advance, Poly, Bits, Word, Xor, G, Entry, LowByte, ShiftRight8;
    var low, high := Pad(Bits(LowByte(b), 8)), Pad(Zeros(8) + Poly(b)[8..]);
    SplitByte(b);
    AdvanceLinear(G(), n, low, high);
    AdvanceAdd(G(), 8, n - 8, high);
    AdvanceShift(G(), 8, Poly(b)[8..]);
    EntryPoly(n, LowByte(b));
  }

  /** A lookup moves the low byte of b, n >= 8 bits ahead, into the accumulator. */
  lemma Lookup(acc: uint64, b: uint64, n: nat)
    requires n >= 8
    ensures Xor(Poly(BitXor(acc, Entry(n, LowByte(b)))), Advance(G(), n - 8, Poly(ShiftRight8(b))))
         == Xor(Poly(acc), Advance(G(), n, Poly(b)))
  {
    var entry := Entry(n, LowByte(b));
    AdvanceByte(b, n);
    PolyXor(acc, entry);
    XorAssociates(Poly(acc), Poly(entry), Advance(G(), n - 8, Poly(ShiftRight8(b))));
  }

  /** The statement u_crc = (u_crc >> 8) ^ m_u1[u_crc & 0xff]. */
  function TableStep(u: uint64): uint64 {
    BitXor(ShiftRight8(u), U1(LowByte(u)))
  }

  lemma TableStepAdvances(u: uint64)
    ensures Poly(TableStep(u)) == Advance(G(), 8, Poly(u))
  {
    var entry := U1(LowByte(u));
    AdvanceByte(u, 8);
    PolyXor(ShiftRight8(u), entry);
    XorCommutes(Poly(ShiftRight8(u)), Poly(entry));
  }

  lemma U32Entry(k: nat, b: byte)
    requires k < 8
    ensures U32(k * 256 + b) == Entry(200 + 8 * k, b)
  {
    hide Entry;
    assert (k * 256 + b) / 256 == k && (k * 256 + b) % 256 == b;
  }

  /** One entry follows from another by a table step. */
  lemma EntryStep(n: nat, b: byte)
    ensures Entry(n + 8, b) == TableStep(Entry(n, b))
  {
    hide Advance, Poly, Bits, Word, G, Entry, TableStep;
    EntryPoly(n, b);
    EntryPoly(n + 8, b);
    AdvanceAdd(G(), n, 8, Pad(Bits(b, 8)));
    TableStepAdvances(Entry(n, b));
    PolyInjective(Entry(n + 8, b), TableStep(Entry(n, b)));
  }

  /** The recurrence between the slices of the sliced table: one table step leads from a slice to the next. */
  lemma SlicesFollow(k: nat, b: byte)
    requires k < 7
    ensures U32((k + 1) * 256 + b) == TableStep(U32(k * 256 + b))
  {
    hide Entry, TableStep, U32;
    U32Entry(k, b);
    U32Entry(k + 1, b);
    EntryStep(200 + 8 * k, b);
  }

  function TableSteps(u: uint64, n: nat): uint64 {
    if n == 0 then u else TableStep(TableSteps(u, n - 1))
  }

  lemma {:induction false} StepsFromU1(n: nat, b: byte)
    ensures TableSteps(U1(b), n) == Entry(8 + 8 * n, b)
  {
    hide Entry, TableStep;
    if n > 0 {
      StepsFromU1(n - 1, b);
      EntryStep(8 * n, b);
    }
  }

  /** The link between the two tables: slice k is the one-byte table, 24 + k table steps on. */
  lemma SlicesFromU1(k: nat, b: byte)
    requires k < 8
    ensures U32(k * 256 + b) == TableSteps(U1(b), 24 + k)
  {
    hide Entry, TableSteps, U32;
    U32Entry(k, b);
    StepsFromU1(24 + k, b);
  }

  /** After seven shifts one byte is left. */
  lemma LastByte(b: uint64, n: nat, word: uint64)
    requires b == ShiftRight8(ShiftRight8(ShiftRight8(ShiftRight8(ShiftRight8(ShiftRight8(ShiftRight8(word)))))))
    ensures Poly(Entry(n, LowByte(b))) == Advance(G(), n, Poly(b))
  {
    Pow2At8();
    assert b < 256 && LowByte(b) == b;
    BitsBeyond(b, 8, 64);
  }

  /** Eight lookups advance a word by the 32 bytes between two visits of its lane. */
  method AdvanceLane(word: uint64) returns (u: uint64)
    ensures Poly(u) == Advance(G(), 256, Poly(word))
  {
    hide *;
    var b := word;
    u := U32(7 * 256 + LowByte(b));
    U32Entry(7, LowByte(b));
    AdvanceByte(b, 256);
    b := ShiftRight8(b);
    u, b := LaneLookup(u, b, 6, word);
    u, b := LaneLookup(u, b, 5, word);
    u, b := LaneLookup(u, b, 4, word);
    u, b := LaneLookup(u, b, 3, word);
    u, b := LaneLookup(u, b, 2, word);
    u, b := LaneLookup(u, b, 1, word);
    U32Entry(0, LowByte(b));
    LastByte(b, 200, word);
    PolyXor(u, U32(0 * 256 + LowByte(b)));
    u := BitXor(u, U32(0 * 256 + LowByte(b)));
  }

  /** u_crc ^= m_u32[k * 256 + (b & 0xff)]; b >>= 8, for the lane that started with word. */
  method LaneLookup(u: uint64, b: uint64, k: nat, ghost word: uint64) returns (u': uint64, b': uint64)
    requires 1 <= k < 7
    requires Xor(Poly(u), Advance(G(), 200 + 8 * k, Poly(b))) == Advance(G(), 256, Poly(word))
    ensures Xor(Poly(u'), Advance(G(), 192 + 8 * k, Poly(b'))) == Advance(G(), 256, Poly(word))
    ensures b' == ShiftRight8(b)
  {
    hide *;
    U32Entry(k, LowByte(b));
    Lookup(u, b, 200 + 8 * k);
    u' := BitXor(u, U32(k * 256 + LowByte(b)));
    b' := ShiftRight8(b);
  }

  /** Eight table steps finish a word. */
  method FoldWord(word: uint64) returns (u: uint64)
    ensures Poly(u) == Advance(G(), 64, Poly(word))
  {
    u := TableStep(word);
    TableStepAdvances(word);
    u := FoldByte(u, word, 1);
    u := FoldByte(u, word, 2);
    u := FoldByte(u, word, 3);
    u := FoldByte(u, word, 4);
    u := FoldByte(u, word, 5);
    u := FoldByte(u, word, 6);
    u := FoldByte(u, word, 7);
  }

  method FoldByte(u: uint64, ghost word: uint64, ghost done: nat) returns (u': uint64)
    requires Poly(u) == Advance(G(), 8 * done, Poly(word))
    ensures Poly(u') == Advance(G(), 8 * (done + 1), Poly(word))
  {
    hide *;
    TableStepAdvances(u);
    AdvanceAdd(G(), 8 * done, 8, Poly(word));
    u' := TableStep(u);
  }

  // ---------- four lanes ----------

  function Sum4(a: Register, b: Register, c: Register, d: Register): Register {
    Xor(Xor(Xor(a, b), c), d)
  }

  /** The four lanes, each the given number of bits from the place where they meet. */
  function Meet(c0: Register, c1: Register, c2: Register, c3: Register): Register {
    Sum4(Advance(G(), 256, c0), Advance(G(), 192, c1), Advance(G(), 128, c2), Advance(G(), 64, c3))
  }

  /** The register after four words. */
  function FeedWords(s: Register, w0: Register, w1: Register, w2: Register, w3: Register): Register {
    var s1 := Advance(G(), 64, Xor(s, w0));
    var s2 := Advance(G(), 64, Xor(s1, w1));
    var s3 := Advance(G(), 64, Xor(s2, w2));
    Advance(G(), 64, Xor(s3, w3))
  }

  lemma Sum4Adds(a: Register, b: Register, c: Register, d: Register, a': Register, b': Register, c': Register,
                 d': Register)
    ensures Xor(Sum4(a, b, c, d), Sum4(a', b', c', d')) == Sum4(Xor(a, a'), Xor(b, b'), Xor(c, c'), Xor(d, d'))
  {}

  lemma MeetAdds(a: Register, b: Register, c: Register, d: Register, a': Register, b': Register, c': Register,
                 d': Register)
    ensures Xor(Meet(a, b, c, d), Meet(a', b', c', d')) == Meet(Xor(a, a'), Xor(b, b'), Xor(c, c'), Xor(d, d'))
  {
    hide Advance;
    AdvanceLinear(G(), 256, a, a');
    AdvanceLinear(G(), 192, b, b');
    AdvanceLinear(G(), 128, c, c');
    AdvanceLinear(G(), 64, d, d');
    Sum4Adds(Advance(G(), 256, a), Advance(G(), 192, b), Advance(G(), 128, c), Advance(G(), 64, d),
             Advance(G(), 256, a'), Advance(G(), 192, b'), Advance(G(), 128, c'), Advance(G(), 64, d'));
  }

  lemma WordStep(s: Register, w: Register, n: nat)
    ensures Advance(G(), n, Advance(G(), 64, Xor(s, w))) == Xor(Advance(G(), 64 + n, s), Advance(G(), 64 + n, w))
  {
    hide *;
    AdvanceAdd(G(), 64, n, Xor(s, w));
    AdvanceLinear(G(), 64 + n, s, w);
  }

  lemma Sum5(e: Register, a: Register, b: Register, c: Register, d: Register)
    ensures Xor(Xor(Xor(Xor(e, a), b), c), d) == Xor(e, Sum4(a, b, c, d))
  {}

  /** Four words after s, spread over the lanes: the register s counts in the first lane. */
  lemma FeedWordsMeet(s: Register, w0: Register, w1: Register, w2: Register, w3: Register)
    ensures FeedWords(s, w0, w1, w2, w3) == Xor(Advance(G(), 256, s), Meet(w0, w1, w2, w3))
  {
    hide Advance, Xor;
    var s1 := Advance(G(), 64, Xor(s, w0));
    var s2 := Advance(G(), 64, Xor(s1, w1));
    var s3 := Advance(G(), 64, Xor(s2, w2));
    WordStep(s, w0, 192);
    WordStep(s1, w1, 128);
    WordStep(s2, w2, 64);
    AdvanceLinear(G(), 64, s3, w3);
    Sum5(Advance(G(), 256, s), Advance(G(), 256, w0), Advance(G(), 192, w1), Advance(G(), 128, w2),
      Advance(G(), 64, w3));
  }

  /** The loop invariant of the fast path: the lanes meet where the sequential register will be. */
  ghost predicate LanesAgree(s: Register, c0: Register, c1: Register, c2: Register, c3: Register) {
    Advance(G(), 256, s) == Meet(c0, c1, c2, c3)
  }

  /** The last fold turns agreeing lanes back into the sequential register. */
  lemma FoldLanes(s: Register, c0: Register, c1: Register, c2: Register, c3: Register,
                  w0: Register, w1: Register, w2: Register, w3: Register)
    requires LanesAgree(s, c0, c1, c2, c3)
    ensures FeedWords(s, w0, w1, w2, w3) == Meet(Xor(c0, w0), Xor(c1, w1), Xor(c2, w2), Xor(c3, w3))
  {
    hide Meet, FeedWords;
    FeedWordsMeet(s, w0, w1, w2, w3);
    MeetAdds(c0, c1, c2, c3, w0, w1, w2, w3);
  }

  lemma Swap(m: nat, n: nat, r: Register)
    ensures Advance(G(), m, Advance(G(), n, r)) == Advance(G(), n, Advance(G(), m, r))
  {
    hide *;
    AdvanceAdd(G(), m, n, r);
    AdvanceAdd(G(), n, m, r);
  }

  lemma MeetAdvance(a: Register, b: Register, c: Register, d: Register)
    ensures Advance(G(), 256, Meet(a, b, c, d))
         == Meet(Advance(G(), 256, a), Advance(G(), 256, b), Advance(G(), 256, c), Advance(G(), 256, d))
  {
    hide Advance, Xor;
    var a', b', c', d' := Advance(G(), 256, a), Advance(G(), 192, b), Advance(G(), 128, c), Advance(G(), 64, d);
    Swap(256, 192, b);
    Swap(256, 128, c);
    Swap(256, 64, d);
    AdvanceLinear(G(), 256, Xor(Xor(a', b'), c'), d');
    AdvanceLinear(G(), 256, Xor(a', b'), c');
    AdvanceLinear(G(), 256, a', b');
  }

  /** Advancing every lane by 32 bytes keeps the lanes in agreement. */
  lemma AdvanceLanes(s: Register, c0: Register, c1: Register, c2: Register, c3: Register,
                     w0: Register, w1: Register, w2: Register, w3: Register)
    requires LanesAgree(s, c0, c1, c2, c3)
    ensures LanesAgree(FeedWords(s, w0, w1, w2, w3),
                       Advance(G(), 256, Xor(c0, w0)), Advance(G(), 256, Xor(c1, w1)),
                       Advance(G(), 256, Xor(c2, w2)), Advance(G(), 256, Xor(c3, w3)))
  {
    hide Meet, FeedWords, Advance, Xor;
    FoldLanes(s, c0, c1, c2, c3, w0, w1, w2, w3);
    MeetAdvance(Xor(c0, w0), Xor(c1, w1), Xor(c2, w2), Xor(c3, w3));
  }

  // ---------- the whole update ----------

  /** Feeding eight bytes is adding the word they load as and 64 zero bits. */
  lemma FeedLoaded(s: Register, bytes: seq<byte>)
    requires |bytes| == 8
    ensures Feed(G(), s, BitString(bytes)) == Advance(G(), 64, Xor(s, Poly(LoadWord(bytes))))
  {
    hide Feed, Advance;
    FeedBlock(G(), s, BitString(bytes));
    assert Pad(BitString(bytes)) == BitString(bytes);
  }

  lemma FeedBytesConcat(s: Register, a: seq<byte>, b: seq<byte>)
    ensures Feed(G(), s, BitString(a + b)) == Feed(G(), Feed(G(), s, BitString(a)), BitString(b))
  {
    hide *;
    BitStringConcat(a, b);
    FeedConcat(G(), s, BitString(a), BitString(b));
  }

  /** Word i of the 32 bytes at p. */
  function Load(data: seq<byte>, p: nat, i: nat): uint64
    requires p + 8 * i + 8 <= |data|
  {
    LoadWord(data[p + 8 * i..p + 8 * i + 8])
  }

  lemma LoadSlice(data: seq<byte>, p: nat, i: nat)
    requires p + 32 <= |data| && i < 4
    ensures Load(data[p..p + 32], 0, i) == Load(data, p, i)
  {
    hide LoadWord;
    SliceOfSlice(data, p, 8 * i);
  }

  lemma SliceOfSlice(data: seq<byte>, p: nat, k: nat)
    requires p + 32 <= |data| && k + 8 <= 32
    ensures data[p..p + 32][k..k + 8] == data[p + k..p + k + 8]
  {
    var d := data[p..p + 32];
    var x, y := d[k..k + 8], data[p + k..p + k + 8];
    forall j | 0 <= j < 8 ensures x[j] == y[j] {
      assert d[k + j] == data[p + (k + j)];
    }
  }

  lemma FeedStride(s: Register, d: seq<byte>)
    requires |d| == 32
    ensures Feed(G(), s, BitString(d))
         == FeedWords(s, Poly(Load(d, 0, 0)), Poly(Load(d, 0, 1)), Poly(Load(d, 0, 2)), Poly(Load(d, 0, 3)))
  {
    hide Feed, Advance, Xor, BitString, LoadWord, Poly, G;
    var d1, d2, d3 := d[8..], d[16..], d[24..32];
    assert d == d[0..8] + d1 && d1 == d[8..16] + d2 && d2 == d[16..24] + d3;
    FeedBytesConcat(s, d[0..8], d1);
    FeedLoaded(s, d[0..8]);
    var s1 := Feed(G(), s, BitString(d[0..8]));
    FeedBytesConcat(s1, d[8..16], d2);
    FeedLoaded(s1, d[8..16]);
    var s2 := Feed(G(), s1, BitString(d[8..16]));
    FeedBytesConcat(s2, d[16..24], d3);
    FeedLoaded(s2, d[16..24]);
    FeedLoaded(Feed(G(), s2, BitString(d[16..24])), d3);
  }

  /** The statement u_crc = (u_crc >> 8) ^ m_u1[(u_crc ^ data) & 0xff]. */
  function TailStep(u: uint64, b: byte): uint64 {
    BitXor(ShiftRight8(u), U1(LowByte(BitXor(u, b))))
  }

  lemma PolyByte(b: byte)
    ensures Poly(b) == Pad(Bits(b, 8)) && Poly(b)[8..] == Zeros(56)
  {
    Pow2At8();
    BitsBeyond(b, 8, 64);
  }

  lemma ShiftIgnoresByte(u: uint64, b: byte)
    ensures ShiftRight8(BitXor(u, b)) == ShiftRight8(u)
  {
    hide Poly, Bits, BitXor, ShiftRight8, Word;
    var x := BitXor(u, b);
    PolyByte(b);
    PolyXor(u, b);
    PolyShift(x);
    PolyShift(u);
    forall i | 8 <= i < 64 ensures Poly(x)[i] == Poly(u)[i] {
      assert Poly(b)[8..][i - 8] == false;
    }
    assert Poly(x)[8..] == Poly(u)[8..];
    PolyInjective(ShiftRight8(x), ShiftRight8(u));
  }

  lemma FeedByte(u: uint64, b: byte)
    ensures Poly(TailStep(u, b)) == Feed(G(), Poly(u), BitString([b]))
  {
    hide Feed, Advance, Xor, Bits, BitXor, Word;
    assert BitString([b]) == Bits(b, 8);
    FeedBlock(G(), Poly(u), Bits(b, 8));
    PolyByte(b);
    PolyXor(u, b);
    TableStepAdvances(BitXor(u, b));
    ShiftIgnoresByte(u, b);
  }

  /** The register after the first n bytes of data. */
  ghost function After(start: Register, data: seq<byte>, n: nat): Register
    requires n <= |data|
  {
    Feed(G(), start, BitString(data[..n]))
  }

  lemma PolyZero()
    ensures Poly(0) == Zeros(64)
  {
    BitsOfZero(64);
  }

  lemma LanesStart(start: Register, data: seq<byte>)
    ensures LanesAgree(After(start, data, 0), start, Poly(0), Poly(0), Poly(0))
  {
    hide Advance, Poly, Bits;
    assert BitString(data[..0]) == [];
    PolyZero();
    AdvanceZeros(G(), 192);
    AdvanceZeros(G(), 128);
    AdvanceZeros(G(), 64);
    XorCancels(Advance(G(), 256, start), Zeros(64));
  }

  lemma PolyLoadXor(w: uint64, c: uint64)
    ensures Poly(BitXor(w, c)) == Xor(Poly(c), Poly(w))
  {
    PolyXor(w, c);
    XorCommutes(Poly(w), Poly(c));
  }

  lemma AfterStride(start: Register, data: seq<byte>, p: nat)
    requires p + 32 <= |data|
    ensures After(start, data, p + 32) == FeedWords(After(start, data, p),
              Poly(Load(data, p, 0)), Poly(Load(data, p, 1)), Poly(Load(data, p, 2)), Poly(Load(data, p, 3)))
  {
    hide Feed, Advance, Xor, BitString, FeedWords, Load, Poly, G;
    var d := data[p..p + 32];
    assert data[..p + 32] == data[..p] + d;
    FeedBytesConcat(start, data[..p], d);
    FeedStride(After(start, data, p), d);
    LoadSlice(data, p, 0);
    LoadSlice(data, p, 1);
    LoadSlice(data, p, 2);
    LoadSlice(data, p, 3);
  }

  /** One round of the loop: every lane takes its word and moves on by 32 bytes. */
  lemma LanesRound(start: Register, data: seq<byte>, p: nat, u0: uint64, u1: uint64, u2: uint64, u3: uint64)
    requires p + 32 <= |data|
    requires LanesAgree(After(start, data, p), Poly(u0), Poly(u1), Poly(u2), Poly(u3))
    ensures LanesAgree(After(start, data, p + 32),
                       Advance(G(), 256, Poly(BitXor(Load(data, p, 0), u0))),
                       Advance(G(), 256, Poly(BitXor(Load(data, p, 1), u1))),
                       Advance(G(), 256, Poly(BitXor(Load(data, p, 2), u2))),
                       Advance(G(), 256, Poly(BitXor(Load(data, p, 3), u3))))
  {
    hide *;
    PolyLoadXor(Load(data, p, 0), u0);
    PolyLoadXor(Load(data, p, 1), u1);
    PolyLoadXor(Load(data, p, 2), u2);
    PolyLoadXor(Load(data, p, 3), u3);
    AfterStride(start, data, p);
    AdvanceLanes(After(start, data, p), Poly(u0), Poly(u1), Poly(u2), Poly(u3),
                 Poly(Load(data, p, 0)), Poly(Load(data, p, 1)), Poly(Load(data, p, 2)), Poly(Load(data, p, 3)));
  }

  /** The fold after the loop: one word a lane, the lanes joining one after the other. */
  lemma LanesFold(start: Register, data: seq<byte>, p: nat, u0: uint64, u1: uint64, u2: uint64, u3: uint64,
                  f0: uint64, f1: uint64, f2: uint64, f3: uint64)
    requires p + 32 <= |data|
    requires LanesAgree(After(start, data, p), Poly(u0), Poly(u1), Poly(u2), Poly(u3))
    requires Poly(f0) == Advance(G(), 64, Poly(BitXor(Load(data, p, 0), u0)))
    requires Poly(f1) == Advance(G(), 64, Poly(BitXor(f0, BitXor(Load(data, p, 1), u1))))
    requires Poly(f2) == Advance(G(), 64, Poly(BitXor(f1, BitXor(Load(data, p, 2), u2))))
    requires Poly(f3) == Advance(G(), 64, Poly(BitXor(f2, BitXor(Load(data, p, 3), u3))))
    ensures Poly(f3) == After(start, data, p + 32)
  {
    hide Advance, Xor, Poly, BitXor, Load, After, Meet, LanesAgree;
    var x0, x1 := BitXor(Load(data, p, 0), u0), BitXor(Load(data, p, 1), u1);
    var x2, x3 := BitXor(Load(data, p, 2), u2), BitXor(Load(data, p, 3), u3);
    PolyLoadXor(Load(data, p, 0), u0);
    PolyLoadXor(Load(data, p, 1), u1);
    PolyLoadXor(Load(data, p, 2), u2);
    PolyLoadXor(Load(data, p, 3), u3);
    PolyXor(f0, x1);
    PolyXor(f1, x2);
    PolyXor(f2, x3);
    XorCommutes(Zeros(64), Poly(x0));
    XorCancels(Poly(x0), Poly(x0));
    assert Poly(f3) == FeedWords(Zeros(64), Poly(x0), Poly(x1), Poly(x2), Poly(x3));
    FeedWordsMeet(Zeros(64), Poly(x0), Poly(x1), Poly(x2), Poly(x3));
    AdvanceZeros(G(), 256);
    var met := Meet(Poly(x0), Poly(x1), Poly(x2), Poly(x3));
    XorCommutes(Zeros(64), met);
    XorCancels(met, met);
    AfterStride(start, data, p);
    FoldLanes(After(start, data, p), Poly(u0), Poly(u1), Poly(u2), Poly(u3),
              Poly(Load(data, p, 0)), Poly(Load(data, p, 1)), Poly(Load(data, p, 2)), Poly(Load(data, p, 3)));
  }

  lemma AfterByte(start: Register, data: seq<byte>, p: nat, u: uint64)
    requires p < |data| && Poly(u) == After(start, data, p)
    ensures Poly(TailStep(u, data[p])) == After(start, data, p + 1)
  {
    hide Feed, BitString, TailStep, Poly;
    assert data[..p + 1] == data[..p] + [data[p]];
    FeedBytesConcat(start, data[..p], [data[p]]);
    FeedByte(u, data[p]);
  }

  lemma AllConsumed(data: seq<byte>, crc64: uint64, u: uint64)
    requires Poly(u) == After(Poly(Complement(crc64)), data, |data|)
    ensures Complement(u) == Crc(data, crc64)
  {
    hide Feed, BitString, Poly, Word;
    assert data[..|data|] == data;
    PolyInjective(u, Word(Feed(G(), Poly(Complement(crc64)), BitString(data))));
  }

  /** update_crc64_builtin_impl: the CRC of data continued from crc64, 32 bytes a round while they last. */
  method UpdateCrc64(data: seq<byte>, crc64: uint64) returns (crc: uint64)
    ensures crc == Crc(data, crc64)
  {
    hide *;
    var uCrc := Complement(crc64);
    ghost var start := Poly(uCrc);
    var pData, size := 0, |data|;
    AfterNothing(start, data);
    var uStop := size - size % 32;
    if uStop >= 2 * 32 {
      var uCrc0, uCrc1, uCrc2, uCrc3 := uCrc, 0, 0, 0;
      var pLast := pData + uStop - 32;
      size := size - uStop;
      LanesStart(start, data);
      while pData < pLast
        invariant pData % 32 == 0 && pData <= pLast
        invariant LanesAgree(After(start, data, pData), Poly(uCrc0), Poly(uCrc1), Poly(uCrc2), Poly(uCrc3))
      {
        LanesRound(start, data, pData, uCrc0, uCrc1, uCrc2, uCrc3);
        uCrc0 := AdvanceLane(BitXor(Load(data, pData, 0), uCrc0));
        uCrc1 := AdvanceLane(BitXor(Load(data, pData, 1), uCrc1));
        uCrc2 := AdvanceLane(BitXor(Load(data, pData, 2), uCrc2));
        uCrc3 := AdvanceLane(BitXor(Load(data, pData, 3), uCrc3));
        pData := pData + 32;
      }
      uCrc := FoldWord(BitXor(Load(data, pData, 0), uCrc0));
      ghost var f0 := uCrc;
      uCrc := FoldWord(BitXor(uCrc, BitXor(Load(data, pData, 1), uCrc1)));
      ghost var f1 := uCrc;
      uCrc := FoldWord(BitXor(uCrc, BitXor(Load(data, pData, 2), uCrc2)));
      ghost var f2 := uCrc;
      uCrc := FoldWord(BitXor(uCrc, BitXor(Load(data, pData, 3), uCrc3)));
      LanesFold(start, data, pData, uCrc0, uCrc1, uCrc2, uCrc3, f0, f1, f2, uCrc);
      pData := pData + 32;
    }
    var uBytes := 0;
    while uBytes < size
      invariant uBytes <= size && pData + size - uBytes == |data|
      invariant Poly(uCrc) == After(start, data, pData)
    {
      AfterByte(start, data, pData, uCrc);
      uCrc := TailStep(uCrc, data[pData]);
      uBytes, pData := uBytes + 1, pData + 1;
    }
    AllConsumed(data, crc64, uCrc);
    crc := Complement(uCrc);
  }

  lemma AfterNothing(start: Register, data: seq<byte>)
    ensures After(start, data, 0) == start
  {
    assert BitString(data[..0]) == [];
  }

  // ---------- what the CRC is good for ----------

  /** Chaining: the CRC of a message may be taken piece by piece, wherever it is cut. */
  lemma Chaining(a: seq<byte>, b: seq<byte>, crc: uint64)
    ensures Crc(b, Crc(a, crc)) == Crc(a + b, crc)
  {
    hide Feed, BitString, Poly, Word, G;
    var s := Poly(Complement(crc));
    FeedBytesConcat(s, a, b);
    assert Poly(Complement(Crc(a, crc))) == Feed(G(), s, BitString(a));
  }

  /** The CRC is the remainder of long division by the generator x^64 + g: the message followed by 64 zeros,
      with the complemented start value added to its front. */
  lemma CrcIsRemainder(data: seq<byte>, crc: uint64)
    ensures Poly(Complement(Crc(data, crc)))
         == Remainder(G(), AddFront(BitString(data) + Zeros(64), Poly(Complement(crc))))
  {
    hide Feed, BitString, Poly, Word, G, Remainder;
    FeedIsRemainder(G(), Poly(Complement(crc)), BitString(data));
  }

  lemma GeneratorIsMonic()
    ensures G()[63]
  {
    Pow2At64();
    assert Pow2(64) == 2 * Pow2(63);
    ConstantTerm(POLY, 63);
  }

  lemma ConstantTerm(x: nat, n: nat)
    requires Pow2(n) <= x < 2 * Pow2(n)
    ensures Bits(x, n + 1)[n]
  {
    if n > 0 {
      ConstantTerm(x / 2, n - 1);
      assert Bits(x, n + 1)[n] == Bits(x / 2, n)[n - 1];
    }
  }

  lemma {:induction false} BitStringInjective(a: seq<byte>, b: seq<byte>)
    requires |a| == |b| && BitString(a) == BitString(b)
    ensures a == b
  {
    if a != [] {
      assert Bits(a[0], 8) == BitString(a)[..8] && Bits(b[0], 8) == BitString(b)[..8];
      assert BitString(a[1..]) == BitString(a)[8..] && BitString(b[1..]) == BitString(b)[8..];
      Pow2At8();
      BitsValue(a[0], 8);
      BitsValue(b[0], 8);
      BitStringInjective(a[1..], b[1..]);
      assert a == [a[0]] + a[1..] && b == [b[0]] + b[1..];
    }
  }

  lemma ThreeParts<T>(x: seq<T>, i: nat, j: nat)
    requires i <= j <= |x|
    ensures x == x[..i] + x[i..j] + x[j..]
  {}

  lemma SameAround<T>(x: seq<T>, y: seq<T>, from: nat, to: nat)
    requires |x| == |y| && from <= to <= |x|
    requires forall i :: 0 <= i < |x| && !(from <= i < to) ==> x[i] == y[i]
    ensures x[..from] == y[..from] && x[to..] == y[to..]
  {}

  /** Bit strings that differ only inside a window of 64 bits do not feed to the same register. */
  lemma BurstInWindow(s: Register, x: seq<bool>, y: seq<bool>, at: nat, n: nat)
    requires |x| == |y| && n <= 64 && at + n <= |x|
    requires forall i :: 0 <= i < |x| && !(at <= i < at + n) ==> x[i] == y[i]
    requires Feed(G(), s, x) == Feed(G(), s, y)
    ensures x == y
  {
    hide Feed, G;
    SameAround(x, y, at, at + n);
    ThreeParts(x, at, at + n);
    ThreeParts(y, at, at + n);
    GeneratorIsMonic();
    BurstDetected(G(), s, x[..at], x[at..at + n], y[at..at + n], x[at + n..]);
  }

  lemma SameCrcSameRegister(a: seq<byte>, b: seq<byte>, crc: uint64)
    requires Crc(a, crc) == Crc(b, crc)
    ensures Feed(G(), Poly(Complement(crc)), BitString(a)) == Feed(G(), Poly(Complement(crc)), BitString(b))
  {
    hide Feed, Poly, Word, G, BitString;
    assert Poly(Complement(Crc(a, crc))) == Feed(G(), Poly(Complement(crc)), BitString(a));
    assert Poly(Complement(Crc(b, crc))) == Feed(G(), Poly(Complement(crc)), BitString(b));
  }

  /** Two different messages of the same length whose bits agree outside some 64 contiguous ones
      never have the same CRC. */
  lemma BurstChangesCrc(a: seq<byte>, b: seq<byte>, crc: uint64, at: nat, n: nat)
    requires |a| == |b| && a != b
    requires n <= 64 && at + n <= 8 * |a|
    requires forall i :: 0 <= i < 8 * |a| && !(at <= i < at + n) ==> BitString(a)[i] == BitString(b)[i]
    ensures Crc(a, crc) != Crc(b, crc)
  {
    hide *;
    if Crc(a, crc) == Crc(b, crc) {
      SameCrcSameRegister(a, b, crc);
      BurstInWindow(Poly(Complement(crc)), BitString(a), BitString(b), at, n);
      BitStringInjective(a, b);
      assert false;
    }
  }
}
