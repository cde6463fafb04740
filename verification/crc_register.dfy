/** The 64-bit CRC register seen as a polynomial over GF(2): its coefficients, highest power first.
    Everything the CRC code relies on is proved here about division by the generator. */
module CrcRegister {

  type Register = r: seq<bool> | |r| == 64 witness Zeros(64)

  function Zeros(n: nat): (z: seq<bool>)
    ensures |z| == n
  {
    seq(n, i => false)
  }

  /** Addition of polynomials of the same length. */
  function Xor(a: seq<bool>, b: seq<bool>): (c: seq<bool>)
    requires |a| == |b|
    ensures |c| == |a| && forall i :: 0 <= i < |c| ==> c[i] == (a[i] != b[i])
  {
    seq(|a|, i requires 0 <= i < |a| => a[i] != b[i])
  }

  /** Multiply by x and reduce by the monic generator whose lower coefficients are g. */
  function Step(g: Register, r: Register): Register {
    var shifted := r[1..] + [false];
    if r[0] then Xor(shifted, g) else shifted
  }

  /** The register after n further zero bits. */
  function Advance(g: Register, n: nat, r: Register): Register
    decreases |r|, n
  {
    if n == 0 then r else Advance(g, n - 1, Step(g, r))
  }

  /** The register after a string of message bits, one division step a bit. */
  function Feed(g: Register, r: Register, bits: seq<bool>): Register
    decreases |bits|
  {
    if bits == [] then r else Feed(g, Step(g, [r[0] != bits[0]] + r[1..]), bits[1..])
  }

  // ---------- addition ----------

  lemma XorCommutes(a: seq<bool>, b: seq<bool>)
    requires |a| == |b|
    ensures Xor(a, b) == Xor(b, a)
  {}

  lemma XorAssociates(a: seq<bool>, b: seq<bool>, c: seq<bool>)
    requires |a| == |b| == |c|
    ensures Xor(Xor(a, b), c) == Xor(a, Xor(b, c))
  {}

  lemma XorCancels(a: seq<bool>, b: seq<bool>)
    requires |a| == |b|
    ensures Xor(Xor(a, b), b) == a && Xor(a, a) == Zeros(|a|) && Xor(a, Zeros(|a|)) == a
  {}

  lemma XorInjective(a: seq<bool>, b: seq<bool>, c: seq<bool>)
    requires |a| == |b| == |c| && Xor(a, b) == Xor(a, c)
    ensures b == c
  {
    forall i | 0 <= i < |b| ensures b[i] == c[i] {
      assert Xor(a, b)[i] == Xor(a, c)[i];
    }
  }

  // ---------- the step is linear and can be undone ----------

  lemma StepLinear(g: Register, a: Register, b: Register)
    ensures Step(g, Xor(a, b)) == Xor(Step(g, a), Step(g, b))
  {}

  /** A generator with constant term 1 reveals whether it was added. */
  lemma StepInjective(g: Register, a: Register, b: Register)
    requires g[63] && Step(g, a) == Step(g, b)
    ensures a == b
  {
    assert Step(g, a)[63] == a[0] && Step(g, b)[63] == b[0];
    forall i | 1 <= i < 64 ensures a[i] == b[i] {
      assert Step(g, a)[i - 1] == Step(g, b)[i - 1];
    }
  }

  lemma {:induction false} AdvanceLinear(g: Register, n: nat, a: Register, b: Register)
    ensures Advance(g, n, Xor(a, b)) == Xor(Advance(g, n, a), Advance(g, n, b))
    decreases n
  {
    if n > 0 {
      StepLinear(g, a, b);
      AdvanceLinear(g, n - 1, Step(g, a), Step(g, b));
    }
  }

  lemma {:induction false} AdvanceInjective(g: Register, n: nat, a: Register, b: Register)
    requires g[63] && Advance(g, n, a) == Advance(g, n, b)
    ensures a == b
    decreases n
  {
    if n > 0 {
      AdvanceInjective(g, n - 1, Step(g, a), Step(g, b));
      StepInjective(g, a, b);
    }
  }

  lemma {:induction false} AdvanceAdd(g: Register, m: nat, n: nat, r: Register)
    ensures Advance(g, m + n, r) == Advance(g, n, Advance(g, m, r))
    decreases m
  {
    if m > 0 {
      AdvanceAdd(g, m - 1, n, Step(g, r));
    }
  }

  // ---------- feeding message bits ----------

  lemma {:induction false} FeedConcat(g: Register, r: Register, a: seq<bool>, b: seq<bool>)
    ensures Feed(g, r, a + b) == Feed(g, Feed(g, r, a), b)
    decreases |a|
  {
    if a == [] {
      assert a + b == b;
    } else {
      assert (a + b)[1..] == a[1..] + b;
      FeedConcat(g, Step(g, [r[0] != a[0]] + r[1..]), a[1..], b);
    }
  }

  /** At most 64 message bits, padded to a register. */
  function Pad(bits: seq<bool>): Register
    requires |bits| <= 64
  {
    bits + Zeros(64 - |bits|)
  }

  /** Feeding up to 64 bits is one addition followed by that many zero steps. */
  lemma {:induction false} FeedBlock(g: Register, r: Register, bits: seq<bool>)
    requires |bits| <= 64
    ensures Feed(g, r, bits) == Advance(g, |bits|, Xor(r, Pad(bits)))
    decreases |bits|
  {
    if bits == [] {
      XorCancels(r, Pad(bits));
      assert Pad(bits) == Zeros(64);
    } else {
      var first := [r[0] != bits[0]] + r[1..];
      var rest := [false] + bits[1..] + Zeros(64 - |bits|);
      assert Xor(r, Pad(bits)) == Xor(first, rest);
      StepLinear(g, first, rest);
      assert Step(g, rest) == Pad(bits[1..]);
      FeedBlock(g, Step(g, first), bits[1..]);
    }
  }

  /** Zero coefficients in front only shift. */
  lemma {:induction false} AdvanceShift(g: Register, n: nat, bits: seq<bool>)
    requires n + |bits| <= 64
    ensures Advance(g, n, Pad(Zeros(n) + bits)) == Pad(bits)
    decreases n
  {
    if n == 0 {
      assert Zeros(0) + bits == bits;
    } else {
      assert Step(g, Pad(Zeros(n) + bits)) == Pad(Zeros(n - 1) + bits);
      AdvanceShift(g, n - 1, bits);
    }
  }

  lemma {:induction false} AdvanceZeros(g: Register, n: nat)
    ensures Advance(g, n, Zeros(64)) == Zeros(64)
    decreases n
  {
    if n > 0 {
      assert Step(g, Zeros(64)) == Zeros(64);
      AdvanceZeros(g, n - 1);
    }
  }
}
