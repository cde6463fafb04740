/** What the register computes: the remainder of schoolbook polynomial division,
    hence a checksum that no short burst of errors can leave unchanged. */
module CrcDivision {
  import opened CrcRegister

  /** Add d to the leading coefficients of m. */
  function AddFront(m: seq<bool>, d: seq<bool>): (r: seq<bool>)
    requires |d| <= |m|
    ensures |r| == |m|
  {
    Xor(m[..|d|], d) + m[|d|..]
  }

  /** Long division of m by the monic generator x^64 + g: cancel the leading term while one is left. */
  function Remainder(g: Register, m: seq<bool>): Register
    requires |m| >= 64
    decreases |m|
  {
    if |m| == 64 then m
    else if m[0] then Remainder(g, AddFront(m[1..], g))
    else Remainder(g, m[1..])
  }

  /** The product of quotient q and the generator x^64 + g. */
  function Product(g: Register, q: seq<bool>): (p: seq<bool>)
    ensures |p| == |q| + 64
    decreases |q|
  {
    if q == [] then Zeros(64)
    else
      var rest := [false] + Product(g, q[1..]);
      if q[0] then AddFront(rest, [true] + g) else rest
  }

  function Quotient(g: Register, m: seq<bool>): (q: seq<bool>)
    requires |m| >= 64
    ensures |q| == |m| - 64
    decreases |m|
  {
    if |m| == 64 then []
    else if m[0] then [true] + Quotient(g, AddFront(m[1..], g))
    else [false] + Quotient(g, m[1..])
  }

  lemma AddFrontTwice(m: seq<bool>, d: seq<bool>)
    requires |d| <= |m|
    ensures AddFront(AddFront(m, d), d) == m
  {}

  lemma AddFrontXor(m: seq<bool>, n: seq<bool>, d: seq<bool>)
    requires |d| <= |m| == |n|
    ensures Xor(AddFront(m, d), n) == AddFront(Xor(m, n), d)
  {}

  lemma AddFrontCons(x: bool, y: bool, m: seq<bool>, d: seq<bool>)
    requires |d| <= |m|
    ensures AddFront([x] + m, [y] + d) == [x != y] + AddFront(m, d)
  {}

  lemma XorCons(x: bool, y: bool, m: seq<bool>, n: seq<bool>)
    requires |m| == |n|
    ensures Xor([x] + m, [y] + n) == [x != y] + Xor(m, n)
  {}

  /** The remainder deserves its name: m = q * (x^64 + g) + r with r of degree below 64. */
  lemma {:induction false} RemainderDivides(g: Register, m: seq<bool>)
    requires |m| >= 64
    ensures m == Xor(Product(g, Quotient(g, m)), Zeros(|m| - 64) + Remainder(g, m))
    decreases |m|
  {
    hide *;
    if |m| == 64 {
      NothingToDivide(g, m);
    } else {
      var next := if m[0] then AddFront(m[1..], g) else m[1..];
      RemainderDivides(g, next);
      DivisionStep(g, m, next);
      ProductCons(g, m[0], Quotient(g, next));
      ZerosCons(|next| - 64, Remainder(g, next));
      AddLeading(m[0], Product(g, Quotient(g, next)), Zeros(|next| - 64) + Remainder(g, next), g);
      AddFrontTwice(m[1..], g);
      assert m == [m[0]] + m[1..];
    }
  }

  lemma NothingToDivide(g: Register, m: seq<bool>)
    requires |m| == 64
    ensures m == Xor(Product(g, Quotient(g, m)), Zeros(|m| - 64) + Remainder(g, m))
  {
    hide Xor;
    XorCommutes(Zeros(64), m);
    XorCancels(m, m);
    assert Zeros(0) + m == m;
  }

  lemma ZerosCons(n: nat, r: seq<bool>)
    ensures Zeros(n + 1) + r == [false] + (Zeros(n) + r)
  {}

  /** One step of the division. */
  lemma DivisionStep(g: Register, m: seq<bool>, next: seq<bool>)
    requires |m| > 64 && next == if m[0] then AddFront(m[1..], g) else m[1..]
    ensures Quotient(g, m) == [m[0]] + Quotient(g, next) && Remainder(g, m) == Remainder(g, next)
  {
    hide AddFront;
  }

  lemma ProductCons(g: Register, b: bool, q: seq<bool>)
    ensures var rest := [false] + Product(g, q);
      Product(g, [b] + q) == if b then AddFront(rest, [true] + g) else rest
  {
    hide AddFront;
    assert ([b] + q)[1..] == q;
  }

  /** A leading term of the product, put back. */
  lemma AddLeading(b: bool, p: seq<bool>, z: seq<bool>, g: Register)
    requires 64 <= |p| == |z|
    ensures var rest := [false] + p;
      Xor(if b then AddFront(rest, [true] + g) else rest, [false] + z)
        == [b] + if b then AddFront(Xor(p, z), g) else Xor(p, z)
  {
    hide AddFront, Xor;
    XorCons(false, false, p, z);
    if b {
      AddFrontXor([false] + p, [false] + z, [true] + g);
      AddFrontCons(false, true, Xor(p, z), g);
    }
  }

  /** And it is the only one: whatever multiple of the generator is added, division finds r again. */
  lemma {:induction false} RemainderUnique(g: Register, q: seq<bool>, r: Register)
    ensures Remainder(g, Xor(Product(g, q), Zeros(|q|) + r)) == r
    decreases |q|
  {
    if q == [] {
      XorCommutes(Zeros(64), Zeros(0) + r);
      XorCancels(Zeros(0) + r, r);
    } else {
      hide AddFront, Xor;
      var p, z := Product(g, q[1..]), Zeros(|q| - 1) + r;
      var m, next := Xor(Product(g, q), Zeros(|q|) + r), Xor(p, z);
      assert Zeros(|q|) + r == [false] + z;
      XorCons(false, false, p, z);
      if q[0] {
        AddFrontXor([false] + p, [false] + z, [true] + g);
        AddFrontCons(false, true, next, g);
        AddFrontTwice(next, g);
        assert m == [true] + AddFront(next, g);
      } else {
        assert m == [false] + next;
      }
      RemainderUnique(g, q[1..], r);
    }
  }

  /** Feeding message bits into a register is dividing the message, shifted up by 64,
      after the register was added to its front. */
  lemma {:induction false} FeedIsRemainder(g: Register, r: Register, bits: seq<bool>)
    ensures Feed(g, r, bits) == Remainder(g, AddFront(bits + Zeros(64), r))
    decreases |bits|
  {
    if bits == [] {
      XorCommutes(Zeros(64), r);
      XorCancels(r, r);
      assert AddFront(bits + Zeros(64), r) == r;
    } else {
      var first, tail := [r[0] != bits[0]] + r[1..], bits[1..] + Zeros(64);
      FeedIsRemainder(g, Step(g, first), bits[1..]);
      DivideOnce(g, r, bits[0], tail);
      assert bits + Zeros(64) == [bits[0]] + tail;
    }
  }

  /** One step of long division and one step of the register do the same to the front of the message. */
  lemma DivideOnce(g: Register, r: Register, bit: bool, tail: seq<bool>)
    requires |tail| >= 64
    ensures Remainder(g, AddFront([bit] + tail, r)) == Remainder(g, AddFront(tail, Step(g, [r[0] != bit] + r[1..])))
  {
    var m, first := AddFront([bit] + tail, r), [r[0] != bit] + r[1..];
    var shifted := r[1..] + [false];
    AddFrontCons(bit, r[0], tail, r[1..]);
    AddFrontPad(tail, r[1..]);
    hide AddFront, Xor;
    assert r == [r[0]] + r[1..] && first[1..] == r[1..];
    assert m == [first[0]] + AddFront(tail, shifted) && m[1..] == AddFront(tail, shifted);
    if m[0] {
      AddFrontBoth(tail, shifted, g);
    }
  }

  lemma AddFrontPad(m: seq<bool>, d: seq<bool>)
    requires |d| < |m|
    ensures AddFront(m, d + [false]) == AddFront(m, d)
  {
    forall i | 0 <= i < |m| ensures AddFront(m, d + [false])[i] == AddFront(m, d)[i] {}
  }

  lemma AddFrontBoth(m: seq<bool>, d: seq<bool>, e: seq<bool>)
    requires |d| == |e| <= |m|
    ensures AddFront(AddFront(m, d), e) == AddFront(m, Xor(d, e))
  {}

  /** Equal-length bit strings that feed to the same register from the same start
      and differ only inside a window of 64 bits are equal: no burst goes unseen. */
  lemma BurstDetected(g: Register, r: Register, before: seq<bool>, a: seq<bool>, b: seq<bool>, after: seq<bool>)
    requires g[63] && |a| == |b| <= 64
    requires Feed(g, r, before + a + after) == Feed(g, r, before + b + after)
    ensures a == b
  {
    var s := Feed(g, r, before);
    FeedThree(g, r, before, a, after);
    FeedThree(g, r, before, b, after);
    FeedInjective(g, Feed(g, s, a), Feed(g, s, b), after);
    FeedBlock(g, s, a);
    FeedBlock(g, s, b);
    AdvanceInjective(g, |a|, Xor(s, Pad(a)), Xor(s, Pad(b)));
    XorInjective(s, Pad(a), Pad(b));
    assert a == Pad(a)[..|a|] && b == Pad(b)[..|a|];
  }

  lemma FeedThree(g: Register, r: Register, a: seq<bool>, b: seq<bool>, c: seq<bool>)
    ensures Feed(g, r, a + b + c) == Feed(g, Feed(g, Feed(g, r, a), b), c)
  {
    FeedConcat(g, r, a + b, c);
    FeedConcat(g, r, a, b);
  }

  /** Different registers stay different whatever is fed to both. */
  lemma {:induction false} FeedInjective(g: Register, r: Register, s: Register, bits: seq<bool>)
    requires g[63] && Feed(g, r, bits) == Feed(g, s, bits)
    ensures r == s
    decreases |bits|
  {
    if bits != [] {
      var r', s' := [r[0] != bits[0]] + r[1..], [s[0] != bits[0]] + s[1..];
      FeedInjective(g, Step(g, r'), Step(g, s'), bits[1..]);
      StepInjective(g, r', s');
      assert r'[1..] == r[1..] && s'[1..] == s[1..];
      assert r == [r[0]] + r[1..] && s == [s[0]] + s[1..];
    }
  }
}
