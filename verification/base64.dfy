/** The Base64 text of a byte string (section 4 of RFC 4648), as block ids and account keys use it. */
module Base64 {
  import opened Common

  type sextet = n: nat | n < 64

  function Letter(n: sextet): char {
    if n < 26 then 'A' + n as char
    else if n < 52 then 'a' + (n - 26) as char
    else if n < 62 then '0' + (n - 52) as char
    else if n == 62 then '+'
    else '/'
  }

  function Sextet(c: char): (r: Option<sextet>)
    ensures r.Some? ==> Letter(r.value) == c
  {
    if 'A' <= c <= 'Z' then Some((c - 'A') as nat)
    else if 'a' <= c <= 'z' then Some((c - 'a') as nat + 26)
    else if '0' <= c <= '9' then Some((c - '0') as nat + 52)
    else if c == '+' then Some(62)
    else if c == '/' then Some(63)
    else None
  }

  /** The alphabet of table 1 in section 4 of RFC 4648. */
  lemma Alphabet(n: sextet)
    ensures Letter(0) == 'A' && Letter(25) == 'Z' && Letter(26) == 'a' && Letter(51) == 'z'
    ensures Letter(52) == '0' && Letter(61) == '9' && Letter(62) == '+' && Letter(63) == '/'
    ensures n !in {25, 51, 61, 62, 63} ==> Letter(n + 1) == Letter(n) + 1 as char
  {}

  lemma SextetOfLetter(n: sextet)
    ensures Sextet(Letter(n)) == Some(n) && Letter(n) != '=' && Letter(n) != ';'
  {}

  /** The 24 bits of three bytes as four sextets. */
  function Pack(a: byte, b: byte, c: byte): (sextet, sextet, sextet, sextet) {
    (a / 4, a % 4 * 16 + b / 16, b % 16 * 4 + c / 64, c % 64)
  }

  /** One to three bytes; missing ones count as zero and show as padding. */
  function EncodeGroup(b: seq<byte>): (r: string)
    requires 1 <= |b| <= 3
    ensures |r| == 4
  {
    var (w, x, y, z) := Pack(b[0], if |b| > 1 then b[1] else 0, if |b| > 2 then b[2] else 0);
    [Letter(w), Letter(x), if |b| > 1 then Letter(y) else '=', if |b| > 2 then Letter(z) else '=']
  }

  function Encode(b: seq<byte>): string {
    if b == [] then "" else if |b| <= 3 then EncodeGroup(b) else EncodeGroup(b[..3]) + Encode(b[3..])
  }

  /** The bytes that four sextets hold. */
  function Unpack(w: nat, x: nat, y: nat, z: nat): (r: seq<byte>)
    requires w < 64 && x < 64 && y < 64 && z < 64
    ensures |r| == 3
  {
    [w * 4 + x / 16, x % 16 * 16 + y / 4, y % 4 * 64 + z]
  }

  lemma GroupVector(b: seq<byte>, w: sextet, x: sextet, y: sextet, z: sextet)
    requires 1 <= |b| <= 3
    requires Pack(b[0], if |b| > 1 then b[1] else 0, if |b| > 2 then b[2] else 0) == (w, x, y, z)
    ensures EncodeGroup(b)
      == [Letter(w), Letter(x), if |b| > 1 then Letter(y) else '=', if |b| > 2 then Letter(z) else '=']
  {}

  lemma TwoGroups(a: seq<byte>, b: seq<byte>)
    requires |a| == 3 && 1 <= |b| <= 3
    ensures Encode(a + b) == EncodeGroup(a) + EncodeGroup(b)
  {
    hide EncodeGroup;
    assert (a + b)[..3] == a && (a + b)[3..] == b;
  }

  lemma SomeLetters()
    ensures Letter(25) == 'Z' && Letter(32) == 'g' && Letter(38) == 'm' && Letter(60) == '8' && Letter(61) == '9'
    ensures Letter(47) == 'v' && Letter(24) == 'Y' && Letter(4) == 'E' && Letter(5) == 'F' && Letter(50) == 'y'
  {}

  /** Test vectors of section 10 of RFC 4648. */
  lemma TestVectors()
    ensures Encode([]) == "" && Encode([102]) == "Zg==" && Encode([102, 111]) == "Zm8="
    ensures Encode([102, 111, 111]) == "Zm9v" && Encode([102, 111, 111] + [98]) == "Zm9v" + "Yg=="
    ensures Encode([102, 111, 111] + [98, 97]) == "Zm9v" + "YmE="
    ensures Encode([102, 111, 111] + [98, 97, 114]) == "Zm9v" + "YmFy"
  {
    SomeLetters();
    hide EncodeGroup, Letter;
    GroupVector([102], 25, 32, 0, 0);
    GroupVector([102, 111], 25, 38, 60, 0);
    GroupVector([102, 111, 111], 25, 38, 61, 47);
    GroupVector([98], 24, 32, 0, 0);
    GroupVector([98, 97], 24, 38, 4, 0);
    GroupVector([98, 97, 114], 24, 38, 5, 50);
    hide Pack;
    TwoGroups([102, 111, 111], [98]);
    TwoGroups([102, 111, 111], [98, 97]);
    TwoGroups([102, 111, 111], [98, 97, 114]);
  }

  /** Four letters, the last ones possibly padding. */
  function DecodeGroup(g: string): Option<seq<byte>>
    requires |g| == 4
  {
    var (w, x, y, z) := (Sextet(g[0]), Sextet(g[1]), Sextet(g[2]), Sextet(g[3]));
    if w.None? || x.None? then None
    else if g[2] == '=' && g[3] == '=' then Some(Unpack(w.value, x.value, 0, 0)[..1])
    else if y.None? then None
    else if g[3] == '=' then Some(Unpack(w.value, x.value, y.value, 0)[..2])
    else if z.None? then None
    else Some(Unpack(w.value, x.value, y.value, z.value))
  }

  /** None where the text is not Base64. Only the last group may be padded. */
  function Decode(s: string): Option<seq<byte>> {
    if s == "" then Some([])
    else if |s| < 4 then None
    else
      var head, rest := DecodeGroup(s[..4]), Decode(s[4..]);
      if head.None? || rest.None? || (s[3] == '=' && |s| > 4) then None
      else Some(head.value + rest.value)
  }

  lemma Repack(a: byte, b: byte, c: byte)
    ensures var (w, x, y, z) := Pack(a, b, c); Unpack(w, x, y, z) == [a, b, c]
  {}

  lemma GroupRoundTrip(b: seq<byte>)
    requires 1 <= |b| <= 3
    ensures DecodeGroup(EncodeGroup(b)) == Some(b)
    ensures EncodeGroup(b)[3] == '=' <==> |b| < 3
    ensures ';' !in EncodeGroup(b)
  {
    hide Letter, Sextet, Pack, Unpack;
    var second := if |b| > 1 then b[1] else 0;
    var third := if |b| > 2 then b[2] else 0;
    Repack(b[0], second, third);
    var (w, x, y, z) := Pack(b[0], second, third);
    SextetOfLetter(w);
    SextetOfLetter(x);
    SextetOfLetter(y);
    SextetOfLetter(z);
    PaddingIsZero(b[0], second);
    assert Unpack(w, x, y, z)[..|b|] == b;
    assert |b| < 3 ==> z == 0;
    assert |b| < 2 ==> y == 0;
    assert |b| == 3 ==> Unpack(w, x, y, z) == b;
  }

  lemma PaddingIsZero(a: byte, b: byte)
    ensures Pack(a, 0, 0).2 == 0 && Pack(a, b, 0).3 == 0
  {}

  lemma {:induction false} DecodeEncode(b: seq<byte>)
    ensures Decode(Encode(b)) == Some(b)
  {
    hide DecodeGroup, EncodeGroup;
    if b != [] {
      var (first, rest) := if |b| <= 3 then (b, []) else (b[..3], b[3..]);
      GroupRoundTrip(first);
      assert Encode(b) == EncodeGroup(first) + Encode(rest);
      assert Encode(b)[..4] == EncodeGroup(first) && Encode(b)[4..] == Encode(rest);
      if |b| <= 3 {
        assert Decode(Encode(rest)) == Some(rest);
      } else {
        DecodeEncode(rest);
      }
      assert b == first + rest;
    }
  }

  /** Different byte strings have different texts. */
  lemma EncodeInjective(a: seq<byte>, b: seq<byte>)
    requires Encode(a) == Encode(b)
    ensures a == b
  {
    DecodeEncode(a);
    DecodeEncode(b);
  }

  lemma DecodeEmpty(s: string)
    requires Decode(s).Some?
    ensures Decode(s).value == [] <==> s == ""
  {
    hide Unpack, Sextet;
    if s != "" {
      assert |s[..4]| == 4;
    }
  }

  /** Whole groups of letters, with padding in the last two places only. */
  predicate IsText(s: string) {
    |s| % 4 == 0
    && (forall i :: 0 <= i < |s| - 2 ==> Sextet(s[i]).Some?)
    && (|s| > 0 && Sextet(s[|s| - 2]).None? ==> s[|s| - 2] == '=' && s[|s| - 1] == '=')
    && (|s| > 0 && Sextet(s[|s| - 1]).None? ==> s[|s| - 1] == '=')
  }

  lemma GroupIff(g: string)
    requires |g| == 4
    ensures DecodeGroup(g).Some? <==> IsText(g)
    ensures Sextet('=').None?
  {
    hide Unpack;
  }

  /** Exactly these texts are decoded. */
  lemma {:induction false} DecodesIff(s: string)
    ensures Decode(s).Some? <==> IsText(s)
  {
    hide DecodeGroup, Sextet;
    if |s| >= 4 {
      GroupIff(s[..4]);
      DecodesIff(s[4..]);
      TextParts(s);
    }
  }

  lemma TextParts(s: string)
    requires |s| >= 4 && Sextet('=').None?
    ensures IsText(s) <==> IsText(s[..4]) && IsText(s[4..]) && (|s| > 4 ==> s[3] != '=')
  {
    hide Sextet;
    var head, rest := s[..4], s[4..];
    assert forall i :: 0 <= i < 4 ==> head[i] == s[i];
    assert forall i :: 0 <= i < |rest| ==> rest[i] == s[i + 4];
    if IsText(head) && IsText(rest) && |s| > 4 && s[3] != '=' {
      forall i | 0 <= i < |s| - 2 ensures Sextet(s[i]).Some? {
        if i >= 4 {
          assert Sextet(rest[i - 4]).Some?;
        } else if i < 2 {
          assert Sextet(head[i]).Some?;
        }
      }
    }
  }

  lemma {:induction false} EncodeLength(b: seq<byte>)
    ensures |Encode(b)| == (|b| + 2) / 3 * 4
  {
    hide EncodeGroup;
    if |b| > 3 {
      EncodeLength(b[3..]);
    }
  }

  /** The text can stand between the separators of a connection string. */
  lemma {:induction false} EncodeHasNoSemicolon(b: seq<byte>)
    ensures ';' !in Encode(b) && (b == [] <==> Encode(b) == "")
  {
    hide EncodeGroup;
    if b != [] {
      GroupRoundTrip(if |b| <= 3 then b else b[..3]);
    }
    if |b| > 3 {
      EncodeHasNoSemicolon(b[3..]);
    }
  }
}
