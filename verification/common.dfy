/** What several components share. */
module Common {

  type byte = n: nat | n < 256

  datatype Option<+T> = None | Some(value: T)

  datatype Location = Primary | Secondary

  function Pow2(n: nat): (p: nat)
    ensures p > 0
  {
    if n == 0 then 1 else 2 * Pow2(n - 1)
  }

  /** The first k buffers, joined in order. */
  function Joined<T>(buffers: seq<seq<T>>, k: nat): seq<T>
    requires k <= |buffers|
  {
    if k == 0 then [] else Joined(buffers, k - 1) + buffers[k - 1]
  }

  lemma PartOfPart<T>(s: seq<T>, from: nat, to: nat, low: nat, high: nat)
    requires from <= low <= high <= to <= |s|
    ensures s[from..to][low - from..high - from] == s[low..high]
  {
    var part, inner := s[from..to], s[low..high];
    var taken := part[low - from..high - from];
    forall k | 0 <= k < high - low ensures taken[k] == inner[k] {
      assert part[low - from + k] == s[low + k];
    }
  }

  /** Write into a byte target from a position on, growing it where the data runs past its end. */
  function Overwrite(t: seq<byte>, position: nat, data: seq<byte>): (r: seq<byte>)
    requires position <= |t|
    ensures |r| == if position + |data| < |t| then |t| else position + |data|
    ensures r[..position] == t[..position] && r[position..position + |data|] == data
  {
    var after := position + |data|;
    t[..position] + data + (if after < |t| then t[after..] else [])
  }

  /** What a hash provider was given of some content, all but `singles` characters; it has the hash of the content
      exactly if there are none of these. */
  predicate HashFits(content: seq<byte>, hashed: seq<byte>, singles: nat) {
    |content| == |hashed| + singles && (singles == 0 ==> hashed == content)
  }

  lemma NothingFits()
    ensures HashFits([], [], 0)
  {}

  lemma OneMore(content: seq<byte>, hashed: seq<byte>, singles: nat, ch: byte)
    requires HashFits(content, hashed, singles)
    ensures HashFits(content + [ch], hashed, singles + 1)
  {}

  lemma {:induction false} JoinedExtends<T>(a: seq<seq<T>>, x: seq<T>, k: nat)
    requires k <= |a|
    ensures Joined(a + [x], k) == Joined(a, k)
  {
    if k > 0 {
      JoinedExtends(a, x, k - 1);
    }
  }

  lemma JoinedAppend<T>(a: seq<seq<T>>, x: seq<T>)
    ensures Joined(a + [x], |a| + 1) == Joined(a, |a|) + x
  {
    JoinedExtends(a, x, |a|);
  }

  lemma BothGrow(content: seq<byte>, hashed: seq<byte>, singles: nat, data: seq<byte>)
    requires HashFits(content, hashed, singles)
    ensures HashFits(content + data, hashed + data, singles)
  {}
}
