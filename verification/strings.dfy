/** Splitting and joining strings at a separator. */
module Strings {

  /** The pieces between separators; there is always at least one. */
  function Split(s: string, sep: char): (r: seq<string>)
    ensures r != []
  {
    if s == "" then [""]
    else
      var rest := Split(s[1..], sep);
      if s[0] == sep then [""] + rest else [[s[0]] + rest[0]] + rest[1..]
  }

  function Join(pieces: seq<string>, sep: char): string
    requires pieces != []
  {
    if |pieces| == 1 then pieces[0] else pieces[0] + [sep] + Join(pieces[1..], sep)
  }

  ghost predicate Free(pieces: seq<string>, sep: char) {
    forall i :: 0 <= i < |pieces| ==> sep !in pieces[i]
  }

  lemma {:induction false} SplitOne(piece: string, sep: char)
    requires sep !in piece
    ensures Split(piece, sep) == [piece]
  {
    if piece != "" {
      SplitOne(piece[1..], sep);
      assert [piece[0]] + piece[1..] == piece;
    }
  }

  lemma {:induction false} SplitHead(head: string, rest: string, sep: char)
    requires sep !in head
    ensures Split(head + [sep] + rest, sep) == [head] + Split(rest, sep)
  {
    var s := head + [sep] + rest;
    if head == "" {
      assert s[1..] == rest;
    } else {
      SplitHead(head[1..], rest, sep);
      assert s[1..] == head[1..] + [sep] + rest;
      assert [s[0]] + head[1..] == head;
    }
  }

  lemma {:induction false} JoinParts(a: seq<string>, b: seq<string>, sep: char)
    requires a != [] && b != []
    ensures Join(a + b, sep) == Join(a, sep) + [sep] + Join(b, sep)
  {
    if |a| > 1 {
      JoinParts(a[1..], b, sep);
      assert (a + b)[1..] == a[1..] + b;
    } else {
      assert (a + b)[1..] == b;
    }
  }

  lemma JoinAppend(pieces: seq<string>, piece: string, sep: char)
    requires pieces != []
    ensures Join(pieces + [piece], sep) == Join(pieces, sep) + [sep] + piece
  {
    JoinParts(pieces, [piece], sep);
  }

  lemma {:induction false} SplitJoin(pieces: seq<string>, sep: char)
    requires pieces != [] && Free(pieces, sep)
    ensures Split(Join(pieces, sep), sep) == pieces
  {
    if |pieces| == 1 {
      SplitOne(pieces[0], sep);
      assert pieces == [pieces[0]];
    } else {
      SplitHead(pieces[0], Join(pieces[1..], sep), sep);
      SplitJoin(pieces[1..], sep);
      assert pieces == [pieces[0]] + pieces[1..];
    }
  }

  lemma JoinHead(head: string, pieces: seq<string>, sep: char)
    requires pieces != []
    ensures Join([head + pieces[0]] + pieces[1..], sep) == head + Join(pieces, sep)
    ensures Join([head] + pieces, sep) == head + [sep] + Join(pieces, sep)
  {
    assert ([head + pieces[0]] + pieces[1..])[1..] == pieces[1..];
    assert ([head] + pieces)[1..] == pieces;
  }

  /** Splitting loses nothing: the pieces are free of separators and join to the string. */
  lemma {:induction false} JoinSplit(s: string, sep: char)
    ensures Free(Split(s, sep), sep) && Join(Split(s, sep), sep) == s
  {
    if s != "" {
      hide Join;
      JoinSplit(s[1..], sep);
      var rest := Split(s[1..], sep);
      var pieces := Split(s, sep);
      JoinHead(if s[0] == sep then "" else [s[0]], rest, sep);
      forall i | 0 <= i < |pieces| ensures sep !in pieces[i] {
        if i > 0 {
          assert pieces[i] == rest[if s[0] == sep then i - 1 else i];
        }
      }
      assert s == [s[0]] + s[1..];
    }
  }

  /** A string is split at every separator, also at the one between two parts. */
  lemma SplitParts(a: string, b: string, sep: char)
    ensures Split(a + [sep] + b, sep) == Split(a, sep) + Split(b, sep)
  {
    hide Split, Join;
    JoinSplit(a, sep);
    JoinSplit(b, sep);
    JoinParts(Split(a, sep), Split(b, sep), sep);
    SplitJoin(Split(a, sep) + Split(b, sep), sep);
  }

  /** Whatever the pieces contain, the first part of each is among the parts of the joined string. */
  lemma {:induction false} SplitOfJoin(pieces: seq<string>, sep: char, i: nat)
    requires i < |pieces|
    ensures Split(pieces[i], sep)[0] in Split(Join(pieces, sep), sep)
  {
    hide Split;
    if |pieces| > 1 {
      SplitParts(pieces[0], Join(pieces[1..], sep), sep);
      if i > 0 {
        SplitOfJoin(pieces[1..], sep, i - 1);
      }
    }
  }

  /** The first position of c at or after pos, or the length. */
  function Find(s: string, c: char, pos: nat): (r: nat)
    requires pos <= |s|
    ensures pos <= r <= |s| && c !in s[pos..r] && (r < |s| ==> s[r] == c)
    decreases |s| - pos
  {
    if pos == |s| || s[pos] == c then pos
    else
      var r := Find(s, c, pos + 1);
      assert s[pos..r] == [s[pos]] + s[pos + 1..r];
      r
  }

  lemma FindBehind(head: string, rest: string, c: char)
    requires c !in head
    ensures |head| <= Find(head + rest, c, 0)
  {
    hide Find;
    var s := head + rest;
    assert forall k :: 0 <= k < |head| ==> s[k] == head[k];
  }

  lemma SplitAtFind(s: string, sep: char)
    ensures var i := Find(s, sep, 0);
      Split(s, sep) == if i == |s| then [s] else [s[..i]] + Split(s[i + 1..], sep)
  {
    var i := Find(s, sep, 0);
    assert s[0..i] == s[..i];
    if i == |s| {
      assert s[..i] == s;
      SplitOne(s, sep);
    } else {
      SplitHead(s[..i], s[i + 1..], sep);
      assert s == s[..i] + [sep] + s[i + 1..];
    }
  }

  lemma FindInSuffix(s: string, c: char, pos: nat)
    requires pos <= |s|
    ensures Find(s, c, pos) == pos + Find(s[pos..], c, 0)
  {
    var suffix := s[pos..];
    var i, j := Find(s, c, pos), Find(suffix, c, 0);
    assert forall k :: pos <= k < i ==> s[k] == s[pos..i][k - pos];
    assert forall k :: 0 <= k < j ==> suffix[k] == suffix[0..j][k];
  }

  lemma SplitFrom(s: string, sep: char, pos: nat)
    requires pos <= |s|
    ensures var i := Find(s, sep, pos);
      Split(s[pos..], sep) == [s[pos..i]] + if i == |s| then [] else Split(s[i + 1..], sep)
  {
    hide Split, Find;
    var i := Find(s, sep, pos);
    FindInSuffix(s, sep, pos);
    SplitAtFind(s[pos..], sep);
    assert s[pos..][..i - pos] == s[pos..i];
    if i < |s| {
      assert s[pos..][i - pos + 1..] == s[i + 1..];
    } else {
      assert s[pos..i] == s[pos..];
    }
  }

  /** core::string_split, for a separator of one character. */
  method StringSplit(s: string, sep: char) returns (result: seq<string>)
    ensures result == Split(s, sep)
  {
    hide Split, Find;
    result := [];
    var pos := 0;
    var more := true;
    assert s[0..] == s;
    while more
      invariant pos <= |s|
      invariant Split(s, sep) == if more then result + Split(s[pos..], sep) else result
      decreases if more then |s| - pos + 1 else 0
    {
      var found := Find(s, sep, pos);
      SplitFrom(s, sep, pos);
      ghost var rest := if found == |s| then [] else Split(s[found + 1..], sep);
      assert result + ([s[pos..found]] + rest) == (result + [s[pos..found]]) + rest;
      result := result + [s[pos..found]];
      more := found < |s|;
      if more {
        pos := found + 1;
      }
    }
  }
}
