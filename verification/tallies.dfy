/** Counting the elements of a sequence that satisfy a predicate. */
module Tallies {

  function Tally<T>(s: seq<T>, f: T -> bool): nat {
    if s == [] then 0 else (if f(s[0]) then 1 else 0) + Tally(s[1..], f)
  }

  lemma {:induction false} TallyUpdate<T>(s: seq<T>, i: nat, p: T, f: T -> bool)
    requires i < |s|
    ensures Tally(s[i := p], f) == Tally(s, f) - (if f(s[i]) then 1 else 0) + (if f(p) then 1 else 0)
  {
    if i > 0 {
      TallyUpdate(s[1..], i - 1, p, f);
      assert s[i := p][1..] == s[1..][i - 1 := p];
    } else {
      assert s[0 := p][1..] == s[1..];
    }
  }

  lemma {:induction false} TallyNone<T>(s: seq<T>, f: T -> bool)
    requires forall i :: 0 <= i < |s| ==> !f(s[i])
    ensures Tally(s, f) == 0
  {
    if s != [] {
      TallyNone(s[1..], f);
    }
  }

  lemma {:induction false} TallyFind<T>(s: seq<T>, f: T -> bool) returns (i: nat)
    requires Tally(s, f) > 0
    ensures i < |s| && f(s[i])
  {
    if f(s[0]) {
      i := 0;
    } else {
      var j := TallyFind(s[1..], f);
      i := j + 1;
    }
  }

  lemma {:induction false} TallyAtMost<T>(s: seq<T>, f: T -> bool, w: nat)
    requires w <= |s|
    requires forall i :: w <= i < |s| ==> !f(s[i])
    ensures Tally(s, f) <= w
    ensures Tally(s, f) == w ==> forall i :: 0 <= i < w ==> f(s[i])
  {
    if w == 0 {
      TallyNone(s, f);
    } else {
      TallyAtMost(s[1..], f, w - 1);
      if Tally(s, f) == w {
        forall i | 0 <= i < w ensures f(s[i]) {
          if i > 0 {
            assert s[i] == s[1..][i - 1];
          }
        }
      }
    }
  }

  lemma {:induction false} TallyPrefix<T>(s: seq<T>, f: T -> bool, w: nat)
    requires w <= |s|
    requires forall i :: 0 <= i < |s| ==> (f(s[i]) <==> i < w)
    ensures Tally(s, f) == w
  {
    if w == 0 {
      TallyNone(s, f);
    } else {
      forall i | 0 <= i < |s[1..]| ensures f(s[1..][i]) <==> i < w - 1 {
        assert s[1..][i] == s[i + 1];
      }
      TallyPrefix(s[1..], f, w - 1);
    }
  }
}
