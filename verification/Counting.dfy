/** Adding up a weight over a sequence; a predicate is counted through the weight `Bit`. */
module Counting {

  function Bit(b: bool): nat {
    if b then 1 else 0
  }

  function Tally<T>(p: T -> nat, s: seq<T>): nat {
    if s == [] then 0 else p(s[0]) + Tally(p, s[1..])
  }

  lemma {:induction false} TallyConcat<T>(p: T -> nat, a: seq<T>, b: seq<T>)
    ensures Tally(p, a + b) == Tally(p, a) + Tally(p, b)
  {
    if a == [] {
      assert a + b == b;
    } else {
      assert (a + b)[1..] == a[1..] + b;
      TallyConcat(p, a[1..], b);
    }
  }

  lemma TallyAppend<T>(p: T -> nat, s: seq<T>, x: T)
    ensures Tally(p, s + [x]) == Tally(p, s) + p(x)
  {
    TallyConcat(p, s, [x]);
    assert [x][1..] == [];
  }

  lemma TallySplit<T>(p: T -> nat, s: seq<T>, i: nat)
    requires i < |s|
    ensures Tally(p, s) == Tally(p, s[..i]) + p(s[i]) + Tally(p, s[i + 1..])
  {
    assert s == s[..i] + [s[i]] + s[i + 1..];
    TallyConcat(p, s[..i] + [s[i]], s[i + 1..]);
    TallyAppend(p, s[..i], s[i]);
  }

  lemma TallyUpdate<T>(p: T -> nat, s: seq<T>, i: nat, x: T)
    requires i < |s|
    ensures Tally(p, s[i := x]) + p(s[i]) == Tally(p, s) + p(x)
  {
    TallySplit(p, s, i);
    TallySplit(p, s[i := x], i);
    assert s[i := x][..i] == s[..i] && s[i := x][i + 1..] == s[i + 1..];
  }

  lemma TallyRemove<T>(p: T -> nat, s: seq<T>, i: nat)
    requires i < |s|
    ensures Tally(p, s[..i] + s[i + 1..]) + p(s[i]) == Tally(p, s)
  {
    TallySplit(p, s, i);
    TallyConcat(p, s[..i], s[i + 1..]);
  }

  lemma TallyPair<T>(p: T -> nat, s: seq<T>, i: nat, j: nat)
    requires i < j < |s|
    ensures p(s[i]) + p(s[j]) <= Tally(p, s)
  {
    TallySplit(p, s, j);
    TallySplit(p, s[..j], i);
    assert s[..j][i] == s[i];
  }

  lemma {:induction false} TallyNone<T>(p: T -> nat, s: seq<T>)
    requires forall i :: 0 <= i < |s| ==> p(s[i]) == 0
    ensures Tally(p, s) == 0
  {
    if s != [] { TallyNone(p, s[1..]); }
  }

  lemma {:induction false} TallySome<T>(p: T -> nat, s: seq<T>) returns (i: nat)
    requires 0 < Tally(p, s)
    ensures i < |s| && 0 < p(s[i])
  {
    if 0 < p(s[0]) {
      i := 0;
    } else {
      var j := TallySome(p, s[1..]);
      i := j + 1;
    }
  }
}
