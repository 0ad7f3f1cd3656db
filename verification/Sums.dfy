/** Sums over a sequence, and how they change when one element is put in, taken out or replaced. */
module Sums {

  function SumOf<T>(s: seq<T>, f: T -> nat): nat {
    if s == [] then 0 else f(s[0]) + SumOf(s[1..], f)
  }

  lemma {:induction false} SumOfAppend<T>(s: seq<T>, t: seq<T>, f: T -> nat)
    ensures SumOf(s + t, f) == SumOf(s, f) + SumOf(t, f)
  {
    if s == [] {
      assert s + t == t;
    } else {
      SumOfAppend(s[1..], t, f);
      assert (s + t)[1..] == s[1..] + t;
    }
  }

  lemma {:induction false} SumUpdate<T>(s: seq<T>, i: nat, x: T, f: T -> nat)
    requires i < |s|
    ensures SumOf(s[i := x], f) == SumOf(s, f) - f(s[i]) + f(x)
  {
    if i > 0 {
      SumUpdate(s[1..], i - 1, x, f);
      assert s[i := x][1..] == s[1..][i - 1 := x];
    } else {
      assert s[0 := x][1..] == s[1..];
    }
  }

  lemma {:induction false} SumInsert<T>(s: seq<T>, i: nat, x: T, f: T -> nat)
    requires i <= |s|
    ensures SumOf(s[..i] + [x] + s[i..], f) == SumOf(s, f) + f(x)
  {
    var t := s[..i] + [x] + s[i..];
    if i > 0 {
      SumInsert(s[1..], i - 1, x, f);
      assert t[1..] == s[1..][..i - 1] + [x] + s[1..][i - 1..];
    } else {
      assert t[1..] == s;
    }
  }

  lemma {:induction false} SumRemove<T>(s: seq<T>, i: nat, f: T -> nat)
    requires i < |s|
    ensures SumOf(s[..i] + s[i + 1..], f) == SumOf(s, f) - f(s[i])
  {
    var t := s[..i] + s[i + 1..];
    assert s == t[..i] + [s[i]] + t[i..];
    SumInsert(t, i, s[i], f);
  }

  lemma {:induction false} SumAtMost<T>(s: seq<T>, f: T -> nat, g: T -> nat)
    requires forall x: T | x in s :: f(x) <= g(x)
    ensures SumOf(s, f) <= SumOf(s, g)
  {
    if s != [] { SumAtMost(s[1..], f, g); }
  }
}
