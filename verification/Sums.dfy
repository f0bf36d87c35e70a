/** Sums over sequences of indices. */
module Sums {

  function Sum(s: seq<nat>, f: nat -> int): int {
    if s == [] then 0 else Sum(s[..|s| - 1], f) + f(s[|s| - 1])
  }

  /** The sum over all indices below `n`. */
  function SumTo(n: nat, f: nat -> int): int {
    if n == 0 then 0 else SumTo(n - 1, f) + f(n - 1)
  }

  lemma SumSnoc(s: seq<nat>, x: nat, f: nat -> int)
    ensures Sum(s + [x], f) == Sum(s, f) + f(x)
  {
    assert (s + [x])[..|s|] == s;
  }

  lemma {:induction false} SumConcat(s: seq<nat>, t: seq<nat>, f: nat -> int)
    ensures Sum(s + t, f) == Sum(s, f) + Sum(t, f)
  {
    if t == [] {
      assert s + t == s;
    } else {
      var u, x := t[..|t| - 1], t[|t| - 1];
      SumConcat(s, u, f);
      assert s + t == (s + u) + [x];
      SumSnoc(s + u, x, f);
    }
  }

  lemma SumCons(x: nat, s: seq<nat>, f: nat -> int)
    ensures Sum([x] + s, f) == f(x) + Sum(s, f)
  {
    SumConcat([x], s, f);
    assert [x] == [] + [x];
    SumSnoc([], x, f);
  }

  lemma {:induction false} SumCongruent(s: seq<nat>, f: nat -> int, g: nat -> int)
    requires forall x :: x in s ==> f(x) == g(x)
    ensures Sum(s, f) == Sum(s, g)
  {
    if s != [] { SumCongruent(s[..|s| - 1], f, g); }
  }

  lemma {:induction false} SumToCongruent(n: nat, f: nat -> int, g: nat -> int)
    requires forall x :: 0 <= x < n ==> f(x) == g(x)
    ensures SumTo(n, f) == SumTo(n, g)
  {
    if n > 0 { SumToCongruent(n - 1, f, g); }
  }

  lemma {:induction false} SumToZero(n: nat, f: nat -> int)
    requires forall x :: 0 <= x < n ==> f(x) == 0
    ensures SumTo(n, f) == 0
  {
    if n > 0 { SumToZero(n - 1, f); }
  }

  /** Sums do not depend on the order of the summands. */
  lemma {:induction false} SumPermutation(s: seq<nat>, t: seq<nat>, f: nat -> int)
    requires multiset(s) == multiset(t)
    ensures Sum(s, f) == Sum(t, f)
  {
    if s == [] {
      assert |multiset(t)| == |multiset(s)|;
    } else {
      var u, x := s[..|s| - 1], s[|s| - 1];
      assert s == u + [x];
      var i := IndexIn(t, x);
      RemoveAt(t, i);
      SumPermutation(u, t[..i] + t[i + 1..], f);
      hide Sum;
      SumSnoc(u, x, f);
      SumConcat(t[..i], [x] + t[i + 1..], f);
      SumCons(x, t[i + 1..], f);
      SumConcat(t[..i], t[i + 1..], f);
    }
  }

  lemma IndexIn(t: seq<nat>, x: nat) returns (i: nat)
    requires x in multiset(t)
    ensures i < |t| && t[i] == x
  {
    i :| 0 <= i < |t| && t[i] == x;
  }

  lemma RemoveAt(t: seq<nat>, i: nat)
    requires i < |t|
    ensures t == t[..i] + ([t[i]] + t[i + 1..])
    ensures multiset(t[..i] + t[i + 1..]) == multiset(t) - multiset{t[i]}
  {
    assert t == t[..i] + ([t[i]] + t[i + 1..]);
    assert multiset(t) == multiset(t[..i]) + (multiset{t[i]} + multiset(t[i + 1..]));
  }

  /** Changing one summand changes the sum by the difference. */
  lemma {:induction false} SumToUpdate(n: nat, f: nat -> int, g: nat -> int, k: nat)
    requires k < n && forall x :: 0 <= x < n && x != k ==> f(x) == g(x)
    ensures SumTo(n, g) == SumTo(n, f) + g(k) - f(k)
  {
    if k == n - 1 { SumToCongruent(n - 1, f, g); } else { SumToUpdate(n - 1, f, g, k); }
  }

  lemma {:induction false} SumToShorter(n: nat, m: nat, f: nat -> int)
    requires m <= n && forall x :: m <= x < n ==> f(x) == 0
    ensures SumTo(n, f) == SumTo(m, f)
  {
    if m < n { SumToShorter(n - 1, m, f); }
  }
}
