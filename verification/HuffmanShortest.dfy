/** What optimal code lengths mean for the symbols: no lengths that leave room for a prefix code cost less. */
module HuffmanShortest {
  import opened Bits
  import opened Sums
  import opened Canonical
  import opened HuffmanTree
  import opened HuffmanForest
  import opened HuffmanOptimality
  import opened HuffmanCollect

  /** A code's share of the Kraft sum; unused codes have none. */
  function ShareTerm(len: seq<nat>, max: nat): nat -> int {
    (x: nat) => if At(len, x) == 0 || At(len, x) > max then 0 else Pow2(max - At(len, x))
  }

  lemma {:induction false} KraftAsSum(len: seq<nat>, n: nat, max: nat)
    requires n <= |len| && LengthsUpTo(len[..n], max)
    ensures Kraft(len[..n], max) == SumTo(n, ShareTerm(len, max))
  {
    if n > 0 {
      assert len[..n][..n - 1] == len[..n - 1];
      assert len[..n][n - 1] == len[n - 1];
      KraftAsSum(len, n - 1, max);
    }
  }

  /** Every counted symbol has a code. */
  ghost predicate Covering(freq: seq<nat>, ls: seq<nat>, elems: nat) {
    forall x :: 0 <= x < elems && At(freq, x) != 0 ==> At(ls, x) >= 1
  }

  /** No lengths with a code for every counted symbol that meet the Kraft inequality need fewer bits, however long
      they are. */
  ghost predicate Shortest(freq: seq<nat>, len: seq<nat>, elems: nat) {
    forall ls: seq<nat>, u: nat :: |ls| <= elems && NotOversubscribed(ls, u) && Covering(freq, ls, elems) ==>
      SumTo(elems, LenTerm(freq, len, elems)) <= SumTo(elems, LenTerm(freq, ls, elems))
  }

  /** A more frequent symbol never has a longer code. */
  ghost predicate FrequentShort(freq: seq<nat>, len: seq<nat>, elems: nat) {
    forall x, y :: 0 <= x < elems && 0 <= y < elems && 0 < At(freq, x) < At(freq, y) ==> At(len, y) <= At(len, x)
  }

  lemma {:induction false} DotIsSum(s: seq<nat>, freq: seq<nat>, ls: seq<nat>, elems: nat)
    requires forall x :: x in s ==> x < elems
    ensures Dot(Weights(s, freq), Weights(s, ls)) == Sum(s, LenTerm(freq, ls, elems))
  {
    if s != [] {
      var t, x := s[..|s| - 1], s[|s| - 1];
      assert s == t + [x];
      assert x in s && forall y :: y in t ==> y in s;
      DotIsSum(t, freq, ls, elems);
      WeightsSnoc(t, x, freq);
      WeightsSnoc(t, x, ls);
      SumSnoc(t, x, LenTerm(freq, ls, elems));
    }
  }

  lemma WeightsSnoc(s: seq<nat>, x: nat, freq: seq<nat>)
    ensures Weights(s + [x], freq) == Weights(s, freq) + [At(freq, x)]
  {
  }

  lemma {:induction false} KraftOfNodes(s: seq<nat>, ls: seq<nat>, u: nat)
    requires forall x :: x in s ==> 1 <= At(ls, x) <= u
    ensures UpTo(Weights(s, ls), u) && KraftSum(Weights(s, ls), u) == Sum(s, ShareTerm(ls, u))
  {
    hide Pow2, Sum, KraftSum;
    WeightsUpTo(s, ls, u);
    if s == [] {
      assert Weights(s, ls) == [];
      NoKraft(u);
      SumOfNone(ShareTerm(ls, u));
    } else {
      var t, x := s[..|s| - 1], s[|s| - 1];
      assert s == t + [x];
      assert x in s && forall y :: y in t ==> y in s;
      KraftOfNodes(t, ls, u);
      WeightsSnoc(t, x, ls);
      KraftSnoc(Weights(t, ls), At(ls, x), u);
      SumSnoc(t, x, ShareTerm(ls, u));
    }
  }

  lemma WeightsUpTo(s: seq<nat>, ls: seq<nat>, u: nat)
    requires forall x :: x in s ==> At(ls, x) <= u
    ensures UpTo(Weights(s, ls), u)
  {
    forall i | 0 <= i < |s| ensures Weights(s, ls)[i] <= u { assert s[i] in s; }
  }

  lemma NoKraft(u: nat)
    ensures KraftSum([], u) == 0
  {
  }

  lemma KraftSnoc(ls: seq<nat>, l: nat, u: nat)
    requires UpTo(ls, u) && l <= u
    ensures UpTo(ls + [l], u) && KraftSum(ls + [l], u) == KraftSum(ls, u) + Pow2(u - l)
  {
    hide Pow2;
    assert (ls + [l])[..|ls|] == ls;
  }

  lemma {:induction false} SumOfSome(freq: seq<nat>, n: nat, f: nat -> int)
    requires n <= |freq| && forall x: nat :: f(x) >= 0
    ensures Sum(Syms(freq, n), f) <= SumTo(n, f)
  {
    hide Sum;
    if n == 0 {
      SumOfNone(f);
    } else {
      SumOfSome(freq, n - 1, f);
      SumSnoc(Syms(freq, n - 1), n - 1, f);
    }
  }

  /** The counted symbols' codes take no more than all codes do. */
  lemma SymbolsFit(freq: seq<nat>, ls: seq<nat>, elems: nat, u: nat)
    requires |ls| <= elems <= |freq| && NotOversubscribed(ls, u) && Covering(freq, ls, elems)
    ensures var s := Syms(freq, elems); UpTo(Weights(s, ls), u) && KraftSum(Weights(s, ls), u) <= Pow2(u)
  {
    hide Sum, SumTo, Syms, Kraft, Used, KraftSum, Weights;
    var s, f := Syms(freq, elems), ShareTerm(ls, u);
    SymsMembers(freq, elems);
    forall x | x in s ensures 1 <= At(ls, x) <= u { assert At(freq, x) != 0; }
    KraftOfNodes(s, ls, u);
    SumOfSome(freq, elems, f);
    SumToShorter(elems, |ls|, f);
    assert ls[..|ls|] == ls;
    KraftAsSum(ls, |ls|, u);
    UsedIsKraft(ls, u);
  }

  /** The bits of all symbols, once as a sum over the codes and once over the symbols. */
  lemma CostOfSymbols(freq: seq<nat>, ls: seq<nat>, elems: nat)
    requires elems <= |freq|
    ensures var s := Syms(freq, elems);
            Dot(Weights(s, freq), Weights(s, ls)) == SumTo(elems, LenTerm(freq, ls, elems))
  {
    hide Sum, SumTo, Syms, Weights, Dot;
    SymsMembers(freq, elems);
    DotIsSum(Syms(freq, elems), freq, ls, elems);
    forall x: nat | x < elems && freq[x] == 0 ensures LenTerm(freq, ls, elems)(x) == 0 { assert At(freq, x) == 0; }
    SumOverSyms(freq, elems, LenTerm(freq, ls, elems));
  }

  /** Lengths that cost what the Huffman tree does are the shortest. */
  lemma CheapestIsShortest(freq: seq<nat>, len: seq<nat>, elems: nat)
    requires elems <= |freq|
    requires SumTo(elems, LenTerm(freq, len, elems)) == HuffmanCost(multiset(Weights(Syms(freq, elems), freq)))
    ensures Shortest(freq, len, elems)
  {
    hide HuffmanCost, SumTo, Weights, UpTo, Dot, Syms, KraftSum, LenTerm, Covering, NotOversubscribed;
    forall ls: seq<nat>, u: nat | |ls| <= elems && NotOversubscribed(ls, u) && Covering(freq, ls, elems)
      ensures SumTo(elems, LenTerm(freq, len, elems)) <= SumTo(elems, LenTerm(freq, ls, elems))
    {
      var s := Syms(freq, elems);
      SymbolsFit(freq, ls, elems, u);
      HuffmanIsLowerBound(Weights(s, freq), Weights(s, ls), u);
      CostOfSymbols(freq, ls, elems);
    }
  }

  lemma {:induction false} SumToAtMost(n: nat, f: nat -> int, g: nat -> int)
    requires forall x :: 0 <= x < n ==> f(x) <= g(x)
    ensures SumTo(n, f) <= SumTo(n, g)
  {
    if n > 0 { SumToAtMost(n - 1, f, g); }
  }

  /** One bit for every counted symbol is the least there is. */
  lemma OneBitIsShortest(freq: seq<nat>, len: seq<nat>, elems: nat)
    requires forall x :: 0 <= x < elems && At(freq, x) != 0 ==> At(len, x) == 1
    ensures Shortest(freq, len, elems)
  {
    hide SumTo;
    forall ls: seq<nat>, u: nat | |ls| <= elems && NotOversubscribed(ls, u) && Covering(freq, ls, elems)
      ensures SumTo(elems, LenTerm(freq, len, elems)) <= SumTo(elems, LenTerm(freq, ls, elems))
    {
      forall x: nat | x < elems ensures LenTerm(freq, len, elems)(x) <= LenTerm(freq, ls, elems)(x) {
        if At(freq, x) != 0 { AtLeastOnce(At(freq, x), At(ls, x)); }
      }
      SumToAtMost(elems, LenTerm(freq, len, elems), LenTerm(freq, ls, elems));
    }
  }

  lemma AtLeastOnce(a: nat, b: nat)
    requires b >= 1
    ensures a <= a * b
  {
  }

  /** Only the frequencies below `elems` matter. */
  lemma ShortestSame(freq: seq<nat>, freq': seq<nat>, len: seq<nat>, elems: nat)
    requires Shortest(freq, len, elems) && forall x :: 0 <= x < elems ==> At(freq, x) == At(freq', x)
    ensures Shortest(freq', len, elems)
  {
    hide SumTo, NotOversubscribed;
    SumToCongruent(elems, LenTerm(freq, len, elems), LenTerm(freq', len, elems));
    forall ls: seq<nat>, u: nat | |ls| <= elems && NotOversubscribed(ls, u) && Covering(freq', ls, elems)
      ensures SumTo(elems, LenTerm(freq', len, elems)) <= SumTo(elems, LenTerm(freq', ls, elems))
    {
      assert Covering(freq, ls, elems);
      SumToCongruent(elems, LenTerm(freq, ls, elems), LenTerm(freq', ls, elems));
    }
  }

  /** Exchanging two lengths in the wrong order would save bits, so optimal lengths have none. */
  lemma CheapestIsFrequentShort(freq: seq<nat>, len: seq<nat>, elems: nat, max: nat)
    requires elems <= |freq|
    requires SumTo(elems, LenTerm(freq, len, elems)) == HuffmanCost(multiset(Weights(Syms(freq, elems), freq)))
    requires |len| >= elems && NotOversubscribed(len[..elems], max) && Covering(freq, len[..elems], elems)
    ensures FrequentShort(freq, len, elems)
  {
    hide HuffmanCost, SumTo, UpTo, Dot, Syms, KraftSum, LenTerm, NotOversubscribed;
    var s := Syms(freq, elems);
    var ws, ls := Weights(s, freq), Weights(s, len);
    SymsMembers(freq, elems);
    forall i | 0 <= i < |s| ensures Weights(s, len[..elems])[i] == ls[i] { assert s[i] in s; }
    assert Weights(s, len[..elems]) == ls;
    SymbolsFit(freq, len[..elems], elems, max);
    CostOfSymbols(freq, len, elems);
    forall x, y | 0 <= x < elems && 0 <= y < elems && 0 < At(freq, x) < At(freq, y) ensures At(len, y) <= At(len, x) {
      assert x in s && y in s;
      var i := IndexIn(s, x);
      var p := IndexIn(s, y);
      NoInversion(ws, ls, i, p, max);
    }
  }

  lemma NoInversion(ws: seq<nat>, ls: seq<nat>, i: nat, p: nat, u: nat)
    requires |ws| == |ls| && i < |ws| && p < |ws| && UpTo(ls, u) && KraftSum(ls, u) <= Pow2(u)
    requires Dot(ws, ls) == HuffmanCost(multiset(ws)) && ws[i] < ws[p]
    ensures ls[p] <= ls[i]
  {
    hide HuffmanCost, UpTo, Dot, KraftSum;
    if ls[i] < ls[p] {
      SwapLengths(ws, ls, i, p, u);
      SwapDot(ws, ls, i, p);
      HuffmanIsLowerBound(ws, ls[i := ls[p]][p := ls[i]], u);
    }
  }
}
