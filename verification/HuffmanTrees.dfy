/** gen_codes and build_tree of gzip.c. */
module HuffmanTrees {
  import opened Bits
  import opened Sums
  import opened Canonical
  import opened HuffmanHeap
  import opened HuffmanTree
  import opened HuffmanForest
  import opened HuffmanOptimality
  import opened HuffmanTies
  import opened HuffmanBuild
  import opened HuffmanCollect
  import opened HuffmanLengths
  import opened HuffmanBitlen
  import opened HuffmanCodes
  import opened HuffmanShortest

  lemma {:induction false} NoLongerCodes(lens: seq<nat>, max: nat, b: nat)
    requires LengthsUpTo(lens, max) && b > max
    ensures Count(lens, b) == 0
  {
    if lens != [] { NoLongerCodes(lens[..|lens| - 1], max, b); }
  }

  lemma {:induction false} UsedFitsEverywhere(lens: seq<nat>, max: nat, b: nat)
    requires NotOversubscribed(lens, max)
    ensures Used(lens, b) <= Pow2(b)
  {
    if b <= max {
      UsedFits(lens, b, max);
    } else {
      UsedFitsEverywhere(lens, max, b - 1);
      NoLongerCodes(lens, max, b);
    }
  }

  /** Every code stands bit-reversed in its node, so that sending it low bit first sends the canonical code. */
  ghost predicate Coded(lens: seq<nat>, code: seq<nat>) {
    && |lens| <= |code|
    && forall n :: 0 <= n < |lens| && lens[n] > 0 ==>
       code[n] < Pow2(lens[n]) && Lsb(code[n], lens[n]) == CodeBits(lens, n)
  }

  lemma FirstCodeBound(lens: seq<nat>, max: nat, b: nat)
    requires NotOversubscribed(lens, max) && 1 <= b <= 15
    ensures FirstCode(lens, b) == 2 * Used(lens, b - 1) <= Pow2(b) <= 32768
  {
    UsedFitsEverywhere(lens, max, b - 1);
    Pow2Monotone(b, 15);
    assert Pow2(15) == 32768;
  }

  lemma {:induction false} CountSnoc(lens: seq<nat>, n: nat, b: nat)
    requires n < |lens|
    ensures Count(lens[..n + 1], b) == Count(lens[..n], b) + if lens[n] == b then 1 else 0
  {
    assert lens[..n + 1][..n] == lens[..n];
  }

  /** The first code of each length. */
  method FirstCodes(bl: array<nat>, ghost lens: seq<nat>, ghost max: nat) returns (nextCode: array<nat>)
    requires bl.Length == 16 && bl[0] == 0 && NotOversubscribed(lens, max)
    requires forall b :: 1 <= b < 16 ==> bl[b] == Count(lens, b)
    ensures fresh(nextCode) && nextCode.Length == 16 && forall b :: 1 <= b < 16 ==> nextCode[b] == FirstCode(lens, b)
  {
    hide NotOversubscribed, Count, Pow2, FirstCode;
    nextCode := new nat[16](_ => 0);
    var code: nat := 0;
    for bits := 1 to 16
      invariant forall b :: 1 <= b < bits ==> nextCode[b] == FirstCode(lens, b)
      invariant code + bl[bits - 1] == Used(lens, bits - 1)
    {
      FirstCodeBound(lens, max, bits);
      code := 2 * (code + bl[bits - 1]) % 65536;
      nextCode[bits] := code;
    }
  }

  /** Assigns the canonical code, bit-reversed, to every symbol with a length. */
  method GenCodes(t: CtData, bl: array<nat>, maxCode: nat, ghost max: nat)
    requires t.Apart() && maxCode < t.len.Length && maxCode < t.code.Length && bl.Length == 16 && bl[0] == 0
    requires max <= 15
    requires NotOversubscribed(t.len[..maxCode + 1], max)
    requires forall b :: 1 <= b < 16 ==> bl[b] == Count(t.len[..maxCode + 1], b)
    modifies t.code
    ensures Coded(t.len[..maxCode + 1], t.code[..])
  {
    hide Count, Pow2, FirstCode, CodeOf, Msb, Lsb, CodeBits, Used;
    ghost var lens: seq<nat> := t.len[..maxCode + 1];
    var nextCode := FirstCodes(bl, lens, max);
    CountNone(lens);
    for n := 0 to maxCode + 1
      invariant t.len[..maxCode + 1] == lens
      invariant forall b :: 1 <= b < 16 ==> nextCode[b] == FirstCode(lens, b) + Count(lens[..n], b)
      invariant forall k :: 0 <= k < n && lens[k] > 0 ==>
                t.code[k] < Pow2(lens[k]) && Lsb(t.code[k], lens[k]) == CodeBits(lens, k)
    {
      var len := t.len[n];
      assert len == lens[n];
      forall b: nat ensures Count(lens[..n + 1], b) == Count(lens[..n], b) + if lens[n] == b then 1 else 0 {
        CountSnoc(lens, n, b);
      }
      if len == 0 { continue; }
      NextCodeIsCode(lens, n, max);
      var c := nextCode[len];
      nextCode[len] := (nextCode[len] + 1) % 65536;
      t.code[n] := BiReverse(c, len);
    }
  }

  lemma CountNone(lens: seq<nat>)
    ensures forall b: nat :: Count(lens[..0], b) == 0
  {}

  lemma NextCodeIsCode(lens: seq<nat>, n: nat, max: nat)
    requires n < |lens| && lens[n] > 0 && NotOversubscribed(lens, max) && max <= 15
    ensures lens[n] <= 15 && FirstCode(lens, lens[n]) + Count(lens[..n], lens[n]) + 1 < 65536
    ensures CodeBits(lens, n) == Msb(FirstCode(lens, lens[n]) + Count(lens[..n], lens[n]), lens[n])
  {
    CodeFits(lens, n, max);
    Pow2Monotone(lens[n], 15);
    assert Pow2(15) == 32768;
  }

  /** Bits of one occurrence of a code. */
  function BitsTerm(len: seq<nat>, extra: seq<nat>): nat -> int { (x: nat) => At(len, x) + At(extra, x) }

  /** `freq` is `freq0` with the unused codes in `forced` counted once. */
  ghost predicate ForcedFrom(freq0: seq<nat>, freq: seq<nat>, forced: seq<nat>, elems: nat) {
    && |freq0| == |freq| && elems <= |freq| && Symbols(forced, elems)
    && (forall x :: x in forced ==> freq0[x] == 0)
    && forall x :: 0 <= x < elems ==> freq[x] == if x in forced then 1 else freq0[x]
  }

  /** Leaving out the last forced code. */
  lemma ForcedFront(freq0: seq<nat>, freq: seq<nat>, forced: seq<nat>, elems: nat)
    requires ForcedFrom(freq0, freq, forced, elems) && forced != []
    ensures var x := forced[|forced| - 1];
            x < elems && freq[x] == 1 && ForcedFrom(freq0, freq[x := 0], forced[..|forced| - 1], elems)
  {
    var u, x := forced[..|forced| - 1], forced[|forced| - 1];
    assert forced == u + [x];
    assert x in forced && x !in u && forall y :: y in u ==> y in forced;
    assert forall y :: y in forced ==> y in u || y == x;
  }

  lemma {:induction false} ForcedCost(freq0: seq<nat>, freq: seq<nat>, forced: seq<nat>, len: seq<nat>, extra: seq<nat>,
                                      elems: nat)
    requires ForcedFrom(freq0, freq, forced, elems)
    ensures SumTo(elems, CostTerm(freq, len, extra, elems))
            == SumTo(elems, CostTerm(freq0, len, extra, elems)) + Sum(forced, BitsTerm(len, extra))
    decreases |forced|
  {
    hide SumTo, CostTerm;
    if forced == [] {
      forall y: nat | 0 <= y < elems
        ensures CostTerm(freq, len, extra, elems)(y) == CostTerm(freq0, len, extra, elems)(y)
      {
        SameCost(freq, freq0, len, extra, elems, y);
      }
      SumToCongruent(elems, CostTerm(freq, len, extra, elems), CostTerm(freq0, len, extra, elems));
    } else {
      var u, x := forced[..|forced| - 1], forced[|forced| - 1];
      ForcedFront(freq0, freq, forced, elems);
      var mid := freq[x := 0];
      ForcedCost(freq0, mid, u, len, extra, elems);
      var f, g := CostTerm(mid, len, extra, elems), CostTerm(freq, len, extra, elems);
      forall y: nat | 0 <= y < elems && y != x ensures f(y) == g(y) { SameCost(mid, freq, len, extra, elems, y); }
      CostOfForced(mid, freq, len, extra, elems, x);
      SumToUpdate(elems, f, g, x);
      assert forced == u + [x];
      SumSnoc(u, x, BitsTerm(len, extra));
    }
  }

  lemma SameCost(freq: seq<nat>, freq': seq<nat>, len: seq<nat>, extra: seq<nat>, elems: nat, y: nat)
    requires At(freq, y) == At(freq', y)
    ensures CostTerm(freq, len, extra, elems)(y) == CostTerm(freq', len, extra, elems)(y)
  {}

  lemma {:induction false} ForcedTotal(freq0: seq<nat>, freq: seq<nat>, forced: seq<nat>, elems: nat)
    requires ForcedFrom(freq0, freq, forced, elems)
    ensures SumTo(elems, FreqTerm(freq)) == SumTo(elems, FreqTerm(freq0)) + |forced|
    decreases |forced|
  {
    hide SumTo;
    if forced == [] {
      SumToCongruent(elems, FreqTerm(freq), FreqTerm(freq0));
    } else {
      var u, x := forced[..|forced| - 1], forced[|forced| - 1];
      ForcedFront(freq0, freq, forced, elems);
      ForcedTotal(freq0, freq[x := 0], u, elems);
      SumToUpdate(elems, FreqTerm(freq[x := 0]), FreqTerm(freq), x);
    }
  }

  lemma CostOfForced(mid: seq<nat>, freq: seq<nat>, len: seq<nat>, extra: seq<nat>, elems: nat, x: nat)
    requires x < elems && At(mid, x) == 0 && At(freq, x) == 1
    ensures CostTerm(mid, len, extra, elems)(x) == 0 && CostTerm(freq, len, extra, elems)(x) == BitsTerm(len, extra)(x)
  {}

  /** With only two symbols both codes have one bit. */
  lemma TwoCodes(freq: seq<nat>, len: seq<nat>, bl: seq<nat>, elems: nat, maxCode: nat, max: nat)
    requires elems <= |freq| && Measured(freq, len, bl, elems, maxCode, max) && LargestSymbol(freq, elems, maxCode)
    requires |Syms(freq, elems)| == 2 && max >= 1
    ensures forall x :: x in Syms(freq, elems) ==> At(len, x) == 1
  {
    hide Count, Used, Kraft, SumTo, Sum, Syms;
    var f, s, lens := ShareTerm(len, max), Syms(freq, elems), len[..maxCode + 1];
    UsedIsKraft(lens, max);
    KraftAsSum(len, maxCode + 1, max);
    SymsMembers(freq, elems);
    forall x: nat | 0 <= x < elems && freq[x] == 0 ensures f(x) == 0 { assert At(freq, x) == 0; }
    SumToShorter(elems, maxCode + 1, f);
    SumOverSyms(freq, elems, f);
    assert s == [s[0]] + ([s[1]] + []);
    SumCons(s[0], [s[1]] + [], f);
    SumCons(s[1], [], f);
    SumOfNone(f);
    assert s[0] in s && s[1] in s;
    assert 1 <= At(len, s[0]) <= max && 1 <= At(len, s[1]) <= max;
    HalvesOnly(At(len, s[0]), At(len, s[1]), max);
  }

  lemma HalvesOnly(a: nat, b: nat, max: nat)
    requires 1 <= a <= max && 1 <= b <= max && Pow2(max - a) + Pow2(max - b) == Pow2(max)
    ensures a == 1 && b == 1
  {
    Pow2Monotone(max - a, max - 1);
    Pow2Monotone(max - b, max - 1);
    if a > 1 { Pow2Monotone(max - a, max - 2); }
    if b > 1 { Pow2Monotone(max - b, max - 2); }
  }

  /** The forced codes' bits are exactly what was subtracted for them. */
  lemma ForcedBits(forced: seq<nat>, len: seq<nat>, extra: seq<nat>)
    requires forall x :: x in forced ==> At(len, x) == 1 && At(extra, x) == 0
    ensures Sum(forced, BitsTerm(len, extra)) == |forced|
    decreases |forced|
  {
    if forced != [] {
      var u := forced[..|forced| - 1];
      assert forced[|forced| - 1] in forced && forall y :: y in u ==> y in forced;
      ForcedBits(u, len, extra);
    }
  }

  lemma ForcedStaticBits(forced: seq<nat>, slen: seq<nat>, extra: seq<nat>)
    requires forall x :: x in forced ==> At(extra, x) == 0
    ensures Sum(forced, BitsTerm(slen, extra)) == Sum(forced, FreqTerm(slen))
  {
    SumCongruent(forced, BitsTerm(slen, extra), FreqTerm(slen));
  }

  /** A tree as the encoder needs it: a complete canonical code with a code for every counted symbol. */
  ghost predicate Ready(freq0: seq<nat>, len: seq<nat>, code: seq<nat>, elems: nat, maxCode: nat, max: nat) {
    && maxCode < elems <= |len| && Complete(len[..maxCode + 1], max) && Coded(len[..maxCode + 1], code)
    && (forall x :: 0 <= x < elems && At(freq0, x) != 0 ==> x <= maxCode && At(len, x) >= 1)
    && (forall x :: maxCode < x < elems ==> At(len, x) == 0)
    && At(len, maxCode) >= 1
  }

  /** No prefix code for the counted symbols needs fewer bits. */
  ghost predicate Optimal(freq: seq<nat>, len: seq<nat>, elems: nat)
    requires elems <= |freq|
  {
    forall cs: seq<seq<bool>>, u: nat :: |cs| == |Syms(freq, elems)| && PrefixCode(cs) && UpTo(Lengths(cs), u) ==>
      SumTo(elems, LenTerm(freq, len, elems)) <= Dot(Weights(Syms(freq, elems), freq), Lengths(cs))
  }

  /** A tree that joining the two least frequent nodes over and over gives, shallow ones first among equals. */
  ghost predicate TreeOf(tree: HTree, dad: seq<nat>, freq: seq<nat>, elems: nat)
    requires elems <= |freq|
  {
    JoinedBy(tree, freq, Syms(freq, elems), elems) &&
    exists nodes :: Built(nodes, tree, dad, freq, Syms(freq, elems), elems)
  }

  /** `tree` grows from the frequencies, with unused codes counted once where fewer than two symbols are counted. */
  ghost predicate GrownFrom(tree: HTree, freqs: seq<nat>, elems: nat) {
    exists dad: seq<nat>, freq: seq<nat>, forced: seq<nat> :: Grows(tree, freqs, dad, freq, forced, elems)
  }

  ghost predicate Grows(tree: HTree, freqs: seq<nat>, dad: seq<nat>, freq: seq<nat>, forced: seq<nat>, elems: nat) {
    && elems <= |freq| && Symbols(forced, 3) && (forced != [] ==> |Syms(freq, elems)| == 2)
    && (forall x :: x in forced ==> At(freqs, x) == 0)
    && (forall x :: 0 <= x < elems ==> At(freq, x) == if x in forced then 1 else At(freqs, x))
    && TreeOf(tree, dad, freq, elems)
  }

  lemma GrownSame(tree: HTree, freqs: seq<nat>, freqs': seq<nat>, elems: nat)
    requires 3 <= elems && GrownFrom(tree, freqs, elems) && forall x :: 0 <= x < elems ==> At(freqs, x) == At(freqs', x)
    ensures GrownFrom(tree, freqs', elems)
  {
    hide TreeOf, Syms;
    var dad: seq<nat>, freq: seq<nat>, forced: seq<nat> :| Grows(tree, freqs, dad, freq, forced, elems);
    assert Grows(tree, freqs', dad, freq, forced, elems);
  }

  lemma GrownByForcing(tree: HTree, freq0: seq<nat>, dad: seq<nat>, freq: seq<nat>, forced: seq<nat>, elems: nat)
    requires 3 <= elems && ForcedFrom(freq0, freq, forced, elems) && Symbols(forced, 3)
    requires (forced != [] ==> |Syms(freq, elems)| == 2) && TreeOf(tree, dad, freq, elems)
    ensures GrownFrom(tree, freq0, elems)
  {
    hide TreeOf, Syms;
    assert Grows(tree, freq0, dad, freq, forced, elems);
  }

  /** Lengths that are the shortest for the forced frequencies are so for the counted ones. */
  lemma ShortestUnforced(freq0: seq<nat>, freq: seq<nat>, forced: seq<nat>, len: seq<nat>, bl: seq<nat>, elems: nat,
                         maxCode: nat, max: nat)
    requires ForcedFrom(freq0, freq, forced, elems) && (forced != [] ==> |Syms(freq, elems)| == 2) && max >= 1
    requires Measured(freq, len, bl, elems, maxCode, max) && LargestSymbol(freq, elems, maxCode)
    requires Shortest(freq, len, elems)
    ensures Shortest(freq0, len, elems)
  {
    hide Shortest, Syms, Measured;
    if forced == [] {
      ShortestSame(freq, freq0, len, elems);
    } else {
      TwoCodes(freq, len, bl, elems, maxCode, max);
      SymsMembers(freq, elems);
      OneBitIsShortest(freq0, len, elems);
    }
  }

  lemma CheapestIsOptimal(freq: seq<nat>, len: seq<nat>, elems: nat)
    requires elems <= |freq|
    requires SumTo(elems, LenTerm(freq, len, elems)) == HuffmanCost(multiset(Weights(Syms(freq, elems), freq)))
    ensures Optimal(freq, len, elems)
  {
    hide HuffmanCost, SumTo, Weights, PrefixCode, UpTo, Dot, Syms;
    forall cs: seq<seq<bool>>, u: nat | |cs| == |Syms(freq, elems)| && PrefixCode(cs) && UpTo(Lengths(cs), u)
      ensures SumTo(elems, LenTerm(freq, len, elems)) <= Dot(Weights(Syms(freq, elems), freq), Lengths(cs))
    {
      HuffmanBeatsPrefixCodes(Weights(Syms(freq, elems), freq), cs, u);
    }
  }

  /** Constructs a Huffman tree, its lengths and codes, and adds the block's exact cost to the totals. */
  method BuildTree(hp: Heap, t: CtData, tot: Totals, elems: nat, max: nat, extraBits: seq<nat>, base: nat,
                   hasStatic: bool, slen: seq<nat>)
    returns (maxCode: nat, ghost tree: HTree)
    requires Laid(hp, t, tot, elems) && Sized(hp, t, elems) && t.code.Length == 2 * elems + 1
    requires 3 <= elems <= Pow2(max) && 1 <= max <= 15 && SumTo(elems, FreqTerm(t.freq[..])) < 65533
    requires base + |extraBits| >= elems && (hasStatic ==> |slen| >= elems)
    requires forall x :: 0 <= x < 3 ==> At(FullExtra(extraBits, base), x) == 0
    modifies hp, hp.heap, hp.depth, t.freq, t.dad, t.len, t.code, tot, tot.blCount
    ensures Ready(old(t.freq[..]), t.len[..], t.code[..], elems, maxCode, max)
    ensures tot.optLen
            == old(tot.optLen) + SumTo(elems, CostTerm(old(t.freq[..]), t.len[..], FullExtra(extraBits, base), elems))
    ensures tot.staticLen == old(tot.staticLen)
                             + if hasStatic
                               then SumTo(elems,
                                 CostTerm(old(t.freq[..]), slen, FullExtra(extraBits, base), elems)) else 0
    ensures TreeOf(tree, t.dad[..], t.freq[..], elems)
    ensures Depth(tree) <= max ==> Optimal(t.freq[..], t.len[..], elems)
    ensures exists forced :: Symbols(forced, 3) && ForcedFrom(old(t.freq[..]), t.freq[..], forced, elems)
    ensures GrownFrom(tree, old(t.freq[..]), elems)
    ensures Depth(tree) <= max ==> Shortest(old(t.freq[..]), t.len[..], elems)
    ensures FrequentShort(t.freq[..], t.len[..], elems)
  {
    hide Built, Measured, Sum, SumTo, CostTerm, LenTerm, FreqTerm, Syms, HuffmanCost, Weights, Pow2, OnlySymbols, Ready,
         Coded,
         Heap.Placed, Heap.Roots, ForcedFrom, Nodes, HeapFrom, Keys, Depth, Optimal, TreeOf, GrownFrom, Shortest,
           FrequentShort, JoinedBy;
    ghost var freq0: seq<nat> := t.freq[..];
    ghost var extra := FullExtra(extraBits, base);
    var c := ScanFrequencies(hp, t, elems);
    var mc, forced := ForceTwoCodes(hp, t, tot, elems, hasStatic, slen, c);
    maxCode := mc;
    ghost var freq: seq<nat> := t.freq[..];
    ghost var syms := Syms(freq, elems);
    CollectDone(freq0, freq, t.len[..], forced, elems);
    SymbolsCounted(freq, elems);
    MakeHeap(hp, t, elems, syms);
    tree := Combine(hp, t, elems, syms);
    ghost var all: seq<nat> := t.freq[..];
    FrequenciesKept(freq0, freq, all, forced, elems, maxCode);
    PlacedLength(hp, |syms|);
    GenBitlen(hp, t, tot, elems, maxCode, max, extraBits, base, hasStatic, slen, tree);
    BuiltTree(hp.Placed(), tree, t.dad[..], all, elems);
    GrownByForcing(tree, freq0, t.dad[..], all, forced, elems);
    if Depth(tree) <= max { CheapestIsBest(freq0, all, forced, t.len[..], tot.blCount[..], elems, maxCode, max); }
    BuildDone(freq0, all, forced, t.len[..], slen, extra, tot.blCount[..], elems, maxCode, max, hasStatic);
    GenCodes(t, tot.blCount, maxCode, max);
    ReadyFrom(freq0, all, forced, t.len[..], t.code[..], tot.blCount[..], elems, maxCode, max);
  }

  lemma SymbolsCounted(freq: seq<nat>, elems: nat)
    requires elems <= |freq|
    ensures forall x :: x in Syms(freq, elems) ==> x < elems && freq[x] != 0
  {
    SymsMembers(freq, elems);
  }

  lemma BuiltTree(nodes: seq<nat>, tree: HTree, dad: seq<nat>, freq: seq<nat>, elems: nat)
    requires elems <= |freq| && Built(nodes, tree, dad, freq, Syms(freq, elems), elems)
    requires JoinedBy(tree, freq, Syms(freq, elems), elems)
    ensures TreeOf(tree, dad, freq, elems)
  {
    hide Built, JoinedBy;
  }

  lemma CheapestIsBest(freq0: seq<nat>, freq: seq<nat>, forced: seq<nat>, len: seq<nat>, bl: seq<nat>, elems: nat,
                       maxCode: nat, max: nat)
    requires ForcedFrom(freq0, freq, forced, elems) && (forced != [] ==> |Syms(freq, elems)| == 2) && max >= 1
    requires Measured(freq, len, bl, elems, maxCode, max) && LargestSymbol(freq, elems, maxCode)
    requires SumTo(elems, LenTerm(freq, len, elems)) == HuffmanCost(multiset(Weights(Syms(freq, elems), freq)))
    ensures Optimal(freq, len, elems) && Shortest(freq0, len, elems)
  {
    hide HuffmanCost, SumTo, Weights, Syms, LenTerm, Measured, Optimal, Shortest;
    CheapestIsOptimal(freq, len, elems);
    CheapestIsShortest(freq, len, elems);
    ShortestUnforced(freq0, freq, forced, len, bl, elems, maxCode, max);
  }

  lemma PlacedLength(hp: Heap, n: nat)
    requires hp.heapMax <= hp.heap.Length && |hp.Placed()| == 2 * n - 1 && n >= 1
    ensures hp.heapMax < hp.heap.Length
  {}

  lemma CollectDone(freq0: seq<nat>, freq: seq<nat>, len: seq<nat>, forced: seq<nat>, elems: nat)
    requires 3 <= elems <= |freq| && |freq0| == |freq| && elems <= |len| && Symbols(forced, 3) && |forced| <= 2
    requires forall x :: 0 <= x < elems ==> freq[x] == if x in forced then 1 else freq0[x]
    requires forall x :: x in forced ==> freq0[x] == 0
    requires forall x :: 0 <= x < elems && freq0[x] == 0 ==> len[x] == 0
    requires SumTo(elems, FreqTerm(freq0)) < 65533
    ensures ForcedFrom(freq0, freq, forced, elems)
    ensures Symbols(Syms(freq, elems), elems) && |Syms(freq, elems)| <= elems
    ensures Sum(Syms(freq, elems), FreqTerm(freq)) < 65536
  {
    hide SumTo, Sum, Syms;
    assert ForcedFrom(freq0, freq, forced, elems);
    ForcedTotal(freq0, freq, forced, elems);
    SymsMembers(freq, elems);
    forall x: nat | 0 <= x < elems && freq[x] == 0 ensures FreqTerm(freq)(x) == 0 {}
    SumOverSyms(freq, elems, FreqTerm(freq));
  }

  /** The construction does not change the symbols' frequencies. */
  lemma FrequenciesKept(freq0: seq<nat>, freq: seq<nat>, all: seq<nat>, forced: seq<nat>, elems: nat, maxCode: nat)
    requires elems <= |freq| == |all| && freq[..elems] == all[..elems] && LargestSymbol(freq, elems, maxCode)
    requires ForcedFrom(freq0, freq, forced, elems)
    ensures Syms(all, elems) == Syms(freq, elems) && LargestSymbol(all, elems, maxCode)
    ensures ForcedFrom(freq0, all, forced, elems)
  {
    forall x | 0 <= x < elems ensures all[x] == freq[x] { assert all[..elems][x] == freq[..elems][x]; }
    SymsSameBelow(freq, all, elems);
  }

  lemma BuildDone(freq0: seq<nat>, freq: seq<nat>, forced: seq<nat>, len: seq<nat>, slen: seq<nat>, extra: seq<nat>,
                  bl: seq<nat>,
                  elems: nat, maxCode: nat, max: nat, hasStatic: bool)
    requires ForcedFrom(freq0, freq, forced, elems) && Symbols(forced, 3) && (forced != [] ==> |Syms(freq, elems)| == 2)
    requires Measured(freq, len, bl, elems, maxCode, max) && LargestSymbol(freq, elems, maxCode) && max >= 1
    requires forall x :: 0 <= x < 3 ==> At(extra, x) == 0
    ensures SumTo(elems, CostTerm(freq, len, extra, elems))
            == SumTo(elems, CostTerm(freq0, len, extra, elems)) + |forced|
    ensures SumTo(elems, CostTerm(freq, slen, extra, elems))
            == SumTo(elems, CostTerm(freq0, slen, extra, elems)) + Sum(forced, FreqTerm(slen))
    ensures NotOversubscribed(len[..maxCode + 1], max) && bl[0] == 0 && forall b :: 1 <= b < 16 ==>
            bl[b] == Count(len[..maxCode + 1], b)
  {
    hide SumTo, Sum, CostTerm, Syms, Count, Used, OnlySymbols;
    ForcedCost(freq0, freq, forced, len, extra, elems);
    ForcedCost(freq0, freq, forced, slen, extra, elems);
    if forced != [] {
      TwoCodes(freq, len, bl, elems, maxCode, max);
      SymsMembers(freq, elems);
    }
    ForcedBits(forced, len, extra);
    ForcedStaticBits(forced, slen, extra);
  }

  lemma ReadyFrom(freq0: seq<nat>, freq: seq<nat>, forced: seq<nat>, len: seq<nat>, code: seq<nat>, bl: seq<nat>,
                  elems: nat, maxCode: nat, max: nat)
    requires ForcedFrom(freq0, freq, forced, elems) && LargestSymbol(freq, elems, maxCode)
    requires Measured(freq, len, bl, elems, maxCode, max) && Coded(len[..maxCode + 1], code)
    ensures Ready(freq0, len, code, elems, maxCode, max)
  {
    hide Count, Used, Coded;
    forall x | 0 <= x < elems ensures At(freq, x) == freq[x] && At(freq0, x) == freq0[x] {}
  }
}
