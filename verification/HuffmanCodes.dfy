/** build_tree of gzip.c as a whole: optimal or repaired lengths, canonical codes, exact totals. */
module HuffmanCodes {
  import opened Bits
  import opened Sums
  import opened Canonical
  import opened HuffmanHeap
  import opened HuffmanTree
  import opened HuffmanForest
  import opened HuffmanOptimality
  import opened HuffmanBuild
  import opened HuffmanCollect
  import opened HuffmanLengths
  import opened HuffmanBitlen
  import opened HuffmanShortest

  lemma RootIsInner(p: seq<nat>, t: HTree, dad: seq<nat>, freq: seq<nat>, syms: seq<nat>, elems: nat)
    requires Built(p, t, dad, freq, syms, elems) && |syms| >= 2
    ensures t.Node? && p != [] && p[0] >= elems
  {
    hide HuffmanCost, TreeSum, Sum, FathersFirst, MostFrequentFirst, Dads, Weighted, Symbols;
    var node := elems + |syms| - 1;
    assert |multiset(p)| == |multiset(syms + Range(elems, node))| == |syms + Range(elems, node)|;
    assert |Ids(t)| == |multiset(Ids(t))| >= 3;
  }

  /** The node list of a finished construction, with the symbols up to `maxCode`. */
  lemma ListOfBuilt(p: seq<nat>, t: HTree, dad: seq<nat>, freq: seq<nat>, elems: nat, maxCode: int)
    requires elems <= |freq| && Built(p, t, dad, freq, Syms(freq, elems), elems) && |Syms(freq, elems)| >= 2
    requires LargestSymbol(freq, elems, maxCode)
    ensures NodeList(p, dad, elems, maxCode, 2 * elems + 1)
  {
    hide HuffmanCost, TreeSum, Sum, FathersFirst, MostFrequentFirst, Dads, Weighted, Shaped, Syms, Distinct;
    var syms := Syms(freq, elems);
    RootIsInner(p, t, dad, freq, syms, elems);
    ListedNodes(p, t, dad, freq, syms, elems);
    SymsMembers(freq, elems);
    forall i | 0 <= i < |p| ensures p[i] < 2 * elems + 1 && (p[i] < elems <==> p[i] <= maxCode) {
      assert p[i] in p;
    }
  }

  lemma PassLengths(p: seq<nat>, len: seq<nat>, dad: seq<nat>, elems: nat, max: nat)
    requires p != [] && 1 <= max && p[0] >= elems && LengthsFrom(p, |p|, len, dad, max)
    ensures LengthsWithin(p, len, elems, max)
  {
    forall x | x in p && x < elems ensures 1 <= At(len, x) <= max {
      var i :| 0 <= i < |p| && p[i] == x;
    }
  }

  lemma RootFits(len: seq<nat>, dad: seq<nat>, root: nat, max: nat)
    ensures OverTerm(len, dad, root, max)(root) == 0
  {
  }

  /** What the first pass makes of the tree. */
  lemma PassTree(p: seq<nat>, t: HTree, dad: seq<nat>, freq: seq<nat>, syms: seq<nat>, elems: nat, len: seq<nat>,
                 max: nat)
    requires Built(p, t, dad, freq, syms, elems) && |syms| >= 2 && 1 <= max && LengthsFrom(p, |p|, len, dad, max)
    ensures t.id == p[0] && Shaped(t, elems) && Dads(t, dad) && Weighted(t, freq) && Clamped(t, len, max)
    ensures At(len, t.id) == 0
    ensures multiset(p) == multiset(Ids(t)) && LengthsWithin(p, len, elems, max)
  {
    hide HuffmanCost, TreeSum, Sum, FathersFirst, MostFrequentFirst, Range, Shaped, Dads, Weighted, Clamped, Weights,
         Ids, LengthsWithin;
    RootIsInner(p, t, dad, freq, syms, elems);
    ListedNodes(p, t, dad, freq, syms, elems);
    PassLengths(p, len, dad, elems, max);
    ClampedFromPass(t, p, len, dad, elems, max);
  }

  lemma PassCounts(p: seq<nat>, len: seq<nat>, dad: seq<nat>, max: nat, elems: nat, bl: seq<nat>, over: int)
    requires p != [] && max < |bl| && CountsTo(p, |p|, len, dad, max, elems, bl, over)
    ensures over == Sum(p, OverTerm(len, dad, p[0], max)) && bl[max] == Sum(p, CountTerm(len, elems, max))
    ensures forall b :: 0 <= b < |bl| ==> bl[b] == Sum(p, CountTerm(len, elems, b))
  {
    assert p[..|p|] == p;
  }

  /** The Kraft sum of the clamped lengths. */
  lemma ClampedUse(t: HTree, len: seq<nat>, dad: seq<nat>, elems: nat, max: nat, used: int, over: int)
    requires Shaped(t, elems) && Dads(t, dad) && Clamped(t, len, max) && At(len, t.id) == 0
    requires used == TreeSum(t, KraftTerm(len, elems, max)) && over == TreeSum(t, OverTerm(len, dad, t.id, max))
    ensures over >= 0 && over % 2 == 0 && used == Pow2(max) + over / 2
  {
    hide TreeSum, Shaped, Dads, Clamped, KraftTerm, OverTerm, CountTerm, Pow2;
    RootFits(len, dad, t.id, max);
    KraftOfClamped(t, len, dad, elems, t.id, max);
    LeavesAtMax(t, len, dad, elems, t.id, max);
  }

  /** The leaves at the limit. */
  lemma ClampedLeaves(t: HTree, len: seq<nat>, dad: seq<nat>, elems: nat, max: nat, count: int, over: int)
    requires Shaped(t, elems) && Dads(t, dad) && Clamped(t, len, max) && At(len, t.id) == 0
    requires count == TreeSum(t, CountTerm(len, elems, max)) && over == TreeSum(t, OverTerm(len, dad, t.id, max))
    ensures over > 0 ==> 2 * count > over
  {
    hide TreeSum, Shaped, Dads, Clamped, OverTerm, CountTerm;
    RootFits(len, dad, t.id, max);
    LeavesAtMax(t, len, dad, elems, t.id, max);
  }

  /** After the first pass the counts exceed the complete code by half the overflow. */
  lemma PassKraft(p: seq<nat>, t: HTree, dad: seq<nat>, freq: seq<nat>, syms: seq<nat>, elems: nat, len: seq<nat>,
                  max: nat,
                  bl: seq<nat>, over: int)
    requires Built(p, t, dad, freq, syms, elems) && |syms| >= 2 && 1 <= max < |bl|
    requires LengthsFrom(p, |p|, len, dad, max) && CountsTo(p, |p|, len, dad, max, elems, bl, over)
    ensures over >= 0 && over % 2 == 0 && UsedBy(bl, max) == Pow2(max) + over / 2
    ensures over > 0 ==> 2 * bl[max] > over
  {
    PassTree(p, t, dad, freq, syms, elems, len, max);
    PassCounts(p, len, dad, max, elems, bl, over);
    hide Built, LengthsFrom, CountsTo, LengthsWithin, TreeSum, Sum, UsedBy, Shaped, Dads, Weighted, Clamped, Ids,
         KraftTerm, OverTerm,
         CountTerm, Pow2;
    CountsKraft(p, len, elems, max, bl);
    ListSums(p, t, KraftTerm(len, elems, max));
    ListSums(p, t, OverTerm(len, dad, p[0], max));
    ListSums(p, t, CountTerm(len, elems, max));
    ClampedUse(t, len, dad, elems, max, UsedBy(bl, max), over);
    ClampedLeaves(t, len, dad, elems, max, bl[max], over);
  }

  lemma PassLeaves(p: seq<nat>, t: HTree, dad: seq<nat>, freq: seq<nat>, syms: seq<nat>, elems: nat, len: seq<nat>,
                   max: nat, bl: seq<nat>, over: int)
    requires Built(p, t, dad, freq, syms, elems) && |syms| >= 2 && 1 <= max < |bl|
    requires LengthsFrom(p, |p|, len, dad, max) && CountsTo(p, |p|, len, dad, max, elems, bl, over)
    ensures Leaves(bl, max) == |syms|
  {
    hide HuffmanCost, TreeSum, Sum, FathersFirst, MostFrequentFirst, Range, UsedBy, Leaves, Shaped, Dads, Weighted,
         Clamped, Weights, Ids, CountTerm, OverTerm;
    RootIsInner(p, t, dad, freq, syms, elems);
    PassLengths(p, len, dad, elems, max);
    assert p[..|p|] == p;
    CountsKraft(p, len, elems, max, bl);
    SumOverNodes(p, syms, elems, elems + |syms| - 1, LeafTerm(elems));
    SumOfOnes(syms, elems);
  }

  /** Without overflow the lengths cost what the Huffman tree does. */
  lemma PassCost(p: seq<nat>, t: HTree, dad: seq<nat>, freq: seq<nat>, syms: seq<nat>, elems: nat, len: seq<nat>,
                 max: nat, bl: seq<nat>)
    requires Built(p, t, dad, freq, syms, elems) && |syms| >= 2 && 1 <= max < |bl|
    requires LengthsFrom(p, |p|, len, dad, max) && CountsTo(p, |p|, len, dad, max, elems, bl, 0)
    ensures Sum(p, LenTerm(freq, len, elems)) == HuffmanCost(multiset(Weights(syms, freq)))
  {
    hide HuffmanCost, TreeSum, Sum, FathersFirst, MostFrequentFirst, Range, Shaped, Dads, Weighted, Clamped, Weights,
         Ids, CountTerm, LenTerm;
    RootIsInner(p, t, dad, freq, syms, elems);
    ListedNodes(p, t, dad, freq, syms, elems);
    assert p[..|p|] == p;
    ClampedFromPass(t, p, len, dad, elems, max);
    ListSums(p, t, OverTerm(len, dad, p[0], max));
    ListSums(p, t, LenTerm(freq, len, elems));
    CostOfTree(t, freq, len, dad, elems, p[0], max);
  }

  /** No node overflows exactly if the tree is not too deep. */
  lemma PassDepth(p: seq<nat>, t: HTree, dad: seq<nat>, freq: seq<nat>, syms: seq<nat>, elems: nat, len: seq<nat>,
                  max: nat, bl: seq<nat>, over: int)
    requires Built(p, t, dad, freq, syms, elems) && |syms| >= 2 && 1 <= max < |bl|
    requires LengthsFrom(p, |p|, len, dad, max) && CountsTo(p, |p|, len, dad, max, elems, bl, over)
    ensures over == 0 <==> Depth(t) <= max
  {
    hide HuffmanCost, TreeSum, Sum, FathersFirst, MostFrequentFirst, Range, Shaped, Dads, Weighted, Clamped, Weights,
         Ids, Depth, CountTerm;
    RootIsInner(p, t, dad, freq, syms, elems);
    ListedNodes(p, t, dad, freq, syms, elems);
    assert p[..|p|] == p;
    ClampedFromPass(t, p, len, dad, elems, max);
    ListSums(p, t, OverTerm(len, dad, p[0], max));
    OverIsDeep(t, len, dad, elems, p[0], max);
  }

  lemma ListSums(p: seq<nat>, t: HTree, f: nat -> int)
    requires multiset(p) == multiset(Ids(t))
    ensures Sum(p, f) == TreeSum(t, f)
  {
    TreeSumIsSum(t, f);
    SumPermutation(p, Ids(t), f);
  }

  /** Symbols have lengths from 1 to `max`, all other codes have none. */
  ghost predicate OnlySymbols(freq: seq<nat>, len: seq<nat>, elems: nat, max: nat) {
    forall x :: 0 <= x < elems ==> if At(freq, x) == 0 then At(len, x) == 0 else 1 <= At(len, x) <= max
  }

  lemma {:induction false} CountAsSum(len: seq<nat>, elems: nat, n: nat, b: nat)
    requires n <= |len| && n <= elems
    ensures Count(len[..n], b) == SumTo(n, CountTerm(len, elems, b))
  {
    if n > 0 {
      assert len[..n][..n - 1] == len[..n - 1];
      CountAsSum(len, elems, n - 1, b);
    }
  }

  /** Summing over the node list is summing over all codes, if unused codes contribute nothing. */
  lemma NodesToCodes(p: seq<nat>, freq: seq<nat>, elems: nat, f: nat -> int)
    requires elems <= |freq| && |Syms(freq, elems)| >= 1
    requires multiset(p) == multiset(Syms(freq, elems) + Range(elems, elems + |Syms(freq, elems)| - 1))
    requires forall x: nat :: x >= elems || At(freq, x) == 0 ==> f(x) == 0
    ensures Sum(p, f) == SumTo(elems, f)
  {
    hide Sum, SumTo, Range, Syms;
    SumOverNodes(p, Syms(freq, elems), elems, elems + |Syms(freq, elems)| - 1, f);
    SumOverSyms(freq, elems, f);
  }

  /** The counts made over the node list are the counts of the code lengths. */
  lemma CountsOfLengths(p: seq<nat>, freq: seq<nat>, len: seq<nat>, elems: nat, maxCode: nat, max: nat, b: nat)
    requires elems <= |freq| && elems <= |len| && |Syms(freq, elems)| >= 1 && 1 <= b
    requires multiset(p) == multiset(Syms(freq, elems) + Range(elems, elems + |Syms(freq, elems)| - 1))
    requires LargestSymbol(freq, elems, maxCode) && OnlySymbols(freq, len, elems, max)
    ensures Count(len[..maxCode + 1], b) == Sum(p, CountTerm(len, elems, b))
    ensures b > max ==> Count(len[..maxCode + 1], b) == 0
  {
    hide Sum, SumTo, Syms, Range, Count;
    var f := CountTerm(len, elems, b);
    NodesToCodes(p, freq, elems, f);
    CountAsSum(len, elems, maxCode + 1, b);
    SumToShorter(elems, maxCode + 1, f);
    if b > max { SumToZero(elems, f); }
  }

  lemma {:induction false} UsedIsUsedBy(lens: seq<nat>, bl: seq<nat>, b: nat)
    requires b < |bl| && forall c :: 1 <= c <= b ==> bl[c] == Count(lens, c)
    ensures Used(lens, b) == UsedBy(bl, b)
  {
    if b > 0 { UsedIsUsedBy(lens, bl, b - 1); }
  }

  /** What gen_bitlen leaves behind: a complete set of lengths and their statistics. */
  ghost predicate Measured(freq: seq<nat>, len: seq<nat>, bl: seq<nat>, elems: nat, maxCode: nat, max: nat) {
    && maxCode < elems <= |len| && |bl| == 16 && OnlySymbols(freq, len, elems, max)
    && Complete(len[..maxCode + 1], max) && bl[0] == 0
    && (forall b :: 1 <= b < 16 ==> bl[b] == Count(len[..maxCode + 1], b))
  }

  lemma MeasuredFromCounts(p: seq<nat>, freq: seq<nat>, len: seq<nat>, bl: seq<nat>, elems: nat, maxCode: nat, max: nat)
    requires elems <= |freq| && elems <= |len| && |Syms(freq, elems)| >= 1 && 1 <= max < |bl| == 16 && bl[0] == 0
    requires multiset(p) == multiset(Syms(freq, elems) + Range(elems, elems + |Syms(freq, elems)| - 1))
    requires LargestSymbol(freq, elems, maxCode) && OnlySymbols(freq, len, elems, max)
    requires forall b :: 1 <= b <= max ==> Sum(p, CountTerm(len, elems, b)) == bl[b]
    requires forall b :: max < b < 16 ==> bl[b] == 0
    requires UsedBy(bl, max) == Pow2(max)
    ensures Measured(freq, len, bl, elems, maxCode, max)
  {
    hide Sum, Syms, Range, Count, UsedBy, CountTerm;
    forall b | 1 <= b < 16 ensures bl[b] == Count(len[..maxCode + 1], b) {
      CountsOfLengths(p, freq, len, elems, maxCode, max, b);
    }
    UsedIsUsedBy(len[..maxCode + 1], bl, max);
    var lens := len[..maxCode + 1];
    forall x | 0 <= x < |lens| ensures lens[x] <= max { assert At(len, x) <= max; }
  }

  lemma OnlySymbolsFrom(p: seq<nat>, t: HTree, dad: seq<nat>, freq: seq<nat>, len: seq<nat>, elems: nat, max: nat)
    requires elems <= |freq| && Built(p, t, dad, freq, Syms(freq, elems), elems) && LengthsWithin(p, len, elems, max)
    requires forall x :: 0 <= x < elems && At(freq, x) == 0 ==> At(len, x) == 0
    ensures OnlySymbols(freq, len, elems, max)
  {
    hide HuffmanCost, TreeSum, Sum, FathersFirst, MostFrequentFirst, Dads, Weighted, Shaped, Syms, Distinct, Range;
    SymsMembers(freq, elems);
    ListedNodes(p, t, dad, freq, Syms(freq, elems), elems);
  }

  lemma CostsToCodes(p: seq<nat>, t: HTree, dad: seq<nat>, freq: seq<nat>, len: seq<nat>, extra: seq<nat>, elems: nat)
    requires elems <= |freq| && Built(p, t, dad, freq, Syms(freq, elems), elems)
    ensures Sum(p, CostTerm(freq, len, extra, elems)) == SumTo(elems, CostTerm(freq, len, extra, elems))
    ensures Sum(p, LenTerm(freq, len, elems)) == SumTo(elems, LenTerm(freq, len, elems))
  {
    hide HuffmanCost, TreeSum, Sum, FathersFirst, MostFrequentFirst, Dads, Weighted, Shaped, Syms, Distinct, Range,
         SumTo;
    NodesToCodes(p, freq, elems, CostTerm(freq, len, extra, elems));
    NodesToCodes(p, freq, elems, LenTerm(freq, len, elems));
  }

  /** Computes the bit lengths, their statistics and the block totals; repairs lengths beyond `max`. */
  method GenBitlen(hp: Heap, t: CtData, tot: Totals, elems: nat, maxCode: nat, max: nat,
                   extraBits: seq<nat>, base: nat, hasStatic: bool, slen: seq<nat>, ghost tree: HTree)
    requires Laid(hp, t, tot, elems) && 1 <= max <= 15 && hp.heapMax < hp.heap.Length
    requires Built(hp.Placed(), tree, t.dad[..], t.freq[..], Syms(t.freq[..], elems), elems)
    requires 2 <= |Syms(t.freq[..], elems)| <= Pow2(max) && LargestSymbol(t.freq[..], elems, maxCode)
    requires forall x :: 0 <= x < elems && At(t.freq[..], x) == 0 ==> At(t.len[..], x) == 0
    requires base + |extraBits| >= elems && (hasStatic ==> |slen| >= elems)
    modifies t.len, tot, tot.blCount
    ensures Measured(t.freq[..], t.len[..], tot.blCount[..], elems, maxCode, max)
    ensures tot.optLen
            == old(tot.optLen) + SumTo(elems, CostTerm(t.freq[..], t.len[..], FullExtra(extraBits, base), elems))
    ensures tot.staticLen == old(tot.staticLen)
                             + if hasStatic
                               then SumTo(elems, CostTerm(t.freq[..], slen, FullExtra(extraBits, base), elems)) else 0
    ensures Depth(tree) <= max ==> SumTo(elems, LenTerm(t.freq[..], t.len[..], elems))
                                   == HuffmanCost(multiset(Weights(Syms(t.freq[..], elems), t.freq[..])))
    ensures FrequentShort(t.freq[..], t.len[..], elems)
  {
    hide Built, Measured, NodeList, LengthsFrom, CountsTo, Charged, Sum, SumTo, CostTerm, LenTerm, Syms, HuffmanCost,
         Weights,
         UsedBy, Leaves, Pow2, OnlySymbols, LengthsWithin, Heap.Placed, Depth, FrequentShort, LongerLater;
    ghost var p, extra := hp.Placed(), FullExtra(extraBits, base);
    ghost var freq: seq<nat> := t.freq[..];
    ghost var dad: seq<nat> := t.dad[..];
    ListOfBuilt(p, tree, dad, freq, elems, maxCode);
    var over := FirstPass(hp, t, tot, elems, maxCode, max, extraBits, base, hasStatic, slen);
    ghost var len: seq<nat> := t.len[..];
    ghost var bl: seq<nat> := tot.blCount[..];
    PassDone(p, tree, dad, freq, len, slen, extra, elems, maxCode, max, hasStatic, bl, over,
             tot.optLen - old(tot.optLen), tot.staticLen - old(tot.staticLen));
    StillZero(p, tree, dad, freq, old(t.len[..]), len, elems);
    PassMeasured(p, tree, dad, freq, len, elems, maxCode, max, bl, over);
    if over == 0 {
      MeasuredIsFrequentShort(freq, len, bl, elems, maxCode, max);
      return;
    }
    RepairCounts(tot, max, over);
    LeavesInList(p, tree, dad, freq, elems);
    ReassignLengths(hp, t, tot, elems, maxCode, max, extra);
    ListIsFrequentShort(p, tree, dad, freq, t.len[..], elems);
    CostsToCodes(p, tree, dad, freq, len, extra, elems);
    CostsToCodes(p, tree, dad, freq, t.len[..], extra, elems);
    StillZero(p, tree, dad, freq, len, t.len[..], elems);
    WithinFromIndex(p, t.len[..], elems, max);
    OnlySymbolsFrom(p, tree, dad, freq, t.len[..], elems, max);
    BuiltNodes(p, tree, dad, freq, elems);
    MeasuredFromCounts(p, freq, t.len[..], tot.blCount[..], elems, maxCode, max);
  }

  /** The lengths of the first pass, if it did not overflow. */
  lemma MeasuredIsFrequentShort(freq: seq<nat>, len: seq<nat>, bl: seq<nat>, elems: nat, maxCode: nat, max: nat)
    requires elems <= |freq| && Measured(freq, len, bl, elems, maxCode, max)
    requires SumTo(elems, LenTerm(freq, len, elems)) == HuffmanCost(multiset(Weights(Syms(freq, elems), freq)))
    requires LargestSymbol(freq, elems, maxCode)
    ensures FrequentShort(freq, len, elems)
  {
    hide SumTo, LenTerm, HuffmanCost, Weights, Syms, Used, Count, FrequentShort;
    var lens := len[..elems];
    forall x | 0 <= x < elems ensures lens[x] == At(len, x) <= max && (At(freq, x) != 0 ==> lens[x] >= 1) {}
    forall x | maxCode < x < elems ensures lens[x] == 0 { assert At(freq, x) == freq[x] == 0; }
    assert lens[..maxCode + 1] == len[..maxCode + 1];
    UsedPadded(lens, maxCode + 1, max);
    CheapestIsFrequentShort(freq, len, elems, max);
  }

  /** Lengths that grow along the list of nodes, which starts with the most frequent. */
  lemma ListIsFrequentShort(p: seq<nat>, t: HTree, dad: seq<nat>, freq: seq<nat>, len: seq<nat>, elems: nat)
    requires elems <= |freq| && Built(p, t, dad, freq, Syms(freq, elems), elems) && LongerLater(p, 0, len, elems, 0)
    ensures FrequentShort(freq, len, elems)
  {
    hide HuffmanCost, TreeSum, Sum, FathersFirst, Dads, Weighted, Shaped, Syms, Distinct, Range, Weights;
    SymsMembers(freq, elems);
    ListedNodes(p, t, dad, freq, Syms(freq, elems), elems);
    forall x, y | 0 <= x < elems && 0 <= y < elems && 0 < At(freq, x) < At(freq, y) ensures At(len, y) <= At(len, x) {
      assert x in p && y in p;
      var i := IndexIn(p, y);
      var j := IndexIn(p, x);
      assert i < j;
    }
  }

  lemma BuiltNodes(p: seq<nat>, t: HTree, dad: seq<nat>, freq: seq<nat>, elems: nat)
    requires elems <= |freq| && Built(p, t, dad, freq, Syms(freq, elems), elems)
    ensures |Syms(freq, elems)| >= 1
    ensures multiset(p) == multiset(Syms(freq, elems) + Range(elems, elems + |Syms(freq, elems)| - 1))
    ensures forall x :: x in Syms(freq, elems) ==> x < elems
  {
    hide Sum, Range, Syms, HuffmanCost, TreeSum, Shaped, Dads, Weighted, Ids, FathersFirst, MostFrequentFirst;
  }

  lemma WithinFromIndex(p: seq<nat>, len: seq<nat>, elems: nat, max: nat)
    requires forall k :: 0 <= k < |p| && p[k] < elems ==> 1 <= At(len, p[k]) <= max
    ensures LengthsWithin(p, len, elems, max)
  {}

  lemma LeavesInList(p: seq<nat>, t: HTree, dad: seq<nat>, freq: seq<nat>, elems: nat)
    requires elems <= |freq| && Built(p, t, dad, freq, Syms(freq, elems), elems)
    ensures Sum(p, LeafTerm(elems)) == |Syms(freq, elems)|
  {
    hide Sum, Range, Syms, Built;
    BuiltNodes(p, t, dad, freq, elems);
    SumOverNodes(p, Syms(freq, elems), elems, elems + |Syms(freq, elems)| - 1, LeafTerm(elems));
    SumOfOnes(Syms(freq, elems), elems);
  }

  /** Codes that are not symbols keep their length. */
  lemma StillZero(p: seq<nat>, t: HTree, dad: seq<nat>, freq: seq<nat>, len0: seq<nat>, len: seq<nat>, elems: nat)
    requires elems <= |freq| && Built(p, t, dad, freq, Syms(freq, elems), elems) && elems <= |len| == |len0|
    requires forall x :: 0 <= x < |len| && x !in p ==> len[x] == len0[x]
    requires forall x :: 0 <= x < elems && At(freq, x) == 0 ==> At(len0, x) == 0
    ensures forall x :: 0 <= x < elems && At(freq, x) == 0 ==> At(len, x) == 0
  {
    hide HuffmanCost, TreeSum, Sum, FathersFirst, MostFrequentFirst, Dads, Weighted, Shaped, Syms, Distinct, Range;
    SymsMembers(freq, elems);
    ListedNodes(p, t, dad, freq, Syms(freq, elems), elems);
  }

  lemma PassDone(p: seq<nat>, t: HTree, dad: seq<nat>, freq: seq<nat>, len: seq<nat>, slen: seq<nat>, extra: seq<nat>,
                 elems: nat, maxCode: nat, max: nat,
                 hasStatic: bool, bl: seq<nat>, over: int, opt: int, stat: int)
    requires elems <= |freq| && Built(p, t, dad, freq, Syms(freq, elems), elems) && |Syms(freq, elems)| >= 2
    requires 1 <= max < |bl|
    requires LengthsFrom(p, |p|, len, dad, max) && CountsTo(p, |p|, len, dad, max, elems, bl, over)
    requires Charged(p, |p|, freq, len, slen, extra, elems, hasStatic, opt, stat)
    ensures over >= 0 && over % 2 == 0 && UsedBy(bl, max) == Pow2(max) + over / 2
    ensures Leaves(bl, max) == |Syms(freq, elems)| && (over > 0 ==> 2 * bl[max] > over)
    ensures over == 0 ==>
            SumTo(elems, LenTerm(freq, len, elems)) == HuffmanCost(multiset(Weights(Syms(freq, elems), freq)))
    ensures over == 0 <==> Depth(t) <= max
    ensures opt == SumTo(elems, CostTerm(freq, len, extra, elems)) == Sum(p, CostTerm(freq, len, extra, elems))
    ensures stat == if hasStatic then SumTo(elems, CostTerm(freq, slen, extra, elems)) else 0
  {
    hide Built, LengthsFrom, CountsTo, Sum, SumTo, CostTerm, LenTerm, Syms, HuffmanCost, Weights, UsedBy, Leaves, Pow2,
         Depth;
    assert p[..|p|] == p;
    PassKraft(p, t, dad, freq, Syms(freq, elems), elems, len, max, bl, over);
    PassLeaves(p, t, dad, freq, Syms(freq, elems), elems, len, max, bl, over);
    PassDepth(p, t, dad, freq, Syms(freq, elems), elems, len, max, bl, over);
    if over == 0 { PassCost(p, t, dad, freq, Syms(freq, elems), elems, len, max, bl); }
    CostsToCodes(p, t, dad, freq, len, extra, elems);
    CostsToCodes(p, t, dad, freq, slen, extra, elems);
  }

  /** The first pass already counts no code of length 0 or beyond `max`; without overflow it is complete. */
  lemma PassMeasured(p: seq<nat>, t: HTree, dad: seq<nat>, freq: seq<nat>, len: seq<nat>, elems: nat, maxCode: nat,
                     max: nat, bl: seq<nat>, over: int)
    requires elems <= |freq| && elems <= |len| && Built(p, t, dad, freq, Syms(freq, elems), elems)
    requires |Syms(freq, elems)| >= 2
    requires 1 <= max < |bl| == 16 && LargestSymbol(freq, elems, maxCode)
    requires LengthsFrom(p, |p|, len, dad, max) && CountsTo(p, |p|, len, dad, max, elems, bl, over)
    requires forall x :: 0 <= x < elems && At(freq, x) == 0 ==> At(len, x) == 0
    requires over >= 0 && UsedBy(bl, max) == Pow2(max) + over / 2
    ensures bl[0] == 0 && forall b :: max < b < 16 ==> bl[b] == 0
    ensures over == 0 ==> Measured(freq, len, bl, elems, maxCode, max)
  {
    hide Built, LengthsFrom, Sum, Syms, HuffmanCost, Weights, UsedBy, Pow2, OnlySymbols, Measured;
    RootIsInner(p, t, dad, freq, Syms(freq, elems), elems);
    assert p[..|p|] == p;
    PassLengths(p, len, dad, elems, max);
    forall b | (b == 0 || max < b < 16) && 0 <= b < 16 ensures bl[b] == 0 {
      SumOfZeros(p, CountTerm(len, elems, b));
    }
    OnlySymbolsFrom(p, t, dad, freq, len, elems, max);
    BuiltNodes(p, t, dad, freq, elems);
    if over == 0 { MeasuredFromCounts(p, freq, len, bl, elems, maxCode, max); }
  }
}
