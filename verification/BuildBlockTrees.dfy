/** build_tree as flush_block uses it, build_bl_tree and send_all_trees of gzip.c. */
module BuildBlockTrees {
  import opened Bits
  import opened Sums
  import opened Canonical
  import opened DeflateTables
  import opened Inflate
  import opened DynamicHeader
  import opened BlockCost
  import opened BlockTrees
  import opened BitWriter
  import opened TreeRle
  import opened TreeSend
  import opened HuffmanHeap
  import opened HuffmanTree
  import opened HuffmanForest
  import opened HuffmanBuild
  import opened HuffmanCollect
  import opened HuffmanLengths
  import opened HuffmanBitlen
  import opened HuffmanShortest
  import opened HuffmanTrees

  /** The cost does not see lengths after the last used code. */
  lemma CutCost(freq: seq<nat>, freqs: seq<nat>, len: seq<nat>, cut: seq<nat>, extra: seq<nat>, n: nat)
    requires forall x :: 0 <= x < n ==> At(freq, x) == At(freqs, x) && At(len, x) == At(cut, x)
    ensures SumTo(n, CostTerm(freq, len, extra, n)) == Cost(freqs, cut, extra, n)
  {
    SumToCongruent(n, CostTerm(freq, len, extra, n), CostTerm(freqs, cut, extra, n));
  }

  lemma SameTotal(freq: seq<nat>, freqs: seq<nat>, n: nat)
    requires forall x :: 0 <= x < n ==> At(freq, x) == At(freqs, x)
    ensures SumTo(n, FreqTerm(freq)) == SumTo(n, FreqTerm(freqs))
  {
    SumToCongruent(n, FreqTerm(freq), FreqTerm(freqs));
  }

  /** `len` holds a complete code for the symbols counted in `freqs`, whose last code is `maxCode`. */
  ghost predicate CompleteFor(freqs: seq<nat>, len: seq<nat>, maxCode: nat, elems: nat, max: nat) {
    && maxCode < elems <= |len| && elems <= |freqs| && Complete(len[..maxCode + 1], max) && Complete(len[..elems], max)
    && (forall x :: 0 <= x < elems && freqs[x] != 0 ==> x <= maxCode && len[x] > 0)
    && (forall x :: maxCode < x < elems ==> len[x] == 0) && len[maxCode] > 0
  }

  /** What build_tree establishes, for the code with and without the unused codes at its end. */
  lemma ReadyHolds(freq0: seq<nat>, freqs: seq<nat>, t: CtData, elems: nat, maxCode: nat, max: nat)
    requires Ready(freq0, t.len[..], t.code[..], elems, maxCode, max) && max <= 15 && elems <= t.code.Length
    requires |freqs| == elems && forall x :: 0 <= x < elems ==> At(freq0, x) == freqs[x]
    ensures CompleteFor(freqs, t.len[..], maxCode, elems, max)
    ensures Holds(t, t.len[..maxCode + 1]) && Holds(t, t.len[..elems])
  {
    hide Used, CodeBits, Lsb, Coded;
    var full: seq<nat>, len: seq<nat> := t.len[..elems], t.len[..];
    assert len[..maxCode + 1] == full[..maxCode + 1] == t.len[..maxCode + 1];
    forall x | maxCode < x < elems ensures full[x] == 0 && len[x] == 0 { assert At(len, x) == 0; }
    Padded(full, maxCode + 1, max, t.code[..]);
    assert len[..elems] == full;
    forall x | 0 <= x < elems && freqs[x] != 0 ensures x <= maxCode && len[x] > 0 { assert At(freq0, x) != 0; }
  }

  lemma ReadyCost(freq0: seq<nat>, freqs: seq<nat>, len: seq<nat>, extra: seq<nat>, maxCode: nat, elems: nat, max: nat)
    requires CompleteFor(freqs, len, maxCode, elems, max) && forall x :: 0 <= x < elems ==> At(freq0, x) == freqs[x]
    ensures SumTo(elems, CostTerm(freq0, len, extra, elems)) == Cost(freqs, len[..maxCode + 1], extra, elems)
    ensures SumTo(elems, CostTerm(freq0, len, extra, elems)) == Cost(freqs, len[..elems], extra, elems)
  {
    hide Complete, SumTo, CostTerm, Cost;
    CutCost(freq0, freqs, len, len[..maxCode + 1], extra, elems);
    CutCost(freq0, freqs, len, len[..elems], extra, elems);
  }

  /** build_tree, said in terms of the code it leaves. */
  method BuildCode(hp: Heap, t: CtData, tot: Totals, elems: nat, max: nat, extraBits: seq<nat>, base: nat,
                   hasStatic: bool, slen: seq<nat>, ghost freqs: seq<nat>)
    returns (maxCode: nat, ghost tree: HTree)
    requires Laid(hp, t, tot, elems) && Sized(hp, t, elems) && t.code.Length == 2 * elems + 1
    requires 3 <= elems <= Pow2(max) && 1 <= max <= 15 && SumTo(elems, FreqTerm(freqs)) < 65533
    requires base + |extraBits| >= elems && (hasStatic ==> |slen| >= elems)
    requires forall x :: 0 <= x < 3 ==> At(FullExtra(extraBits, base), x) == 0
    requires |freqs| == elems && forall x :: 0 <= x < elems ==> t.freq[x] == freqs[x]
    modifies hp, hp.heap, hp.depth, t.freq, t.dad, t.len, t.code, tot, tot.blCount
    ensures CompleteFor(freqs, t.len[..], maxCode, elems, max) && Holds(t, t.len[..maxCode + 1])
    ensures Holds(t, t.len[..elems])
    ensures tot.optLen == old(tot.optLen) + Cost(freqs, t.len[..maxCode + 1], FullExtra(extraBits, base), elems)
    ensures tot.optLen == old(tot.optLen) + Cost(freqs, t.len[..elems], FullExtra(extraBits, base), elems)
    ensures tot.staticLen
            == old(tot.staticLen) + if hasStatic then Cost(freqs, slen, FullExtra(extraBits, base), elems) else 0
    ensures GrownFrom(tree, freqs, elems) && (Depth(tree) <= max ==> Shortest(freqs, t.len[..maxCode + 1], elems))
  {
    hide SumTo, CostTerm, FreqTerm, Ready, CompleteFor, Holds, Pow2, HuffmanOptimality.HuffmanCost, Syms, Weights,
         LenTerm, Cost, FullExtra,
         GrownFrom, Depth, Shortest, TreeOf, Optimal, FrequentShort, ForcedFrom;
    ghost var freq0: seq<nat> := t.freq[..];
    SameTotal(freq0, freqs, elems);
    ghost var extra := FullExtra(extraBits, base);
    maxCode, tree := BuildTree(hp, t, tot, elems, max, extraBits, base, hasStatic, slen);
    ReadyHolds(freq0, freqs, t, elems, maxCode, max);
    ReadyBounds(freqs, t.len[..], maxCode, elems, max);
    ReadyCost(freq0, freqs, t.len[..], extra, maxCode, elems, max);
    assert t.len[..][..maxCode + 1] == t.len[..maxCode + 1] && t.len[..][..elems] == t.len[..elems];
    if hasStatic { CutCost(freq0, freqs, slen, slen, extra, elems); }
    GrownSame(tree, freq0, freqs, elems);
    if Depth(tree) <= max { ShortestCut(freq0, freqs, t.len[..], maxCode, elems, max); }
  }

  lemma ShortestCut(freq0: seq<nat>, freqs: seq<nat>, len: seq<nat>, maxCode: nat, elems: nat, max: nat)
    requires CompleteFor(freqs, len, maxCode, elems, max) && |freqs| == elems && forall x :: 0 <= x < elems ==>
             At(freq0, x) == freqs[x]
    requires Shortest(freq0, len, elems)
    ensures Shortest(freqs, len[..maxCode + 1], elems)
  {
    hide Complete, SumTo, NotOversubscribed;
    ShortestSame(freq0, freqs, len, elems);
    SumToCongruent(elems, LenTerm(freqs, len, elems), LenTerm(freqs, len[..maxCode + 1], elems));
  }

  lemma ReadyBounds(freqs: seq<nat>, len: seq<nat>, maxCode: nat, elems: nat, max: nat)
    requires CompleteFor(freqs, len, maxCode, elems, max)
    ensures maxCode < elems <= |len|
  {
  }

  /** Array `a` is not one of the tree's. */
  ghost predicate Clear(a: array<nat>, t: CtData) { a != t.freq && a != t.dad && a != t.len && a != t.code }

  /** No array of `s` is one of `t`'s. */
  ghost predicate Disjoint(s: CtData, t: CtData) {
    Clear(s.freq, t) && Clear(s.dad, t) && Clear(s.len, t) && Clear(s.code, t)
  }

  /** The tree's arrays are not the heap's or the counts'. */
  ghost predicate Aside(hp: Heap, t: CtData, tot: Totals) {
    t.Apart() && Clear(hp.heap, t) && Clear(tot.blCount, t) && hp.heap != tot.blCount
  }

  /** The items of both trees. */
  ghost function BothItems(ll: seq<nat>, dl: seq<nat>): seq<Item> { TreeItems(ll) + TreeItems(dl) }

  /** Counts the code length symbols of both trees, and sets both guards. */
  method ScanTrees(lt: CtData, dt: CtData, bt: CtData, lmax: nat, dmax: nat)
    requires lt.Apart() && dt.Apart() && bt.Apart() && Disjoint(lt, dt) && Disjoint(lt, bt) && Disjoint(dt, bt)
    requires lmax + 1 < lt.len.Length && dmax + 1 < dt.len.Length && bt.freq.Length >= 19
    requires CodeLengths(lt.len[..lmax + 1]) && CodeLengths(dt.len[..dmax + 1])
    requires forall k :: 0 <= k < 19 ==> bt.freq[k] == 0
    modifies lt.len, dt.len, bt.freq
    ensures lt.len[..] == old(lt.len[..])[lmax + 1 := GUARD] && dt.len[..] == old(dt.len[..])[dmax + 1 := GUARD]
    ensures forall k :: 0 <= k < 19 ==>
            bt.freq[k] == ItemFreqs(BothItems(old(lt.len[..lmax + 1]), old(dt.len[..dmax + 1])))[k]
  {
    hide TreeItems, CountSym, CodeLengths;
    ghost var ll: seq<nat>, dl: seq<nat> := lt.len[..lmax + 1], dt.len[..dmax + 1];
    ScanTree(lt, lmax, bt);
    ScanTree(dt, dmax, bt);
    ghost var a, b := TreeItems(ll), TreeItems(dl);
    forall k: nat | k < 19 ensures CountSym(a + b, k) == CountSym(a, k) + CountSym(b, k) { CountSymConcat(a, b, k); }
  }

  ghost predicate AllZero(s: seq<nat>) { forall i :: 0 <= i < |s| ==> s[i] == 0 }

  /** Items without a plain length stand for zeros only. */
  lemma {:induction false} OnlyZeros(sofar: seq<nat>, its: seq<Item>)
    requires AllZero(sofar) && Readable(sofar, its) && forall i :: 0 <= i < |its| ==> !(1 <= its[i].sym <= 15)
    ensures AllZero(ApplyAll(sofar, its))
    decreases |its|
  {
    if its != [] {
      assert !(1 <= its[0].sym <= 15);
      var next := Apply(sofar, its[0]);
      assert AllZero(next);
      OnlyZeros(next, its[1..]);
    }
  }

  /** A tree with a code needs a plain length, whose place in the order is not one of the first three. */
  lemma PlainLengthNeeded(ll: seq<nat>, dl: seq<nat>, bl: seq<nat>, x: nat) returns (r: nat)
    requires CodeLengths(ll) && CodeLengths(dl) && |bl| == 19 && x < |ll| && ll[x] > 0
    requires forall k :: 0 <= k < 19 && ItemFreqs(BothItems(ll, dl))[k] != 0 ==> bl[k] > 0
    ensures 3 <= r < 19 && bl[BL_ORDER[r]] != 0
  {
    hide TreeItems, CountSym, Readable, ApplyAll;
    var a, b := TreeItems(ll), TreeItems(dl);
    TreeItemsStandFor([], ll);
    assert [] + ll == ll && !AllZero(ll);
    if forall i :: 0 <= i < |a| ==> !(1 <= a[i].sym <= 15) { OnlyZeros([], a); }
    var i :| 0 <= i < |a| && 1 <= a[i].sym <= 15;
    assert (a + b)[i] == a[i];
    SymCounted(a + b, i);
    var k := a[i].sym;
    assert ItemFreqs(a + b)[k] != 0;
    OrderOfRank(k);
    r := RANK[k];
  }

  /** The index in the order of the last code length code to send; there is one after the three repeat symbols. */
  method LastBlIndex(bt: CtData, ghost some: nat) returns (maxBlIndex: int)
    requires bt.len.Length >= 19 && 3 <= some < 19 && bt.len[..19][BL_ORDER[some]] != 0
    ensures 3 <= maxBlIndex < 19
    ensures forall r :: maxBlIndex < r < 19 ==> bt.len[..19][BL_ORDER[r]] == 0
    ensures bt.len[..19][BL_ORDER[maxBlIndex]] != 0
  {
    maxBlIndex := 18;
    while maxBlIndex >= 3
      invariant some <= maxBlIndex < 19
      invariant forall r :: maxBlIndex < r < 19 ==> bt.len[..19][BL_ORDER[r]] == 0
    {
      PlaceInRange(maxBlIndex);
      if bt.len[BL_ORDER[maxBlIndex]] != 0 { break; }
      maxBlIndex := maxBlIndex - 1;
    }
  }

  /** Both trees can be sent with the bit length code `bl`, of which `hclen` lengths are sent. */
  ghost predicate Announced(ll: seq<nat>, dl: seq<nat>, bl: seq<nat>, hclen: nat) {
    && Transmittable(ll, dl, bl, hclen)
    && Coverable(bl, BothItems(ll, dl)) && Readable([], BothItems(ll, dl))
  }

  lemma BlCodeAnnounces(ll: seq<nat>, dl: seq<nat>, len: seq<nat>, maxCode: nat, hclen: nat)
    requires 257 <= |ll| <= L_CODES && 1 <= |dl| <= D_CODES && CodeLengths(ll) && CodeLengths(dl) && 4 <= hclen <= 19
    requires CompleteFor(ItemFreqs(BothItems(ll, dl)), len, maxCode, 19, 7)
    requires forall r :: hclen <= r < 19 ==> len[..19][BL_ORDER[r]] == 0
    ensures Announced(ll, dl, len[..19], hclen)
  {
    hide TreeItems, CountSym, Readable, Coverable, CodeLengths, Used, ItemFreqs;
    var bl := len[..19];
    ItemsCoverable(ll, dl, bl);
    assert NotOversubscribed(bl, 7);
  }

  /** Constructs the bit length tree and returns the index of the last bit length code to send. */
  method BuildBlTree(hp: Heap, lt: CtData, dt: CtData, bt: CtData, tot: Totals, lmax: nat, dmax: nat)
    returns (maxBlIndex: nat)
    requires Laid(hp, bt, tot, 19) && Sized(hp, bt, 19) && bt.code.Length == 39
    requires lt.Apart() && dt.Apart() && Disjoint(lt, dt) && Disjoint(lt, bt) && Disjoint(dt, bt)
    requires Clear(hp.heap, lt) && Clear(hp.heap, dt) && Clear(tot.blCount, lt) && Clear(tot.blCount, dt)
    requires 256 <= lmax < L_CODES && dmax < D_CODES && lmax + 1 < lt.len.Length && dmax + 1 < dt.len.Length
    requires CodeLengths(lt.len[..lmax + 1]) && CodeLengths(dt.len[..dmax + 1]) && lt.len[lmax] > 0
    requires forall k :: 0 <= k < 19 ==> bt.freq[k] == 0
    modifies lt.len, dt.len, hp, hp.heap, hp.depth, bt.freq, bt.dad, bt.len, bt.code, tot, tot.blCount
    ensures lt.len[..] == old(lt.len[..])[lmax + 1 := GUARD] && dt.len[..] == old(dt.len[..])[dmax + 1 := GUARD]
    ensures Holds(bt, bt.len[..19])
    ensures Announced(old(lt.len[..lmax + 1]), old(dt.len[..dmax + 1]), bt.len[..19], maxBlIndex + 1)
    ensures tot.optLen
            == old(tot.optLen) +
              Cost(ItemFreqs(BothItems(old(lt.len[..lmax + 1]), old(dt.len[..dmax + 1]))), bt.len[..19],
                                                 FullExtra(EXTRA_BLBITS, 0), 19) + 3 * (maxBlIndex + 1) + 5 + 5 + 4
    ensures tot.staticLen == old(tot.staticLen)
  {
    hide TreeItems, CountSym, CodeLengths, Cost, SumTo, Announced, CompleteFor, Holds, ItemFreqs, BothItems, Pow2,
         GrownFrom, Depth, Shortest;
    ghost var ll: seq<nat>, dl: seq<nat> := lt.len[..lmax + 1], dt.len[..dmax + 1];
    ScanTrees(lt, dt, bt, lmax, dmax);
    ghost var freqs := ItemFreqs(BothItems(ll, dl));
    BlSmall(ll, dl);
    BlFits();
    var maxCode, tree := BuildCode(hp, bt, tot, 19, 7, EXTRA_BLBITS, 0, false, [], freqs);
    ghost var len: seq<nat> := bt.len[..];
    CompleteLengths(freqs, len, maxCode);
    assert len[..19] == bt.len[..19];
    ghost var some := PlainLengthNeeded(ll, dl, len[..19], lmax);
    maxBlIndex := LastBlIndex(bt, some);
    BlCodeAnnounces(ll, dl, len, maxCode, maxBlIndex + 1);
    tot.optLen := tot.optLen + 3 * (maxBlIndex + 1) + 5 + 5 + 4;
  }

  lemma BlSmall(ll: seq<nat>, dl: seq<nat>)
    requires |ll| <= L_CODES && |dl| <= D_CODES
    ensures SumTo(19, FreqTerm(ItemFreqs(BothItems(ll, dl)))) < 65533
  {
    BlTotals(ll, dl);
  }

  lemma BlFits()
    ensures 19 <= Pow2(7) && forall x :: 0 <= x < 3 ==> At(FullExtra(EXTRA_BLBITS, 0), x) == 0
  {
    assert Pow2(5) == 32;
  }

  lemma CompleteLengths(freqs: seq<nat>, len: seq<nat>, maxCode: nat)
    requires CompleteFor(freqs, len, maxCode, 19, 7)
    ensures |len| >= 19 && forall k :: 0 <= k < 19 && freqs[k] != 0 ==> len[..19][k] > 0
  {
  }

  /** Sends the lengths of the bit length codes. */
  method SendBlLengths(out: Output, bt: CtData, blcodes: nat, ghost bl: seq<nat>)
    requires out.Valid() && |bl| == 19 <= bt.len.Length && bl == bt.len[..19] && LengthsUpTo(bl, 7) && blcodes <= 19
    modifies out, out.outbuf
    ensures out.Valid() && out.Sent() == old(out.Sent()) + ClBits(bl, blcodes)
  {
    hide Lsb, Output.Sent, Output.Valid, Pow2;
    ghost var before := out.Sent();
    for rank := 0 to blcodes
      invariant out.Valid() && out.Sent() == before + ClBits(bl, rank)
    {
      PlaceInRange(rank);
      ThreeBits(bl, BL_ORDER[rank]);
      Assoc(before, ClBits(bl, rank), Lsb(bl[BL_ORDER[rank]], 3));
      out.SendBits(bt.len[BL_ORDER[rank]], 3);
    }
  }

  lemma ThreeBits(bl: seq<nat>, k: nat)
    requires LengthsUpTo(bl, 7) && k < |bl|
    ensures bl[k] < Pow2(3)
  {
    assert Pow2(3) == 8;
  }

  /** Sends the three counts. */
  method SendCounts(out: Output, lcodes: nat, dcodes: nat, blcodes: nat)
    requires out.Valid() && 257 <= lcodes <= 286 && 1 <= dcodes <= 30 && 4 <= blcodes <= 19
    modifies out, out.outbuf
    ensures out.Valid() && out.Sent() == old(out.Sent()) + CountBits(lcodes, dcodes, blcodes)
  {
    hide Lsb, Output.Sent, Output.Valid;
    ghost var before := out.Sent();
    assert Pow2(5) == 32 && Pow2(4) == 16;
    out.SendBits(lcodes - 257, 5);
    out.SendBits(dcodes - 1, 5);
    out.SendBits(blcodes - 4, 4);
    ghost var a, b, c := Lsb(lcodes - 257, 5), Lsb(dcodes - 1, 5), Lsb(blcodes - 4, 4);
    Assoc(before, a, b);
    Assoc(before, a + b, c);
  }

  /** Sends the head of a dynamic block. */
  method SendAllTrees(out: Output, lt: CtData, dt: CtData, bt: CtData, lcodes: nat, dcodes: nat, blcodes: nat)
    requires out.Valid() && lcodes < lt.len.Length && dcodes < dt.len.Length && 19 <= bt.len.Length && lcodes >= 1
    requires dcodes >= 1
    requires lt.len[lcodes] == GUARD && dt.len[dcodes] == GUARD
    requires Holds(bt, bt.len[..19]) && Transmittable(lt.len[..lcodes], dt.len[..dcodes], bt.len[..19], blcodes)
    modifies out, out.outbuf
    ensures out.Valid()
    ensures out.Sent() == old(out.Sent()) + HeaderBits(lt.len[..lcodes], dt.len[..dcodes], bt.len[..19], blcodes)
  {
    hide Output.Sent, Output.Valid, Holds, CodeLengths, Coverable, TreeItems, ItemsBits, ClBits, CountBits, LengthsUpTo,
         NotOversubscribed;
    ghost var before := out.Sent();
    ghost var ll: seq<nat>, dl: seq<nat>, bl: seq<nat> := lt.len[..lcodes], dt.len[..dcodes], bt.len[..19];
    SendCounts(out, lcodes, dcodes, blcodes);
    SendBlLengths(out, bt, blcodes, bl);
    SendTree(out, lt, lcodes - 1, bt, bl);
    SendTree(out, dt, dcodes - 1, bt, bl);
    ghost var c, k, a, b := CountBits(lcodes, dcodes, blcodes), ClBits(bl, blcodes), ItemsBits(bl, TreeItems(ll)),
        ItemsBits(bl, TreeItems(dl));
    Assoc(before, c, k);
    Assoc(before + (c + k), a, b);
    Assoc(before, c + k, a + b);
  }
}
