/** What the trees built for a block are good for: every token and every code length has a code, and the totals are
    exact. */
module BlockTrees {
  import opened Bits
  import opened Sums
  import opened Canonical
  import opened Lz77
  import opened DeflateTables
  import opened Inflate
  import opened DeflateFormat
  import opened DynamicHeader
  import opened BlockFormat
  import opened BlockCost
  import opened TreeRle
  import opened TreeSend
  import opened HuffmanTree
  import opened HuffmanForest
  import opened HuffmanLengths
  import opened HuffmanShortest
  import opened HuffmanTrees

  // ---- unused codes at the end of a tree change nothing

  lemma CodeBitsPadded(lens: seq<nat>, m: nat, n: nat)
    requires n < m <= |lens| && forall x :: m <= x < |lens| ==> lens[x] == 0
    ensures CodeBits(lens, n) == CodeBits(lens[..m], n)
  {
    hide Count, Used, Msb;
    if lens[n] > 0 { UsedPadded(lens, m, lens[n] - 1); }
    assert lens[..m][..n] == lens[..n];
  }

  /** A code is still complete and still coded when unused codes are appended. */
  lemma Padded(lens: seq<nat>, m: nat, max: nat, code: seq<nat>)
    requires m <= |lens| <= |code| && forall x :: m <= x < |lens| ==> lens[x] == 0
    requires Complete(lens[..m], max) && Coded(lens[..m], code)
    ensures Complete(lens, max) && Coded(lens, code)
  {
    hide Used, CodeBits, Lsb;
    UsedPadded(lens, m, max);
    forall x | 0 <= x < |lens| ensures lens[x] <= max {
      if x < m { assert lens[x] == lens[..m][x]; }
    }
    forall n | 0 <= n < |lens| && lens[n] > 0
      ensures code[n] < Pow2(lens[n]) && Lsb(code[n], lens[n]) == CodeBits(lens, n)
    {
      assert n < m && lens[..m][n] == lens[n];
      CodeBitsPadded(lens, m, n);
    }
  }

  // ---- the code length symbols

  lemma {:induction false} ItemsShort(lens: seq<nat>, n: nat, prev: int, count: nat)
    requires n <= |lens|
    ensures |Items(lens, n, prev, count)| <= |lens| - n + count
    decreases |lens| - n
  {
    if n < |lens| {
      var cur, next := lens[n], Next(lens, n + 1);
      if count + 1 < MaxCount(cur, prev) &&
        cur == next { ItemsShort(lens, n + 1, prev, count + 1); } else { ItemsShort(lens, n + 1, cur, 0); }
    }
  }

  lemma {:induction false} ItemTotals(its: seq<Item>)
    ensures SumTo(19, FreqTerm(ItemFreqs(its))) <= |its|
    decreases |its|
  {
    hide SumTo;
    if its == [] {
      SumToZero(19, FreqTerm(ItemFreqs(its)));
    } else if its[0].sym < 19 {
      ItemFreqsCons(its);
      ItemTotals(its[1..]);
      BumpTotal(ItemFreqs(its[1..]), its[0].sym, 19);
    } else {
      ItemTotals(its[1..]);
      assert ItemFreqs(its) == ItemFreqs(its[1..]);
    }
  }

  /** The frequencies of the code length symbols of both trees together are small. */
  lemma BlTotals(ll: seq<nat>, dl: seq<nat>)
    requires |ll| <= L_CODES && |dl| <= D_CODES
    ensures SumTo(19, FreqTerm(ItemFreqs(TreeItems(ll) + TreeItems(dl)))) < 65533
  {
    hide SumTo, Items;
    ItemsShort(ll, 0, -1, 0);
    ItemsShort(dl, 0, -1, 0);
    ItemTotals(TreeItems(ll) + TreeItems(dl));
  }

  lemma {:induction false} SymCounted(its: seq<Item>, i: nat)
    requires i < |its|
    ensures CountSym(its, its[i].sym) > 0
    decreases |its|
  {
    if i > 0 { SymCounted(its[1..], i - 1); }
  }

  lemma {:induction false} ReadableSyms(sofar: seq<nat>, its: seq<Item>, i: nat)
    requires Readable(sofar, its) && i < |its|
    ensures its[i].sym < 19
    decreases |its|
  {
    if i > 0 { ReadableSyms(Apply(sofar, its[0]), its[1..], i - 1); }
  }

  lemma CountedCoverable(its: seq<Item>, bl: seq<nat>)
    requires Readable([], its) && |bl| == 19 && forall k :: 0 <= k < 19 && ItemFreqs(its)[k] != 0 ==> bl[k] > 0
    ensures Coverable(bl, its)
  {
    hide Readable, CountSym;
    forall i | 0 <= i < |its| ensures its[i].sym < |bl| && bl[its[i].sym] > 0 {
      SymCounted(its, i);
      ReadableSyms([], its, i);
      assert ItemFreqs(its)[its[i].sym] != 0;
    }
  }

  /** The bit length tree has codes for all items of both trees. */
  lemma ItemsCoverable(ll: seq<nat>, dl: seq<nat>, bl: seq<nat>)
    requires CodeLengths(ll) && CodeLengths(dl) && |bl| == 19
    requires forall k :: 0 <= k < 19 && ItemFreqs(TreeItems(ll) + TreeItems(dl))[k] != 0 ==> bl[k] > 0
    ensures Coverable(bl, TreeItems(ll)) && Coverable(bl, TreeItems(dl)) && Coverable(bl, TreeItems(ll) + TreeItems(dl))
    ensures Readable([], TreeItems(ll) + TreeItems(dl))
  {
    hide TreeItems, Readable, CountSym, ApplyAll, CodeLengths, Coverable, ItemsBits;
    var a, b := TreeItems(ll), TreeItems(dl);
    TreeItemsStandFor([], ll);
    TreeItemsStandFor([] + ll, dl);
    ApplyAllConcat([], a, b);
    CountedCoverable(a + b, bl);
    ItemsBitsConcat(bl, a, b);
  }

  // ---- the trees of the tokens

  /** Both trees have codes for the counted symbols. */
  ghost predicate CodesFor(ts: seq<Token>, ll: seq<nat>, dl: seq<nat>) {
    && AllWellFormed(ts) && |ll| <= L_CODES && |dl| <= D_CODES
    && (forall x :: 0 <= x < L_CODES && LitFreqs(ts)[x] != 0 ==> x < |ll| && ll[x] > 0)
    && (forall x :: 0 <= x < D_CODES && DistFreqs(ts)[x] != 0 ==> x < |dl| && dl[x] > 0)
  }

  /** Both trees are complete codes for the counted symbols. */
  ghost predicate TreesFor(ts: seq<Token>, ll: seq<nat>, dl: seq<nat>) {
    CodesFor(ts, ll, dl) && 257 <= |ll| && 1 <= |dl| && Complete(ll, 15) && Complete(dl, 15)
  }

  lemma TreesSendable(ts: seq<Token>, ll: seq<nat>, dl: seq<nat>)
    requires CodesFor(ts, ll, dl)
    ensures AllSendable(ll, dl, ts) && END_BLOCK < |ll| && ll[END_BLOCK] > 0
  {
    hide LitFreqs, DistFreqs, LengthCode, DistCode;
    EndPositive(ts);
    forall i | 0 <= i < |ts| ensures Sendable(ll, dl, ts[i]) {
      assert WellFormed(ts[i]);
      FreqsPositive(ts, i);
    }
  }

  lemma TreesDecodable(ts: seq<Token>, ll: seq<nat>, dl: seq<nat>)
    requires TreesFor(ts, ll, dl)
    ensures Decodable(ll, dl) && CodeLengths(ll) && CodeLengths(dl)
  {
    hide LitFreqs, DistFreqs, Used;
    assert NotOversubscribed(ll, 15) && NotOversubscribed(dl, 15);
  }

  /** All tokens can be sent with the fixed codes. */
  lemma FixedSendable(ts: seq<Token>)
    requires AllWellFormed(ts)
    ensures AllSendable(FixedLengths(), FixedDistances(), ts)
  {
    hide LengthCode, DistCode;
    forall i | 0 <= i < |ts| ensures Sendable(FixedLengths(), FixedDistances(), ts[i]) { assert WellFormed(ts[i]); }
  }

  /** The fixed block needs its three header bits and the cost under the fixed lengths. */
  lemma FixedCost(ts: seq<Token>, last: bool)
    requires AllWellFormed(ts)
    ensures AllSendable(FixedLengths(), FixedDistances(), ts)
    ensures |FixedBits(ts, last)|
            == 3 + Cost(LitFreqs(ts), FixedLengths(), LitExtra(), L_CODES) +
              Cost(DistFreqs(ts), FixedDistances(), DistExtra(), D_CODES)
  {
    hide CodeBits, TokensBits, Cost, LitFreqs, DistFreqs, AllSendable, AllWellFormed, Lsb;
    FixedSendable(ts);
    TokensCost(FixedLengths(), FixedDistances(), ts);
  }

  /** The dynamic block needs its header bits, the trees and the cost under the trees' lengths. */
  lemma DynamicCost(ts: seq<Token>, ll: seq<nat>, dl: seq<nat>, bl: seq<nat>, hclen: nat, last: bool)
    requires TreesFor(ts, ll, dl) && Transmittable(ll, dl, bl, hclen) && AllSendable(ll, dl, ts)
    requires Coverable(bl, TreeItems(ll) + TreeItems(dl)) && Readable([], TreeItems(ll) + TreeItems(dl))
    ensures |DynamicBits(ll, dl, bl, hclen, ts, last)|
            == 3 + Cost(LitFreqs(ts), ll, LitExtra(), L_CODES) + Cost(DistFreqs(ts), dl, DistExtra(), D_CODES)
               + Cost(ItemFreqs(TreeItems(ll) + TreeItems(dl)), bl, FullExtra(EXTRA_BLBITS, 0), 19) + 3 * hclen +
                 5 + 5 + 4
  {
    hide CodeBits, TokensBits, Cost, LitFreqs, DistFreqs, AllSendable, Lsb, ItemsBits, TreeItems, ItemFreqs, Coverable,
         Readable, Complete, CodeLengths, LengthsUpTo;
    TokensCost(ll, dl, ts);
    var a, b := TreeItems(ll), TreeItems(dl);
    ItemsBitsConcat(bl, a, b);
    ItemsCost(bl, [], a + b);
  }

  // ---- the shortest codes

  /** Extra bits do not depend on the code. */
  lemma {:induction false} CostSplit(freq: seq<nat>, len: seq<nat>, extra: seq<nat>, n: nat, m: nat)
    requires m <= n
    ensures SumTo(m, CostTerm(freq, len, extra, n))
            == SumTo(m, LenTerm(freq, len, n)) + SumTo(m, LenTerm(freq, extra, n))
  {
    if m > 0 {
      CostSplit(freq, len, extra, n, m - 1);
      Distributes(At(freq, m - 1), At(len, m - 1), At(extra, m - 1));
    }
  }

  lemma Distributes(a: nat, b: nat, c: nat)
    ensures a * (b + c) == a * b + a * c
  {
  }

  lemma ShortestCost(freq: seq<nat>, len: seq<nat>, ls: seq<nat>, extra: seq<nat>, n: nat, u: nat)
    requires Shortest(freq, len, n) && |ls| <= n && NotOversubscribed(ls, u) && Covering(freq, ls, n)
    ensures Cost(freq, len, extra, n) <= Cost(freq, ls, extra, n)
  {
    hide SumTo, NotOversubscribed, Covering;
    CostSplit(freq, len, extra, n, n);
    CostSplit(freq, ls, extra, n, n);
  }

  /** No codes for the tokens that meet the Kraft inequality, however long, send them in fewer bits than the shortest
      lengths do. */
  lemma ShortestBody(ts: seq<Token>, ll: seq<nat>, dl: seq<nat>, ll': seq<nat>, dl': seq<nat>, u: nat, v: nat)
    requires CodesFor(ts, ll, dl) && Shortest(LitFreqs(ts), ll, L_CODES) && Shortest(DistFreqs(ts), dl, D_CODES)
    requires CodesFor(ts, ll', dl') && NotOversubscribed(ll', u) && NotOversubscribed(dl', v)
    ensures AllSendable(ll, dl, ts) && AllSendable(ll', dl', ts) && END_BLOCK < |ll| && END_BLOCK < |ll'|
    ensures |BodyBits(ll, dl, ts)| <= |BodyBits(ll', dl', ts)|
  {
    hide LitFreqs, DistFreqs, Shortest, NotOversubscribed, Cost, TokensBits, AllSendable, LitExtra, DistExtra;
    TreesSendable(ts, ll, dl);
    TreesSendable(ts, ll', dl');
    TokensCost(ll, dl, ts);
    TokensCost(ll', dl', ts);
    ShortestCost(LitFreqs(ts), ll, ll', LitExtra(), L_CODES, u);
    ShortestCost(DistFreqs(ts), dl, dl', DistExtra(), D_CODES, v);
  }
}
