/** The run-length coding of code lengths (section 3.2.7 of RFC 1951). */
module TreeRle {
  import opened Bits
  import opened Canonical
  import opened Inflate
  import opened DeflateFormat

  /** A symbol of the code length code: its number, and the repeat count's extra bits. */
  datatype Item = Item(sym: nat, extra: nat, width: nat)

  const REP_3_6 := 16
  const REPZ_3_10 := 17
  const REPZ_11_138 := 18
  /** The length kept after the last code length, different from all lengths. */
  const GUARD := 0xffff

  ghost predicate ValidItem(it: Item) {
    if it.sym < 16 then it.extra == 0 && it.width == 0
    else
      && it.sym <= 18 && it.width == (if it.sym == REP_3_6 then 2 else if it.sym == REPZ_3_10 then 3 else 7)
      && it.extra < Pow2(it.width)
  }

  /** The lengths after an item, as the decoder appends them. */
  ghost function Apply(sofar: seq<nat>, it: Item): seq<nat> {
    if it.sym < 16 then sofar + [it.sym]
    else if it.sym == REP_3_6 then (if sofar == [] then sofar else sofar + Repeat(sofar[|sofar| - 1], 3 + it.extra))
    else if it.sym == REPZ_3_10 then sofar + Repeat(0, 3 + it.extra)
    else sofar + Repeat(0, 11 + it.extra)
  }

  ghost function ApplyAll(sofar: seq<nat>, its: seq<Item>): seq<nat>
    decreases |its|
  {
    if its == [] then sofar else ApplyAll(Apply(sofar, its[0]), its[1..])
  }

  /** Every item of `its` can follow the lengths before it: only a repetition needs one. */
  ghost predicate Readable(sofar: seq<nat>, its: seq<Item>)
    decreases |its|
  {
    its == [] || (ValidItem(its[0]) && (its[0].sym == REP_3_6 ==> sofar != []) &&
      Readable(Apply(sofar, its[0]), its[1..]))
  }

  /** The items for a run of `count` lengths `cur` after the length `prev`. */
  function RunItems(cur: nat, prev: int, count: nat, minCount: nat): seq<Item> {
    if count < minCount then seq(count, i => Item(cur, 0, 0))
    else if cur != 0 then
      if cur != prev then (if count >= 4 then [Item(cur, 0, 0), Item(REP_3_6, count - 4, 2)] else [])
      else (if count >= 3 then [Item(REP_3_6, count - 3, 2)] else [])
    else if count <= 10 then (if count >= 3 then [Item(REPZ_3_10, count - 3, 3)] else [])
    else [Item(REPZ_11_138, count - 11, 7)]
  }

  /** The length after index `n`, or the guard. */
  function Next(lens: seq<nat>, n: nat): nat { if n < |lens| then lens[n] else GUARD }

  /** The largest and smallest repeat counts for a run of `next` after `prev`. */
  function MaxCount(next: nat, prev: int): nat { if next == 0 then 138 else if prev == next then 6 else 7 }
  function MinCount(next: nat, prev: int): nat { if next == 0 then 3 else if prev == next then 3 else 4 }

  /** The items for `lens[n..]` when `count` equal lengths before index `n` are still to be sent. */
  function Items(lens: seq<nat>, n: nat, prev: int, count: nat): seq<Item>
    requires n <= |lens|
    decreases |lens| - n
  {
    if n == |lens| then []
    else
      var cur, next := lens[n], Next(lens, n + 1);
      if count + 1 < MaxCount(cur, prev) && cur == next then Items(lens, n + 1, prev, count + 1)
      else RunItems(cur, prev, count + 1, MinCount(cur, prev)) + Items(lens, n + 1, cur, 0)
  }

  /** `count` lengths equal to `lens[n]` before `n` are unsent, and `prev` is the length before them. */
  ghost predicate Pending(lens: seq<nat>, n: nat, prev: int, count: nat) {
    && n <= |lens| && count <= n && (n == |lens| ==> count == 0)
    && (n < |lens| ==> count < MaxCount(lens[n], prev) && forall i :: n - count <= i < n ==> lens[i] == lens[n])
    && prev == (if n == count then -1 else lens[n - count - 1])
  }

  ghost predicate CodeLengths(lens: seq<nat>) { forall i :: 0 <= i < |lens| ==> lens[i] <= 15 }

  lemma {:induction false} ApplyAllConcat(sofar: seq<nat>, a: seq<Item>, b: seq<Item>)
    ensures ApplyAll(sofar, a + b) == ApplyAll(ApplyAll(sofar, a), b)
    ensures Readable(sofar, a + b) <==> Readable(sofar, a) && Readable(ApplyAll(sofar, a), b)
    decreases |a|
  {
    if a == [] {
      assert a + b == b;
    } else {
      assert (a + b)[0] == a[0] && (a + b)[1..] == a[1..] + b;
      ApplyAllConcat(Apply(sofar, a[0]), a[1..], b);
    }
  }

  lemma {:induction false} ApplySingles(sofar: seq<nat>, cur: nat, count: nat)
    requires cur <= 15
    ensures ApplyAll(sofar, seq(count, i => Item(cur, 0, 0))) == sofar + Repeat(cur, count)
    ensures Readable(sofar, seq(count, i => Item(cur, 0, 0)))
    decreases count
  {
    var its := seq(count, i => Item(cur, 0, 0));
    if count == 0 {
      assert its == [] && sofar + Repeat(cur, 0) == sofar;
    } else {
      assert its[1..] == seq(count - 1, i => Item(cur, 0, 0));
      ApplySingles(sofar + [cur], cur, count - 1);
      assert (sofar + [cur]) + Repeat(cur, count - 1) == sofar + Repeat(cur, count);
    }
  }

  lemma ApplyOne(sofar: seq<nat>, a: Item)
    ensures ApplyAll(sofar, [a]) == Apply(sofar, a)
    ensures Readable(sofar, [a]) <==> ValidItem(a) && (a.sym == REP_3_6 ==> sofar != [])
  {
    hide Apply, ValidItem;
    assert [a][1..] == [];
  }

  lemma ApplyTwo(sofar: seq<nat>, a: Item, b: Item)
    ensures ApplyAll(sofar, [a, b]) == Apply(Apply(sofar, a), b)
    ensures Readable(sofar, [a, b]) <==>
            ValidItem(a) && ValidItem(b) && (a.sym == REP_3_6 ==> sofar != []) &&
              (b.sym == REP_3_6 ==> Apply(sofar, a) != [])
  {
    hide Apply, ValidItem;
    ApplyOne(Apply(sofar, a), b);
    assert [a, b][1..] == [b];
  }

  lemma ExtraWidths()
    ensures Pow2(2) == 4 && Pow2(3) == 8 && Pow2(7) == 128
  {
    assert Pow2(5) == 32;
  }

  /** A run's items stand for the run. */
  lemma ApplyRun(sofar: seq<nat>, cur: nat, prev: int, count: nat)
    requires cur <= 15 && 1 <= count <= MaxCount(cur, prev)
    requires (cur == prev ==> sofar != [] && sofar[|sofar| - 1] == cur)
    ensures ApplyAll(sofar, RunItems(cur, prev, count, MinCount(cur, prev))) == sofar + Repeat(cur, count)
    ensures Readable(sofar, RunItems(cur, prev, count, MinCount(cur, prev)))
  {
    hide ApplyAll, Readable, Pow2;
    var its := RunItems(cur, prev, count, MinCount(cur, prev));
    ExtraWidths();
    if count < MinCount(cur, prev) {
      ApplySingles(sofar, cur, count);
    } else if cur != 0 && cur != prev {
      ApplyTwo(sofar, its[0], its[1]);
      assert (sofar + [cur]) + Repeat(cur, count - 1) == sofar + Repeat(cur, count);
    } else {
      ApplyOne(sofar, its[0]);
    }
  }

  lemma RunOf(lens: seq<nat>, from: nat, to: nat, cur: nat)
    requires from <= to <= |lens| && forall i :: from <= i < to ==> lens[i] == cur
    ensures lens[..from] + Repeat(cur, to - from) == lens[..to]
  {
  }

  lemma EmptyItems(sofar: seq<nat>)
    ensures ApplyAll(sofar, []) == sofar && Readable(sofar, [])
  {
  }

  /** The items stand for exactly the code lengths, also after the lengths of another tree. */
  lemma {:induction false} ItemsStandFor(before: seq<nat>, lens: seq<nat>, n: nat, prev: int, count: nat)
    requires CodeLengths(lens) && Pending(lens, n, prev, count)
    ensures ApplyAll(before + lens[..n - count], Items(lens, n, prev, count)) == before + lens
    ensures Readable(before + lens[..n - count], Items(lens, n, prev, count))
    decreases |lens| - n
  {
    hide Apply, ApplyAll, RunItems, ValidItem, Repeat, Readable;
    if n == |lens| {
      EmptyItems(before + lens);
      assert before + lens[..n] == before + lens;
    } else {
      var cur, next := lens[n], Next(lens, n + 1);
      if count + 1 < MaxCount(cur, prev) && cur == next {
        ItemsStandFor(before, lens, n + 1, prev, count + 1);
      } else {
        var start := n - count;
        var run, rest := RunItems(cur, prev, count + 1, MinCount(cur, prev)), Items(lens, n + 1, cur, 0);
        ApplyRun(before + lens[..start], cur, prev, count + 1);
        RunOf(lens, start, n + 1, cur);
        Assoc(before, lens[..start], Repeat(cur, count + 1));
        ApplyAllConcat(before + lens[..start], run, rest);
        ItemsStandFor(before, lens, n + 1, cur, 0);
      }
    }
  }

  /** The next `k` lengths from `n` on are the same, and the run ends there or is as long as one can be. */
  ghost predicate IsRun(lens: seq<nat>, n: nat, prev: int, k: nat) {
    && n < n + k <= |lens| && (forall i :: n <= i < n + k ==> lens[i] == lens[n]) && k <= MaxCount(lens[n], prev)
    && (Next(lens, n + k) != lens[n] || k == MaxCount(lens[n], prev))
  }

  lemma {:induction false} RunSent(lens: seq<nat>, n: nat, prev: int, k: nat, count: nat)
    requires IsRun(lens, n, prev, k) && count < k
    ensures Items(lens, n + count, prev, count)
         == RunItems(lens[n], prev, k, MinCount(lens[n], prev)) + Items(lens, n + k, lens[n], 0)
    decreases k - count
  {
    hide RunItems;
    assert lens[n + count] == lens[n];
    if count + 1 < k {
      assert Next(lens, n + count + 1) == lens[n + count + 1] == lens[n];
      RunSent(lens, n, prev, k, count + 1);
    }
  }

  /** A run of zeros takes one item, other runs at most two, as soon as they can be repeated at all. */
  lemma RunsAreRepeated(lens: seq<nat>, n: nat, prev: int, k: nat)
    requires IsRun(lens, n, prev, k)
    ensures var c, rest := lens[n], Items(lens, n + k, lens[n], 0);
            && (c == 0 && 3 <= k <= 10 ==> Items(lens, n, prev, 0) == [Item(17, k - 3, 3)] + rest)
            && (c == 0 && 11 <= k ==> k <= 138 && Items(lens, n, prev, 0) == [Item(18, k - 11, 7)] + rest)
            && (c != 0 && c != prev && k >= 4 ==>
                k <= 7 && Items(lens, n, prev, 0) == [Item(c, 0, 0), Item(16, k - 4, 2)] + rest)
            && (c != 0 && c == prev && k >= 3 ==> k <= 6 && Items(lens, n, prev, 0) == [Item(16, k - 3, 2)] + rest)
  {
    hide Items;
    RunSent(lens, n, prev, k, 0);
  }

  /** The items sent for one tree. */
  function TreeItems(lens: seq<nat>): seq<Item> { Items(lens, 0, -1, 0) }

  lemma TreeItemsStandFor(before: seq<nat>, lens: seq<nat>)
    requires CodeLengths(lens)
    ensures ApplyAll(before, TreeItems(lens)) == before + lens
    ensures Readable(before, TreeItems(lens))
  {
    ItemsStandFor(before, lens, 0, -1, 0);
    assert before + lens[..0] == before;
  }

  ghost function ItemBits(bl: seq<nat>, it: Item): seq<bool>
    requires it.sym < |bl|
  {
    CodeBits(bl, it.sym) + Lsb(it.extra, it.width)
  }

  /** All items have codes. */
  ghost predicate Coverable(bl: seq<nat>, its: seq<Item>) {
    forall i :: 0 <= i < |its| ==> its[i].sym < |bl| && bl[its[i].sym] > 0
  }

  ghost function ItemsBits(bl: seq<nat>, its: seq<Item>): seq<bool>
    requires Coverable(bl, its)
    decreases |its|
  {
    if its == [] then [] else ItemBits(bl, its[0]) + ItemsBits(bl, its[1..])
  }

  lemma {:induction false} ItemsBitsConcat(bl: seq<nat>, a: seq<Item>, b: seq<Item>)
    requires Coverable(bl, a + b)
    ensures Coverable(bl, a) && Coverable(bl, b)
    ensures ItemsBits(bl, a + b) == ItemsBits(bl, a) + ItemsBits(bl, b)
    decreases |a|
  {
    assert forall i :: 0 <= i < |a| ==> (a + b)[i] == a[i];
    assert forall i :: 0 <= i < |b| ==> (a + b)[|a| + i] == b[i];
    if a == [] {
      assert a + b == b;
    } else {
      assert (a + b)[1..] == a[1..] + b;
      ItemsBitsConcat(bl, a[1..], b);
      Assoc(ItemBits(bl, a[0]), ItemsBits(bl, a[1..]), ItemsBits(bl, b));
    }
  }

  /** One item is read and applied. */
  lemma ItemRoundTrip(bl: seq<nat>, m: nat, bits: seq<bool>, pos: nat, total: nat, sofar: seq<nat>, it: Item)
    requires NotOversubscribed(bl, m) && it.sym < |bl| && bl[it.sym] > 0
    requires ValidItem(it) && (it.sym == REP_3_6 ==> sofar != []) && StandsAt(bits, pos, ItemBits(bl, it))
    requires |sofar| < |Apply(sofar, it)| <= total
    ensures DecodeLengths(bl, bits, pos, total, sofar)
         == DecodeLengths(bl, bits, pos + |ItemBits(bl, it)|, total, Apply(sofar, it))
  {
    hide StandsAt, CodeBits, DecodeSymbol, NotOversubscribed, Pow2, Field;
    StandsConcat(bits, pos, CodeBits(bl, it.sym), Lsb(it.extra, it.width));
    DecodeCode(bl, bits, pos, it.sym, m);
    if it.sym >= 16 {
      ReadField(bits, pos + bl[it.sym], it.extra, it.width);
    }
  }

  lemma ApplyGrows(sofar: seq<nat>, it: Item)
    requires it.sym == REP_3_6 ==> sofar != []
    ensures |sofar| < |Apply(sofar, it)|
  {
  }

  lemma {:induction false} ApplyAllGrows(sofar: seq<nat>, its: seq<Item>)
    requires Readable(sofar, its)
    ensures |sofar| <= |ApplyAll(sofar, its)|
    decreases |its|
  {
    if its != [] {
      ApplyGrows(sofar, its[0]);
      ApplyAllGrows(Apply(sofar, its[0]), its[1..]);
    }
  }

  /** Items are read back as the lengths they stand for, wherever they stand. */
  lemma {:induction false} ItemsRoundTrip(bl: seq<nat>, m: nat, bits: seq<bool>, pos: nat, sofar: seq<nat>,
                                          its: seq<Item>)
    requires NotOversubscribed(bl, m) && Coverable(bl, its) && Readable(sofar, its)
    requires StandsAt(bits, pos, ItemsBits(bl, its))
    ensures |sofar| <= |ApplyAll(sofar, its)|
    ensures DecodeLengths(bl, bits, pos, |ApplyAll(sofar, its)|, sofar)
            == Good(ApplyAll(sofar, its), pos + |ItemsBits(bl, its)|)
    decreases |its|
  {
    hide StandsAt, Apply, ItemBits, NotOversubscribed, ValidItem, DecodeSymbol, Repeated;
    if its != [] {
      var next := Apply(sofar, its[0]);
      StandsConcat(bits, pos, ItemBits(bl, its[0]), ItemsBits(bl, its[1..]));
      ApplyGrows(sofar, its[0]);
      ApplyAllGrows(next, its[1..]);
      ItemRoundTrip(bl, m, bits, pos, |ApplyAll(sofar, its)|, sofar, its[0]);
      ItemsRoundTrip(bl, m, bits, pos + |ItemBits(bl, its[0])|, next, its[1..]);
    }
  }
}
