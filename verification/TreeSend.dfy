/** scan_tree and send_tree of gzip.c: counting and sending the same run-length items. */
module TreeSend {
  import opened Bits
  import opened Canonical
  import opened TreeRle
  import opened BitWriter
  import opened HuffmanBuild
  import opened HuffmanTrees

  /** How often code length symbol `k` occurs. */
  ghost function CountSym(its: seq<Item>, k: nat): nat
    decreases |its|
  {
    if its == [] then 0 else (if its[0].sym == k then 1 else 0) + CountSym(its[1..], k)
  }

  lemma {:induction false} CountSymConcat(a: seq<Item>, b: seq<Item>, k: nat)
    ensures CountSym(a + b, k) == CountSym(a, k) + CountSym(b, k)
    decreases |a|
  {
    if a == [] {
      assert a + b == b;
    } else {
      assert (a + b)[1..] == a[1..] + b;
      CountSymConcat(a[1..], b, k);
    }
  }

  lemma {:induction false} CountSingles(cur: nat, count: nat, k: nat)
    ensures CountSym(seq(count, i => Item(cur, 0, 0)), k) == if k == cur then count else 0
    decreases count
  {
    if count > 0 {
      assert seq(count, i => Item(cur, 0, 0))[1..] == seq(count - 1, i => Item(cur, 0, 0));
      CountSingles(cur, count - 1, k);
    }
  }

  lemma CountTwo(a: Item, b: Item, k: nat)
    ensures CountSym([a, b], k) == (if a.sym == k then 1 else 0) + (if b.sym == k then 1 else 0)
    ensures CountSym([b], k) == if b.sym == k then 1 else 0
  {
    assert [a, b][1..] == [b] && [b][1..] == [];
    assert CountSym([b], k) == if b.sym == k then 1 else 0;
  }

  /** A run is due: all its lengths are behind, and its count suits its limits. */
  ghost predicate Due(cur: nat, prev: int, count: nat) {
    cur <= 15 && 1 <= count <= MaxCount(cur, prev)
  }

  /** Counts the items of one run. */
  method CountRun(bt: CtData, cur: nat, prev: int, count: nat, minCount: nat)
    requires Due(cur, prev, count) && minCount == MinCount(cur, prev) && bt.freq.Length >= 19
    modifies bt.freq
    ensures forall k: nat :: k < bt.freq.Length ==>
            bt.freq[k] == old(bt.freq[k]) + CountSym(RunItems(cur, prev, count, minCount), k)
  {
    hide CountSym;
    ghost var singles := seq(count, i => Item(cur, 0, 0));
    forall k: nat ensures CountSym(singles, k) == if k == cur then count else 0 { CountSingles(cur, count, k); }
    ghost var its := RunItems(cur, prev, count, minCount);
    if count < minCount {
      bt.freq[cur] := bt.freq[cur] + count;
    } else if cur != 0 {
      if cur != prev {
        forall k: nat ensures CountSym(its, k) == (if cur == k then 1 else 0) + (if REP_3_6 == k then 1 else 0) {
          CountTwo(its[0], its[1], k);
        }
        bt.freq[cur] := bt.freq[cur] + 1;
      } else {
        forall k: nat ensures CountSym(its, k) == if REP_3_6 == k then 1 else 0 { CountTwo(its[0], its[0], k); }
      }
      bt.freq[REP_3_6] := bt.freq[REP_3_6] + 1;
    } else if count <= 10 {
      forall k: nat ensures CountSym(its, k) == if REPZ_3_10 == k then 1 else 0 { CountTwo(its[0], its[0], k); }
      bt.freq[REPZ_3_10] := bt.freq[REPZ_3_10] + 1;
    } else {
      forall k: nat ensures CountSym(its, k) == if REPZ_11_138 == k then 1 else 0 { CountTwo(its[0], its[0], k); }
      bt.freq[REPZ_11_138] := bt.freq[REPZ_11_138] + 1;
    }
  }

  lemma ItemsStep(lens: seq<nat>, n: nat, prev: int, count: nat)
    requires n < |lens|
    ensures var cur, next := lens[n], Next(lens, n + 1);
            Items(lens, n, prev, count) == if count + 1 < MaxCount(cur, prev) &&
              cur == next then Items(lens, n + 1, prev, count + 1)
            else RunItems(cur, prev, count + 1, MinCount(cur, prev)) + Items(lens, n + 1, cur, 0)
  {
    hide RunItems, MaxCount, MinCount;
  }

  /** Adds the symbols needed for a tree's code lengths to the frequencies of the bit length tree. */
  method ScanTree(t: CtData, maxCode: nat, bt: CtData)
    requires t.Apart() && bt.Apart() && t.len != bt.freq && maxCode + 1 < t.len.Length && bt.freq.Length >= 19
    requires CodeLengths(t.len[..maxCode + 1])
    modifies t.len, bt.freq
    ensures t.len[..] == old(t.len[..])[maxCode + 1 := GUARD]
    ensures forall k: nat :: k < bt.freq.Length ==>
            bt.freq[k] == old(bt.freq[k]) + CountSym(TreeItems(old(t.len[..maxCode + 1])), k)
  {
    hide RunItems, CountSym, Items, MaxCount, MinCount;
    ghost var lens: seq<nat> := t.len[..maxCode + 1];
    ghost var all: seq<nat> := old(t.len[..])[maxCode + 1 := GUARD];
    var prevLen: int := -1;
    var nextLen := t.len[0];
    var count := 0;
    var maxCount, minCount := 7, 4;
    if nextLen == 0 { maxCount, minCount := 138, 3; }
    t.len[maxCode + 1] := GUARD;
    FirstLimits(nextLen);
    for n := 0 to maxCode + 1
      invariant t.len[..] == all
      invariant nextLen == Next(lens, n)
      invariant (n <= maxCode ==> maxCount == MaxCount(nextLen, prevLen) && minCount == MinCount(nextLen, prevLen))
      invariant Pending(lens, n, prevLen, count)
      invariant forall k: nat :: k < bt.freq.Length ==>
                  bt.freq[k] + CountSym(Items(lens, n, prevLen, count), k)
                    == old(bt.freq[k]) + CountSym(TreeItems(lens), k)
    {
      var curLen := nextLen;
      assert curLen == lens[n];
      nextLen := t.len[n + 1];
      assert nextLen == Next(lens, n + 1);
      ItemsStep(lens, n, prevLen, count);
      PendingStep(lens, n, prevLen, count);
      count := count + 1;
      if count < maxCount && curLen == nextLen { continue; }
      ghost var run, rest := RunItems(curLen, prevLen, count, minCount), Items(lens, n + 1, curLen, 0);
      forall k: nat ensures CountSym(run + rest, k) == CountSym(run, k) + CountSym(rest, k) {
        CountSymConcat(run, rest, k);
      }
      CountRun(bt, curLen, prevLen, count, minCount);
      count := 0;
      prevLen := curLen;
      maxCount, minCount := 7, 4;
      if nextLen == 0 {
        maxCount, minCount := 138, 3;
      } else if curLen == nextLen {
        maxCount, minCount := 6, 3;
      }
      Limits(nextLen, curLen);
    }
    ghost var none := Items(lens, maxCode + 1, prevLen, count);
    forall k: nat ensures CountSym(none, k) == 0 { NoItems(lens, prevLen, count, k); }
  }

  lemma NoItems(lens: seq<nat>, prev: int, count: nat, k: nat)
    ensures Items(lens, |lens|, prev, count) == [] && CountSym(Items(lens, |lens|, prev, count), k) == 0
  {
  }

  lemma Limits(next: nat, prev: int)
    ensures MaxCount(next, prev) == if next == 0 then 138 else if prev == next then 6 else 7
    ensures MinCount(next, prev) == if next == 0 then 3 else if prev == next then 3 else 4
  {
  }

  lemma FirstLimits(next: nat)
    ensures MaxCount(next, -1) == if next == 0 then 138 else 7
    ensures MinCount(next, -1) == if next == 0 then 3 else 4
  {
  }

  lemma PendingStep(lens: seq<nat>, n: nat, prev: int, count: nat)
    requires CodeLengths(lens) && n < |lens| && Pending(lens, n, prev, count)
    ensures Due(lens[n], prev, count + 1)
    ensures if count + 1 < MaxCount(lens[n], prev) &&
            lens[n] == Next(lens, n + 1) then Pending(lens, n + 1, prev, count + 1)
            else Pending(lens, n + 1, lens[n], 0)
  {
  }

  /** The tree holds the code with lengths `lens`. */
  ghost predicate Holds(t: CtData, lens: seq<nat>)
    reads t.len, t.code
  {
    |lens| <= t.len.Length && lens == t.len[..|lens|] && Coded(lens, t.code[..]) && LengthsUpTo(lens, 16)
  }

  /** Sends the code of one symbol. */
  method SendCode(out: Output, t: CtData, c: nat, ghost lens: seq<nat>)
    requires out.Valid() && Holds(t, lens) && c < |lens| && lens[c] > 0
    modifies out, out.outbuf
    ensures out.Valid() && out.Sent() == old(out.Sent()) + CodeBits(lens, c)
  {
    hide CodeBits, Lsb, Output.Sent, Pow2;
    assert lens[c] == t.len[c] && t.code[..][c] == t.code[c];
    out.SendBits(t.code[c], t.len[c]);
  }

  lemma OneItem(bl: seq<nat>, it: Item)
    requires it.sym < |bl| && bl[it.sym] > 0
    ensures Coverable(bl, [it]) && ItemsBits(bl, [it]) == CodeBits(bl, it.sym) + Lsb(it.extra, it.width)
  {
    hide CodeBits, Lsb;
    assert [it][1..] == [];
  }

  lemma PlainItem(bl: seq<nat>, cur: nat)
    requires cur < |bl| && bl[cur] > 0
    ensures Coverable(bl, [Item(cur, 0, 0)]) && ItemsBits(bl, [Item(cur, 0, 0)]) == CodeBits(bl, cur)
  {
    hide CodeBits;
    OneItem(bl, Item(cur, 0, 0));
    LsbEmpty(0);
  }

  lemma TwoItems(bl: seq<nat>, cur: nat, it: Item)
    requires cur < |bl| && bl[cur] > 0 && it.sym < |bl| && bl[it.sym] > 0
    ensures Coverable(bl, [Item(cur, 0, 0), it])
    ensures ItemsBits(bl, [Item(cur, 0, 0), it]) == CodeBits(bl, cur) + (CodeBits(bl, it.sym) + Lsb(it.extra, it.width))
  {
    hide CodeBits, Lsb, ItemsBits;
    assert [Item(cur, 0, 0), it] == [Item(cur, 0, 0)] + [it];
    PlainItem(bl, cur);
    OneItem(bl, it);
    ItemsBitsConcat(bl, [Item(cur, 0, 0)], [it]);
  }

  lemma SinglesSnoc(bl: seq<nat>, cur: nat, count: nat)
    requires cur < |bl| && bl[cur] > 0
    ensures Coverable(bl, seq(count, i => Item(cur, 0, 0))) && Coverable(bl, seq(count + 1, i => Item(cur, 0, 0)))
    ensures ItemsBits(bl, seq(count + 1, i => Item(cur, 0, 0)))
            == ItemsBits(bl, seq(count, i => Item(cur, 0, 0))) + CodeBits(bl, cur)
  {
    hide CodeBits, ItemsBits;
    assert seq(count + 1, i => Item(cur, 0, 0)) == seq(count, i => Item(cur, 0, 0)) + [Item(cur, 0, 0)];
    PlainItem(bl, cur);
    ItemsBitsConcat(bl, seq(count, i => Item(cur, 0, 0)), [Item(cur, 0, 0)]);
  }

  /** Sends a repeat symbol and its count. */
  method SendRepeat(out: Output, bt: CtData, ghost bl: seq<nat>, sym: nat, extra: nat, width: nat)
    requires out.Valid() && Holds(bt, bl) && sym < |bl| && bl[sym] > 0 && width <= 16 && extra < Pow2(width)
    modifies out, out.outbuf
    ensures out.Valid() && out.Sent() == old(out.Sent()) + (CodeBits(bl, sym) + Lsb(extra, width))
  {
    hide CodeBits, Lsb, Output.Sent, Pow2, Coded;
    ghost var before := out.Sent();
    SendCode(out, bt, sym, bl);
    out.SendBits(extra, width);
    Assoc(before, CodeBits(bl, sym), Lsb(extra, width));
  }

  /** Sends a short run length by length. */
  method SendSingles(out: Output, bt: CtData, ghost bl: seq<nat>, cur: nat, count: nat)
    requires out.Valid() && Holds(bt, bl) && cur < |bl| && bl[cur] > 0 && count > 0
    modifies out, out.outbuf
    ensures Coverable(bl, seq(count, i => Item(cur, 0, 0)))
    ensures out.Valid() && out.Sent() == old(out.Sent()) + ItemsBits(bl, seq(count, i => Item(cur, 0, 0)))
  {
    hide CodeBits, Lsb, Output.Sent, Pow2, Coded, ItemsBits;
    ghost var before := out.Sent();
    var left := count;
    NoBits(bl, cur, before);
    while left > 0
      invariant left <= count && out.Valid()
      invariant Coverable(bl, seq(count - left, i => Item(cur, 0, 0)))
      invariant out.Sent() == before + ItemsBits(bl, seq(count - left, i => Item(cur, 0, 0)))
    {
      SinglesSnoc(bl, cur, count - left);
      Assoc(before, ItemsBits(bl, seq(count - left, i => Item(cur, 0, 0))), CodeBits(bl, cur));
      SendCode(out, bt, cur, bl);
      left := left - 1;
    }
  }

  lemma NoBits(bl: seq<nat>, cur: nat, before: seq<bool>)
    ensures before + ItemsBits(bl, []) == before && seq(0, i => Item(cur, 0, 0)) == []
  {
  }

  /** Sends one run. */
  method SendRun(out: Output, bt: CtData, ghost bl: seq<nat>, cur: nat, prev: int, runLength: nat, minCount: nat)
    requires out.Valid() && Holds(bt, bl)
    requires Due(cur, prev, runLength) && minCount == MinCount(cur, prev)
    requires Coverable(bl, RunItems(cur, prev, runLength, minCount))
    modifies out, out.outbuf
    ensures out.Valid() && out.Sent() == old(out.Sent()) + ItemsBits(bl, RunItems(cur, prev, runLength, minCount))
  {
    hide CodeBits, Lsb, Output.Sent, Pow2, Coded, ItemsBits;
    ExtraWidths();
    ghost var its := RunItems(cur, prev, runLength, minCount);
    ghost var before := out.Sent();
    var count := runLength;
    if count < minCount {
      assert its[0].sym == cur;
      SendSingles(out, bt, bl, cur, count);
    } else if cur != 0 {
      if cur != prev {
        assert its[0].sym == cur && its[1].sym == REP_3_6;
        TwoItems(bl, cur, its[1]);
        SendCode(out, bt, cur, bl);
        count := count - 1;
        SendRepeat(out, bt, bl, REP_3_6, count - 3, 2);
        Assoc(before, CodeBits(bl, cur), CodeBits(bl, REP_3_6) + Lsb(count - 3, 2));
      } else {
        assert its[0].sym == REP_3_6;
        OneItem(bl, its[0]);
        SendRepeat(out, bt, bl, REP_3_6, count - 3, 2);
      }
    } else if count <= 10 {
      assert its[0].sym == REPZ_3_10;
      OneItem(bl, its[0]);
      SendRepeat(out, bt, bl, REPZ_3_10, count - 3, 3);
    } else {
      assert its[0].sym == REPZ_11_138;
      OneItem(bl, its[0]);
      SendRepeat(out, bt, bl, REPZ_11_138, count - 11, 7);
    }
  }

  lemma FirstPending(lens: seq<nat>)
    requires lens != []
    ensures Pending(lens, 0, -1, 0)
  {
  }

  /** Sends a tree's code lengths with the codes of the bit length tree; the guard is already set. */
  method SendTree(out: Output, t: CtData, maxCode: nat, bt: CtData, ghost bl: seq<nat>)
    requires out.Valid() && Holds(bt, bl)
    requires maxCode + 1 < t.len.Length && t.len[maxCode + 1] == GUARD && CodeLengths(t.len[..maxCode + 1])
    requires Coverable(bl, TreeItems(t.len[..maxCode + 1]))
    modifies out, out.outbuf
    ensures out.Valid() && out.Sent() == old(out.Sent()) + ItemsBits(bl, TreeItems(t.len[..maxCode + 1]))
  {
    hide CodeBits, Lsb, Output.Sent, Output.Valid, Pow2, Coded, ItemsBits, RunItems, Items, MaxCount, MinCount,
         Coverable, Pending,
         CodeLengths, Holds, Due;
    ghost var lens: seq<nat> := t.len[..maxCode + 1];
    ghost var before := out.Sent();
    ghost var sent: seq<bool> := [];
    var prevLen: int := -1;
    var nextLen := t.len[0];
    var count := 0;
    var maxCount, minCount := 7, 4;
    if nextLen == 0 { maxCount, minCount := 138, 3; }
    FirstLimits(nextLen);
    FirstPending(lens);
    for n := 0 to maxCode + 1
      invariant out.Valid() && out.Sent() == before + sent
      invariant nextLen == Next(lens, n)
      invariant (n <= maxCode ==> maxCount == MaxCount(nextLen, prevLen) && minCount == MinCount(nextLen, prevLen))
      invariant Pending(lens, n, prevLen, count)
      invariant Coverable(bl, Items(lens, n, prevLen, count))
      invariant sent + ItemsBits(bl, Items(lens, n, prevLen, count)) == ItemsBits(bl, TreeItems(lens))
    {
      var curLen := nextLen;
      assert curLen == lens[n];
      nextLen := t.len[n + 1];
      assert nextLen == Next(lens, n + 1);
      ItemsStep(lens, n, prevLen, count);
      PendingStep(lens, n, prevLen, count);
      count := count + 1;
      if count < maxCount && curLen == nextLen { continue; }
      ghost var run, rest := RunItems(curLen, prevLen, count, minCount), Items(lens, n + 1, curLen, 0);
      ItemsBitsConcat(bl, run, rest);
      Assoc(sent, ItemsBits(bl, run), ItemsBits(bl, rest));
      Assoc(before, sent, ItemsBits(bl, run));
      SendRun(out, bt, bl, curLen, prevLen, count, minCount);
      sent := sent + ItemsBits(bl, run);
      count := 0;
      prevLen := curLen;
      if nextLen == 0 {
        maxCount, minCount := 138, 3;
      } else if curLen == nextLen {
        maxCount, minCount := 6, 3;
      } else {
        maxCount, minCount := 7, 4;
      }
      Limits(nextLen, curLen);
    }
    NoItems(lens, prevLen, count, 0);
    NoBits(bl, 0, sent);
  }
}
