/** gen_bitlen of gzip.c: bit lengths from the tree, and their repair when codes are too long. */
module HuffmanBitlen {
  import opened Bits
  import opened Sums
  import opened HuffmanHeap
  import opened HuffmanTree
  import opened HuffmanBuild
  import opened HuffmanCollect
  import opened HuffmanLengths

  /** The nodes of a finished construction: distinct, fathers first, symbols up to `maxCode`. */
  ghost predicate NodeList(p: seq<nat>, dad: seq<nat>, elems: nat, maxCode: int, size: nat) {
    && p != [] && Distinct(p) && FathersFirst(p, dad) && elems <= p[0]
    && (forall i :: 0 <= i < |p| ==> p[i] < size && (p[i] < elems <==> p[i] <= maxCode))
  }

  ghost predicate Laid(hp: Heap, t: CtData, tot: Totals, elems: nat) {
    && t.Apart() && t.freq.Length == t.dad.Length == t.len.Length == 2 * elems + 1 && tot.blCount.Length == 16
    && tot.blCount != t.len && tot.blCount != t.freq && tot.blCount != t.dad
    && hp.heap != t.len && hp.heap != tot.blCount && hp.heap != t.freq && hp.heap != t.dad
  }

  lemma CostValue(freq: seq<nat>, len: seq<nat>, extra: seq<nat>, elems: nat, n: nat)
    ensures CostTerm(freq, len, extra, elems)(n) == if n < elems then At(freq, n) * (At(len, n) + At(extra, n)) else 0
  {}

  /** The totals after the first `i` nodes. */
  ghost predicate Charged(p: seq<nat>, i: nat, freq: seq<nat>, len: seq<nat>, slen: seq<nat>, extra: seq<nat>,
                          elems: nat, hasStatic: bool, opt: int, stat: int)
    requires i <= |p|
  {
    && opt == Sum(p[..i], CostTerm(freq, len, extra, elems))
    && stat == if hasStatic then Sum(p[..i], CostTerm(freq, slen, extra, elems)) else 0
  }

  lemma RootOnly(p: seq<nat>, len: seq<nat>, dad: seq<nat>, freq: seq<nat>, slen: seq<nat>, extra: seq<nat>, max: nat,
                 elems: nat, hasStatic: bool, bl: seq<nat>)
    requires p != [] && elems <= p[0] && p[0] < |len| && len[p[0]] == 0 && forall b :: 0 <= b < |bl| ==> bl[b] == 0
    ensures LengthsFrom(p, 1, len, dad, max) && CountsTo(p, 1, len, dad, max, elems, bl, 0)
    ensures Charged(p, 1, freq, len, slen, extra, elems, hasStatic, 0, 0)
  {
    assert p[..1] == [] + [p[0]];
    forall b: nat ensures Sum(p[..1], CountTerm(len, elems, b)) == 0 { SumSnoc([], p[0], CountTerm(len, elems, b)); }
    SumSnoc([], p[0], OverTerm(len, dad, p[0], max));
    SumSnoc([], p[0], CostTerm(freq, len, extra, elems));
    SumSnoc([], p[0], CostTerm(freq, slen, extra, elems));
  }

  /** Computes every node's length from its father's; returns how many nodes would exceed `max`. */
  method FirstPass(hp: Heap, t: CtData, tot: Totals, elems: nat, maxCode: int, max: nat,
                   extraBits: seq<nat>, base: nat, hasStatic: bool, slen: seq<nat>)
    returns (overflow: nat)
    requires Laid(hp, t, tot, elems) && 1 <= max <= 15 && hp.heapMax < hp.heap.Length
    requires NodeList(hp.Placed(), t.dad[..], elems, maxCode, 2 * elems + 1)
    requires base + |extraBits| >= elems && (hasStatic ==> |slen| >= elems)
    modifies t.len, tot, tot.blCount
    ensures LengthsFrom(hp.Placed(), |hp.Placed()|, t.len[..], t.dad[..], max)
    ensures CountsTo(hp.Placed(), |hp.Placed()|, t.len[..], t.dad[..], max, elems, tot.blCount[..], overflow)
    ensures Charged(hp.Placed(), |hp.Placed()|, t.freq[..], t.len[..], slen, FullExtra(extraBits, base), elems,
            hasStatic,
                    tot.optLen - old(tot.optLen), tot.staticLen - old(tot.staticLen))
    ensures forall x :: 0 <= x < t.len.Length && x !in hp.Placed() ==> t.len[x] == old(t.len[x])
  {
    hide LengthsFrom, CountsTo, Charged, Sum, FathersFirst, Distinct, CostTerm, At, Min, FullExtra, Heap.Placed;
    PlacedAt(hp);
    overflow := 0;
    for b := 0 to 16
      modifies tot.blCount
      invariant forall c :: 0 <= c < b ==> tot.blCount[c] == 0
    {
      tot.blCount[b] := 0;
    }
    ghost var p, extra := hp.Placed(), FullExtra(extraBits, base);
    t.len[hp.heap[hp.heapMax]] := 0;
    RootOnly(p, t.len[..], t.dad[..], t.freq[..], slen, extra, max, elems, hasStatic, tot.blCount[..]);
    for h := hp.heapMax + 1 to hp.heap.Length
      invariant LengthsFrom(p, h - hp.heapMax, t.len[..], t.dad[..], max)
      invariant CountsTo(p, h - hp.heapMax, t.len[..], t.dad[..], max, elems, tot.blCount[..], overflow)
      invariant Charged(p, h - hp.heapMax, t.freq[..], t.len[..], slen, extra, elems, hasStatic,
                        tot.optLen - old(tot.optLen), tot.staticLen - old(tot.staticLen))
      invariant forall x :: 0 <= x < t.len.Length && x !in p ==> t.len[x] == old(t.len[x])
    {
      var n := hp.heap[h];
      ghost var i := h - hp.heapMax;
      assert p[i] == n;
      DadInRange(p, i, t.dad[..], 2 * elems + 1);
      PassStep(p, i, t.len[..], t.dad[..], max, elems, tot.blCount[..], overflow);
      ChargeStep(p, i, t.freq[..], t.len[..], t.dad[..], slen, extra, elems, hasStatic,
        Min(At(t.len[..], At(t.dad[..], n)) + 1, max),
                 tot.optLen - old(tot.optLen), tot.staticLen - old(tot.staticLen));
      var over := MeasureNode(t, tot, n, elems, maxCode, max, extraBits, base, hasStatic, slen);
      overflow := overflow + over;
    }
  }

  /** Sets the length of node `n`; a symbol is also counted and charged. */
  method MeasureNode(t: CtData, tot: Totals, n: nat, elems: nat, maxCode: int, max: nat, extraBits: seq<nat>, base: nat,
                     hasStatic: bool, slen: seq<nat>)
    returns (over: nat)
    requires t.Apart() && tot.blCount != t.len && tot.blCount != t.freq && tot.blCount != t.dad
    requires n < t.len.Length == t.dad.Length == t.freq.Length && At(t.dad[..], n) < t.len.Length
    requires max < tot.blCount.Length
    requires (n < elems <==> n <= maxCode) && base + |extraBits| >= elems && (hasStatic ==> |slen| >= elems)
    modifies t.len, tot, tot.blCount
    ensures var bits := old(Min(At(t.len[..], At(t.dad[..], n)) + 1, max));
            var cost := At(FullExtra(extraBits, base), n);
            && t.len[..] == old(t.len[..])[n := bits]
            && tot.blCount[..]
               == (if n < elems then old(tot.blCount[..])[bits := old(tot.blCount[..])[bits] + 1]
                 else old(tot.blCount[..]))
            && tot.optLen == old(tot.optLen) + (if n < elems then At(t.freq[..], n) * (bits + cost) else 0)
            && tot.staticLen
               == old(tot.staticLen) + (if n < elems && hasStatic then At(t.freq[..], n) * (At(slen, n) + cost) else 0)
    ensures over == if old(At(t.len[..], At(t.dad[..], n))) + 1 > max then 1 else 0
  {
    over := 0;
    var bits := t.len[t.dad[n]] + 1;
    if bits > max {
      bits := max;
      over := 1;
    }
    t.len[n] := bits;
    if n > maxCode { return; }
    tot.blCount[bits] := tot.blCount[bits] + 1;
    var xbits := 0;
    if n >= base { xbits := extraBits[n - base]; }
    var f := t.freq[n];
    tot.optLen := tot.optLen + f * (bits + xbits);
    if hasStatic { tot.staticLen := tot.staticLen + f * (slen[n] + xbits); }
  }

  lemma DadInRange(p: seq<nat>, i: nat, dad: seq<nat>, size: nat)
    requires 1 <= i < |p| && FathersFirst(p, dad) && forall k :: 0 <= k < |p| ==> p[k] < size
    ensures At(dad, p[i]) < size
  {
    assert At(dad, p[i]) in p[..i];
    var k :| 0 <= k < i && p[..i][k] == At(dad, p[i]);
    assert p[k] == At(dad, p[i]);
  }

  lemma ChargeStep(p: seq<nat>, i: nat, freq: seq<nat>, len: seq<nat>, dad: seq<nat>, slen: seq<nat>, extra: seq<nat>,
                   elems: nat, hasStatic: bool, bits: nat, opt: int, stat: int)
    requires 1 <= i < |p| && Distinct(p) && FathersFirst(p, dad) && p[i] < |len|
    requires Charged(p, i, freq, len, slen, extra, elems, hasStatic, opt, stat)
    ensures var n, leaf := p[i], p[i] < elems;
            Charged(p, i + 1, freq, len[n := bits], slen, extra, elems, hasStatic,
                    opt + (if leaf then At(freq, n) * (bits + At(extra, n)) else 0),
                    stat + (if leaf && hasStatic then At(freq, n) * (At(slen, n) + At(extra, n)) else 0))
  {
    hide Sum, CostTerm, FathersFirst, Distinct;
    var n := p[i];
    CostStep(p, i, len, dad, freq, extra, elems, bits);
    CostValue(freq, len[n := bits], extra, elems, n);
    CostValue(freq, slen, extra, elems, n);
    assert p[..i + 1] == p[..i] + [n];
    SumSnoc(p[..i], n, CostTerm(freq, slen, extra, elems));
  }

  /** Moves leaves down the tree until no node is too long. */
  method RepairCounts(tot: Totals, max: nat, overflow0: nat)
    requires 1 <= max < tot.blCount.Length && overflow0 > 0 && overflow0 % 2 == 0
    requires UsedBy(tot.blCount[..], max) == Pow2(max) + overflow0 / 2
    requires 2 * tot.blCount[max] > overflow0 && Leaves(tot.blCount[..], max) <= Pow2(max) && tot.blCount[0] == 0
    modifies tot.blCount
    ensures UsedBy(tot.blCount[..], max) == Pow2(max) && tot.blCount[0] == 0
    ensures Leaves(tot.blCount[..], max) == old(Leaves(tot.blCount[..], max))
    ensures forall b :: max < b < tot.blCount.Length ==> tot.blCount[b] == old(tot.blCount[b])
  {
    hide UsedBy, Leaves, Pow2;
    var overflow: int := overflow0;
    while overflow > 0
      invariant overflow >= 0 && overflow % 2 == 0
      invariant UsedBy(tot.blCount[..], max) == Pow2(max) + overflow / 2
      invariant overflow > 0 ==> 2 * tot.blCount[max] > overflow
      invariant Leaves(tot.blCount[..], max) == old(Leaves(tot.blCount[..], max)) && tot.blCount[0] == 0
      invariant forall b :: max < b < tot.blCount.Length ==> tot.blCount[b] == old(tot.blCount[b])
    {
      ghost var bl: seq<nat> := tot.blCount[..];
      SomeShorterLeaf(bl, max);
      var bits := max - 1;
      while tot.blCount[bits] == 0
        invariant 1 <= bits < max && exists b :: 1 <= b <= bits && bl[b] > 0
        decreases bits
      {
        bits := bits - 1;
      }
      MoveLeafEffect(bl, bits, max);
      tot.blCount[bits] := tot.blCount[bits] - 1;
      tot.blCount[bits + 1] := tot.blCount[bits + 1] + 2;
      tot.blCount[max] := tot.blCount[max] - 1;
      assert tot.blCount[..] == MoveLeaf(bl, bits, max);
      overflow := overflow - 2;
    }
  }

  /** Gives symbol `m` the length `bits` and corrects the total. */
  method AssignLength(t: CtData, tot: Totals, m: nat, bits: nat)
    requires t.Apart() && m < t.len.Length == t.freq.Length
    modifies t.len, tot`optLen
    ensures t.len[..] == old(t.len[..])[m := bits]
    ensures tot.optLen == old(tot.optLen) + (bits - old(At(t.len[..], m))) * At(t.freq[..], m)
  {
    if t.len[m] != bits {
      tot.optLen := tot.optLen + (bits - t.len[m]) * t.freq[m];
      t.len[m] := bits;
    }
  }

  /** Recomputes all lengths from the repaired counts, the least frequent symbols first. */
  method ReassignLengths(hp: Heap, t: CtData, tot: Totals, elems: nat, maxCode: int, max: nat, ghost extra: seq<nat>)
    requires Laid(hp, t, tot, elems) && 1 <= max <= 15 && hp.heapMax < hp.heap.Length
    requires NodeList(hp.Placed(), t.dad[..], elems, maxCode, 2 * elems + 1)
    requires Sum(hp.Placed(), LeafTerm(elems)) == Leaves(tot.blCount[..], max)
    modifies t.len, tot`optLen
    ensures var p, len := hp.Placed(), t.len[..];
            && (forall b :: 1 <= b <= max ==> Sum(p, CountTerm(len, elems, b)) == tot.blCount[b])
            && (forall k :: 0 <= k < |p| && p[k] < elems ==> 1 <= At(len, p[k]) <= max)
            && tot.optLen - old(tot.optLen)
               == Sum(p, CostTerm(t.freq[..], len, extra, elems)) - Sum(p,
                 CostTerm(t.freq[..], old(t.len[..]), extra, elems))
    ensures LongerLater(hp.Placed(), 0, t.len[..], elems, 0)
    ensures forall x :: 0 <= x < t.len.Length && x !in hp.Placed() ==> t.len[x] == old(t.len[x])
  {
    hide Reassigned, Surcharge, Sum, Leaves, At, Distinct, FathersFirst, CostTerm, LongerLater;
    ghost var p, bl, len0 := hp.Placed(), tot.blCount[..], t.len[..];
    var h := hp.heap.Length;
    var bits := max;
    ReassignStart(p, t.len[..], elems, max, bl);
    LongerLaterStart(p, t.len[..], elems, max);
    SurchargeStart(p, t.freq[..], len0, extra, elems);
    while bits != 0
      invariant 0 <= bits <= max && hp.heapMax <= h <= hp.heap.Length
      invariant Reassigned(p, h - hp.heapMax, t.len[..], elems, max, bl, bits, bl[bits])
      invariant LongerLater(p, h - hp.heapMax, t.len[..], elems, bits)
      invariant tot.optLen - old(tot.optLen) == Surcharge(p, h - hp.heapMax, t.freq[..], len0, t.len[..], extra, elems)
      invariant forall k :: 0 <= k < h - hp.heapMax ==> t.len[p[k]] == len0[p[k]]
      invariant forall x :: 0 <= x < t.len.Length && x !in p ==> t.len[x] == old(t.len[x])
    {
      var n := tot.blCount[bits];
      while n != 0
        invariant hp.heapMax <= h <= hp.heap.Length
        invariant Reassigned(p, h - hp.heapMax, t.len[..], elems, max, bl, bits, n)
        invariant LongerLater(p, h - hp.heapMax, t.len[..], elems, bits)
        invariant tot.optLen - old(tot.optLen)
                  == Surcharge(p, h - hp.heapMax, t.freq[..], len0, t.len[..], extra, elems)
        invariant forall k :: 0 <= k < h - hp.heapMax ==> t.len[p[k]] == len0[p[k]]
        invariant forall x :: 0 <= x < t.len.Length && x !in p ==> t.len[x] == old(t.len[x])
        decreases h
      {
        ghost var i := h - hp.heapMax;
        ReassignNotDone(p, i, t.len[..], elems, max, bl, bits, n);
        ReassignStep(p, i, t.len[..], elems, max, bl, bits, n);
        LongerLaterStep(p, i, t.len[..], elems, bits);
        SurchargeStep(p, i, t.freq[..], len0, t.len[..], extra, elems, bits);
        h := h - 1;
        var m := hp.heap[h];
        assert p[i - 1] == m;
        if m > maxCode { continue; }
        SameAt(t.len[..], len0, m);
        EarlierDiffer(p, i - 1);
        AssignLength(t, tot, m, bits);
        n := n - 1;
      }
      ReassignShorter(p, h - hp.heapMax, t.len[..], elems, max, bl, bits);
      LongerLaterLess(p, h - hp.heapMax, t.len[..], elems, bits);
      bits := bits - 1;
    }
    LongerLaterDone(p, h - hp.heapMax, t.len[..], elems, max, bl);
    ReassignDone(p, h - hp.heapMax, t.freq[..], len0, t.len[..], extra, elems, max, bl);
  }

  lemma LongerLaterStart(p: seq<nat>, len: seq<nat>, elems: nat, bits: nat)
    ensures LongerLater(p, |p|, len, elems, bits)
  {}

  lemma LongerLaterLess(p: seq<nat>, i: nat, len: seq<nat>, elems: nat, bits: nat)
    requires bits >= 1 && LongerLater(p, i, len, elems, bits)
    ensures LongerLater(p, i, len, elems, bits - 1)
  {}

  lemma SurchargeStart(p: seq<nat>, freq: seq<nat>, len: seq<nat>, extra: seq<nat>, elems: nat)
    ensures Surcharge(p, |p|, freq, len, len, extra, elems) == 0
  {}

  lemma SameAt(s: seq<nat>, s': seq<nat>, x: nat)
    requires x < |s| == |s'| && s[x] == s'[x]
    ensures At(s, x) == At(s', x)
  {}

  lemma EarlierDiffer(p: seq<nat>, i: nat)
    requires i < |p| && Distinct(p)
    ensures forall k :: 0 <= k < i ==> p[k] != p[i]
  {}

  lemma PlacedAt(hp: Heap)
    requires hp.heapMax <= hp.heap.Length
    ensures |hp.Placed()| == hp.heap.Length - hp.heapMax
    ensures forall i :: 0 <= i < |hp.Placed()| ==> hp.Placed()[i] == hp.heap[hp.heapMax + i]
  {}
}
