/** The first part of build_tree: the initial heap, with at least two symbols. */
module HuffmanCollect {
  import opened Sums
  import opened HuffmanHeap
  import opened HuffmanTree
  import opened HuffmanForest
  import opened HuffmanBuild

  /** The symbols below `n` with a non-zero frequency, in order. */
  function Syms(freq: seq<nat>, n: nat): seq<nat>
    requires n <= |freq|
  {
    if n == 0 then [] else if freq[n - 1] != 0 then Syms(freq, n - 1) + [n - 1] else Syms(freq, n - 1)
  }

  lemma {:induction false} SymsMembers(freq: seq<nat>, n: nat)
    requires n <= |freq|
    ensures |Syms(freq, n)| <= n && Symbols(Syms(freq, n), n)
    ensures forall x: nat :: x in Syms(freq, n) <==> x < n && freq[x] != 0
  {
    if n > 0 { SymsMembers(freq, n - 1); }
  }

  lemma {:induction false} SymsSameBelow(freq: seq<nat>, freq': seq<nat>, n: nat)
    requires n <= |freq| && n <= |freq'| && forall x :: 0 <= x < n ==> freq[x] == freq'[x]
    ensures Syms(freq, n) == Syms(freq', n)
  {
    if n > 0 { SymsSameBelow(freq, freq', n - 1); }
  }

  /** A symbol that gets a frequency joins the others. */
  lemma {:induction false} SymsForced(freq: seq<nat>, x: nat, n: nat)
    requires x < n <= |freq| && freq[x] == 0
    ensures multiset(Syms(freq[x := 1], n)) == multiset(Syms(freq, n)) + multiset{x}
    ensures |Syms(freq[x := 1], n)| == |Syms(freq, n)| + 1
  {
    if x == n - 1 {
      SymsSameBelow(freq, freq[x := 1], n - 1);
    } else {
      SymsForced(freq, x, n - 1);
    }
  }

  /** A sum over the symbols is a sum over all indices if the others contribute nothing. */
  lemma {:induction false} SumOverSyms(freq: seq<nat>, n: nat, f: nat -> int)
    requires n <= |freq| && forall x :: 0 <= x < n && freq[x] == 0 ==> f(x) == 0
    ensures Sum(Syms(freq, n), f) == SumTo(n, f)
  {
    hide Sum;
    if n == 0 {
      SumOfNone(f);
    } else {
      SumOverSyms(freq, n - 1, f);
      if freq[n - 1] != 0 { SumSnoc(Syms(freq, n - 1), n - 1, f); }
    }
  }

  /** `c` is the largest symbol, or -1 if there is none. */
  ghost predicate LargestSymbol(freq: seq<nat>, n: nat, c: int)
    requires n <= |freq|
  {
    -1 <= c < n && (c >= 0 ==> freq[c] != 0) && forall x :: c < x < n ==> freq[x] == 0
  }

  /** The running totals of a block and the counts of the code lengths of the current tree. */
  class Totals {
    var optLen: int
    var staticLen: int
    const blCount: array<nat>

    constructor (maxBits: nat)
      ensures fresh(blCount) && blCount.Length == maxBits + 1 && optLen == staticLen == 0
      ensures forall b :: 0 <= b <= maxBits ==> blCount[b] == 0
    {
      optLen, staticLen := 0, 0;
      blCount := new nat[maxBits + 1](_ => 0);
    }
  }

  /** Puts all symbols in the heap array and clears the lengths of the others. */
  method ScanFrequencies(hp: Heap, t: CtData, elems: nat) returns (maxCode: int)
    requires Sized(hp, t, elems) && t.len.Length == 2 * elems + 1 && hp.heap != t.len
    modifies hp, hp.heap, hp.depth, t.len
    ensures hp.heapMax == hp.heap.Length && hp.heapLen <= elems && hp.Roots() == Syms(t.freq[..], elems)
    ensures |Syms(t.freq[..], elems)| == hp.heapLen
    ensures LargestSymbol(t.freq[..], elems, maxCode)
    ensures forall x :: 0 <= x < elems && t.freq[x] == 0 ==> t.len[x] == 0
    ensures |t.len[..]| == 2 * elems + 1 && forall x :: 0 <= x < elems && t.freq[x] != 0 ==> hp.depth[x] == 0
  {
    maxCode := -1;
    hp.heapLen := 0;
    hp.heapMax := hp.heap.Length;
    for n := 0 to elems
      invariant hp.heapLen <= n && hp.heapMax == hp.heap.Length && hp.Roots() == Syms(t.freq[..], n)
      invariant LargestSymbol(t.freq[..], n, maxCode)
      invariant forall x :: 0 <= x < n && t.freq[x] == 0 ==> t.len[x] == 0
      invariant forall x :: 0 <= x < n && t.freq[x] != 0 ==> hp.depth[x] == 0
    {
      ghost var roots := hp.Roots();
      if t.freq[n] != 0 {
        hp.heapLen := hp.heapLen + 1;
        hp.heap[hp.heapLen] := n;
        maxCode := n;
        hp.depth[n] := 0;
        assert hp.Roots() == roots + [n];
      } else {
        t.len[n] := 0;
      }
    }
  }

  /** The symbol that is forced next: no symbol so far has this number. */
  lemma FreshSymbol(freq: seq<nat>, elems: nat, maxCode: int)
    requires 3 <= elems <= |freq| && LargestSymbol(freq, elems, maxCode) && |Syms(freq, elems)| < 2
    ensures var x := if maxCode < 2 then maxCode + 1 else 0; freq[x] == 0
  {
    if maxCode >= 2 && freq[0] != 0 { TwoSymbols(freq, elems, 0, maxCode); }
  }

  lemma TwoSymbols(freq: seq<nat>, n: nat, a: nat, b: nat)
    requires a < n <= |freq| && b < n && a != b && freq[a] != 0 && freq[b] != 0
    ensures |Syms(freq, n)| >= 2
  {
    SymsMembers(freq, n);
    var s := Syms(freq, n);
    var i :| 0 <= i < |s| && s[i] == a;
    var j :| 0 <= j < |s| && s[j] == b;
  }

  /** Gives symbol `x` frequency 1 and puts it in the heap array. */
  method ForceCode(hp: Heap, t: CtData, tot: Totals, elems: nat, hasStatic: bool, slen: seq<nat>, x: nat)
    requires Sized(hp, t, elems) && x < elems && (hasStatic ==> |slen| >= elems)
    requires hp.heapLen + 1 < hp.heap.Length && t.freq[x] == 0
    requires |Syms(t.freq[..], elems)| == hp.heapLen && multiset(hp.Roots()) == multiset(Syms(t.freq[..], elems))
    modifies hp`heapLen, hp.heap, hp.depth, t.freq, tot
    ensures hp.heapLen == old(hp.heapLen) + 1
    ensures |Syms(t.freq[..], elems)| == hp.heapLen && multiset(hp.Roots()) == multiset(Syms(t.freq[..], elems))
    ensures t.freq[..] == old(t.freq[..])[x := 1]
    ensures tot.optLen == old(tot.optLen) - 1
    ensures tot.staticLen == old(tot.staticLen) - if hasStatic then FreqTerm(slen)(x) else 0
    ensures hp.depth[..] == old(hp.depth[..])[x := 0]
  {
    hide Syms;
    ghost var freq: seq<nat> := t.freq[..];
    SymsForced(freq, x, elems);
    ghost var roots := hp.Roots();
    hp.heapLen := hp.heapLen + 1;
    hp.heap[hp.heapLen] := x;
    assert hp.Roots() == roots + [x];
    t.freq[x] := 1;
    assert t.freq[..] == freq[x := 1];
    hp.depth[x] := 0;
    tot.optLen := tot.optLen - 1;
    if hasStatic { tot.staticLen := tot.staticLen - slen[x]; }
  }

  /** Adds codes of frequency 1 until there are two; they are paid back in advance. */
  method ForceTwoCodes(hp: Heap, t: CtData, tot: Totals, elems: nat, hasStatic: bool, slen: seq<nat>, maxCode0: int)
    returns (maxCode: int, ghost forced: seq<nat>)
    requires Sized(hp, t, elems) && 3 <= elems && (hasStatic ==> |slen| >= elems)
    requires hp.heapLen < hp.heap.Length && hp.heapMax == hp.heap.Length
    requires |Syms(t.freq[..], elems)| == hp.heapLen && hp.Roots() == Syms(t.freq[..], elems)
    requires LargestSymbol(t.freq[..], elems, maxCode0)
    requires forall x :: 0 <= x < elems && t.freq[x] != 0 ==> hp.depth[x] == 0
    modifies hp, hp.heap, hp.depth, t.freq, tot
    ensures forall x :: 0 <= x < elems && t.freq[x] != 0 ==> hp.depth[x] == 0
    ensures hp.heapMax == hp.heap.Length && 2 <= hp.heapLen < hp.heap.Length
    ensures |Syms(t.freq[..], elems)| == hp.heapLen && multiset(hp.Roots()) == multiset(Syms(t.freq[..], elems))
    ensures 0 <= maxCode && LargestSymbol(t.freq[..], elems, maxCode)
    ensures Symbols(forced, 3) && |forced| <= 2 && (forced != [] ==> hp.heapLen == 2)
    ensures forall x :: 0 <= x < elems ==> t.freq[x] == if x in forced then 1 else old(t.freq[x])
    ensures forall x :: x in forced ==> old(t.freq[x]) == 0
    ensures tot.optLen == old(tot.optLen) - |forced|
    ensures tot.staticLen == old(tot.staticLen) - if hasStatic then Sum(forced, FreqTerm(slen)) else 0
  {
    hide Syms, Sum, FreqTerm, Heap.Roots, At;
    SumOfNone(FreqTerm(slen));
    maxCode := maxCode0;
    forced := [];
    while hp.heapLen < 2
      invariant hp.heapMax == hp.heap.Length && hp.heapLen < hp.heap.Length
      invariant |Syms(t.freq[..], elems)| == hp.heapLen && multiset(hp.Roots()) == multiset(Syms(t.freq[..], elems))
      invariant LargestSymbol(t.freq[..], elems, maxCode)
      invariant Symbols(forced, 3) && (forced != [] ==> |forced| <= hp.heapLen <= 2)
      invariant forall x :: 0 <= x < elems ==> t.freq[x] == if x in forced then 1 else old(t.freq[x])
      invariant forall x :: x in forced ==> old(t.freq[x]) == 0
      invariant forall x :: 0 <= x < elems && t.freq[x] != 0 ==> hp.depth[x] == 0
      invariant tot.optLen == old(tot.optLen) - |forced|
      invariant tot.staticLen == old(tot.staticLen) - if hasStatic then Sum(forced, FreqTerm(slen)) else 0
      decreases 2 - hp.heapLen
    {
      FreshSymbol(t.freq[..], elems, maxCode);
      var x := 0;
      if maxCode < 2 {
        maxCode := maxCode + 1;
        x := maxCode;
      }
      SumSnoc(forced, x, FreqTerm(slen));
      ForceCode(hp, t, tot, elems, hasStatic, slen, x);
      forced := forced + [x];
    }
    SomeSymbol(t.freq[..], elems, maxCode);
  }

  lemma SumOfNone(f: nat -> int)
    ensures Sum([], f) == 0
  {}

  lemma SomeSymbol(freq: seq<nat>, elems: nat, maxCode: int)
    requires elems <= |freq| && LargestSymbol(freq, elems, maxCode) && |Syms(freq, elems)| > 0
    ensures maxCode >= 0
  {
    SymsMembers(freq, elems);
    assert Syms(freq, elems)[0] in Syms(freq, elems);
  }

  /** Establishes the heap from the last father up. */
  method MakeHeap(hp: Heap, t: CtData, elems: nat, ghost syms: seq<nat>)
    requires Sized(hp, t, elems) && 1 <= hp.heapLen < hp.heap.Length && hp.heapMax == hp.heap.Length
    requires multiset(hp.Roots()) == multiset(syms) && forall x :: x in syms ==> x < elems
    modifies hp.heap
    ensures multiset(hp.Roots()) == multiset(syms)
    ensures Nodes(hp.heap[..], hp.heapLen, Keys(t.freq[..], hp.depth[..]))
    ensures HeapFrom(hp.heap[..], hp.heapLen, Keys(t.freq[..], hp.depth[..]), 1)
  {
    hide Permuted, HeapFrom, Keys;
    ghost var key := Keys(t.freq[..], hp.depth[..]);
    RootsAreNodes(hp.heap[..], hp.heapLen, syms, key);
    var n: nat := hp.heapLen / 2;
    while n >= 1
      invariant multiset(hp.Roots()) == multiset(syms)
      invariant Nodes(hp.heap[..], hp.heapLen, key) && HeapFrom(hp.heap[..], hp.heapLen, key, n + 1)
    {
      ghost var h := hp.heap[..];
      hp.PqDownHeap(t.freq, n, key);
      PermutedRoots(hp.heap[..], h, hp.heapLen);
      assert hp.Roots() == hp.heap[..][1..hp.heapLen + 1];
      n := n - 1;
    }
  }

  lemma RootsAreNodes(h: seq<nat>, len: nat, syms: seq<nat>, key: seq<nat>)
    requires 1 <= len < |h| && multiset(h[1..len + 1]) == multiset(syms) && forall x :: x in syms ==> x < |key|
    ensures Nodes(h, len, key) && HeapFrom(h, len, key, len / 2 + 1)
  {
    forall i | 1 <= i <= len ensures h[i] < |key| {
      assert h[1..len + 1][i - 1] in multiset(h[1..len + 1]);
      assert h[i] in multiset(syms);
      assert h[i] in syms;
    }
  }

  lemma PermutedRoots(h: seq<nat>, g: seq<nat>, len: nat)
    requires Permuted(h, g, len)
    ensures len < |h| == |g| && multiset(h[1..len + 1]) == multiset(g[1..len + 1])
  {}
}
