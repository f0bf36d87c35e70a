/** build_tree of gzip.c up to the bit lengths: joining the least frequent nodes with the heap. */
module HuffmanBuild {
  import opened Bits
  import opened Sums
  import opened HuffmanHeap
  import opened HuffmanTies
  import opened HuffmanTree
  import opened HuffmanForest
  import opened HuffmanOptimality

  /** An array of tree nodes; frequency and code, father and length are kept apart. */
  class CtData {
    const freq: array<nat>
    const dad: array<nat>
    const len: array<nat>
    const code: array<nat>

    constructor (size: nat)
      ensures freq.Length == dad.Length == len.Length == code.Length == size
      ensures fresh(freq) && fresh(dad) && fresh(len) && fresh(code)
      ensures Apart()
      ensures forall n :: 0 <= n < size ==> freq[n] == len[n] == code[n] == 0
    {
      freq := new nat[size](_ => 0);
      dad := new nat[size](_ => 0);
      len := new nat[size](_ => 0);
      code := new nat[size](_ => 0);
    }

    ghost predicate Apart() {
      freq != dad && freq != len && freq != code && dad != len && dad != code && len != code
    }
  }

  /** All facts about the construction when `placed` nodes are joined and `roots` remain. */
  ghost predicate Forest(placed: seq<nat>, roots: seq<nat>, tr: seq<HTree>, dad: seq<nat>, freq: seq<nat>,
                         syms: seq<nat>, elems: nat) {
    && Symbols(syms, elems) && Numbered(tr, elems) && Fathers(tr, placed, dad, freq, elems)
    && Accounted(placed, roots, syms, elems, |tr|) && Covered(placed, roots, tr)
    && DadsAbove(placed, roots, dad) && Sorted(placed, roots, freq) && Priced(roots, freq, syms, elems, |tr|)
  }

  /** Before any join the symbols themselves are the roots. */
  lemma ForestStart(roots: seq<nat>, dad: seq<nat>, freq: seq<nat>, syms: seq<nat>, elems: nat)
    requires Symbols(syms, elems) && multiset(roots) == multiset(syms)
    ensures Forest([], roots, seq(elems, n requires n >= 0 => Leaf(n)), dad, freq, syms, elems)
  {
    var tr: seq<HTree> := seq(elems, n requires n >= 0 => Leaf(n));
    assert Range(elems, elems) == [];
    forall x: nat ensures multiset(roots)[x] == Sum(roots, InTree(tr, x)) {
      forall r | r in roots ensures r < |tr| && tr[r] == Leaf(r) {
        assert r in multiset(roots);
        assert r in multiset(syms);
        assert r in syms;
      }
      RootsAreLeaves(roots, tr, x);
    }
    SumPermutation(roots, syms, FreqTerm(freq));
    WeightsPermutation(roots, syms, freq);
  }

  lemma {:induction false} RootsAreLeaves(roots: seq<nat>, tr: seq<HTree>, x: nat)
    requires forall r :: r in roots ==> r < |tr| && tr[r] == Leaf(r)
    ensures multiset(roots)[x] == Sum(roots, InTree(tr, x))
  {
    if roots != [] {
      var u, r := roots[..|roots| - 1], roots[|roots| - 1];
      assert roots == u + [r];
      assert r in roots && forall y :: y in u ==> y in roots;
      RootsAreLeaves(u, tr, x);
      SumSnoc(u, r, InTree(tr, x));
      assert Ids(tr[r]) == [r];
    }
  }

  /** Which nodes are roots before and after two of them get a father. */
  lemma JoinedRoots(placed: seq<nat>, roots: seq<nat>, roots': seq<nat>, rest: seq<nat>, syms: seq<nat>, elems: nat,
                    d: nat, n: nat, m: nat)
    requires Symbols(syms, elems) && Accounted(placed, roots, syms, elems, d)
    requires multiset(roots) == multiset{n, m} + multiset(rest) && multiset(roots') == multiset{d} + multiset(rest)
    ensures n in roots && m in roots && n !in placed && m !in placed
    ensures d in roots' && d !in placed && d !in roots && d !in rest
    ensures forall r :: r in rest ==> r in roots && r < d
    ensures forall r :: r in roots ==> r == n || r == m || r in roots'
    ensures forall r :: r in roots' ==> r == d || r in rest
  {
    hide Accounted, Symbols, Sum;
    assert n in multiset(roots) && m in multiset(roots) && d in multiset(roots');
    forall x: nat ensures multiset(placed)[x] + multiset(roots)[x] <= 1 && (x in placed || x in roots ==> x < d) {
      OnceOnly(placed, roots, syms, elems, d, x);
    }
    assert multiset(placed)[n] == 0 && multiset(placed)[m] == 0;
    assert forall r :: r in rest ==> r in multiset(roots);
    assert forall r :: r in roots ==> r in multiset(roots);
    assert forall r :: r in roots' ==> r in multiset(roots');
    assert forall r :: r in multiset(roots) ==> r == n || r == m || r in multiset(roots');
  }

  /** Joining the two least frequent roots keeps the forest. */
  lemma ForestStep(placed: seq<nat>, roots: seq<nat>, roots': seq<nat>, rest: seq<nat>, tr: seq<HTree>,
                   dad: seq<nat>, freq: seq<nat>, syms: seq<nat>, elems: nat, n: nat, m: nat)
    requires n < |tr| && m < |tr| && n != m && |tr| < |freq| && |tr| <= |dad|
    requires Forest(placed, roots, tr, dad, freq, syms, elems)
    requires multiset(roots) == multiset{n, m} + multiset(rest) && multiset(roots') == multiset{|tr|} + multiset(rest)
    requires At(freq, n) <= At(freq, m) && forall r :: r in rest ==> At(freq, m) <= At(freq, r)
    ensures Forest([m, n] + placed, roots', tr + [Node(|tr|, tr[n], tr[m])], dad[n := |tr|][m := |tr|],
                   freq[|tr| := At(freq, n) + At(freq, m)], syms, elems)
  {
    hide Sum, Weights, HuffmanCost, Range, Ids, Numbered, Fathers, Accounted, Covered, DadsAbove, Sorted, Priced;
    var d, w := |tr|, At(freq, n) + At(freq, m);
    JoinedRoots(placed, roots, roots', rest, syms, elems, d, n, m);
    StepStructure(tr, placed, dad, freq, elems, n, m, w);
    StepDads(placed, roots, roots', dad, n, m, d);
    StepSorted(placed, roots, roots', freq, n, m, d, w);
    StepAccounted(placed, roots, roots', rest, syms, elems, n, m, d);
    StepCovered(placed, roots, roots', rest, tr, n, m);
    SymbolsBelow(syms, elems, d, tr);
    StepPriced(roots, roots', rest, freq, syms, elems, n, m, d, w);
  }

  lemma SymbolsBelow(syms: seq<nat>, elems: nat, d: nat, tr: seq<HTree>)
    requires Symbols(syms, elems) && Numbered(tr, elems) && d == |tr|
    ensures d !in syms
  {}

  /** Every node but the first comes after its father. */
  ghost predicate FathersFirst(p: seq<nat>, dad: seq<nat>) {
    forall i :: 1 <= i < |p| ==> At(dad, p[i]) in p[..i]
  }

  ghost predicate MostFrequentFirst(p: seq<nat>, freq: seq<nat>) {
    forall i, j :: 0 <= i < j < |p| ==> At(freq, p[i]) >= At(freq, p[j])
  }

  /** The finished construction: `p` lists the nodes of tree `t`, every father before its sons. */
  ghost predicate Built(p: seq<nat>, t: HTree, dad: seq<nat>, freq: seq<nat>, syms: seq<nat>, elems: nat) {
    && p != [] && p[0] == t.id && |syms| >= 1 && Symbols(syms, elems)
    && Shaped(t, elems) && Dads(t, dad) && Weighted(t, freq)
    && multiset(p) == multiset(Ids(t)) == multiset(syms + Range(elems, elems + |syms| - 1))
    && FathersFirst(p, dad) && MostFrequentFirst(p, freq)
    && TreeSum(t, InnerTerm(freq, elems)) == HuffmanCost(multiset(Weights(syms, freq)))
  }

  lemma {:induction false} SubtreeFacts(tr: seq<HTree>, placed: seq<nat>, dad: seq<nat>, freq: seq<nat>, elems: nat,
                                        n: nat)
    requires Numbered(tr, elems) && Fathers(tr, placed, dad, freq, elems) && n < |tr|
    ensures Shaped(tr[n], elems) && Dads(tr[n], dad) && Weighted(tr[n], freq)
    decreases n
  {
    if n >= elems {
      assert Joins(tr, n) && FatherOf(tr[n], placed, dad, freq);
      SubtreeFacts(tr, placed, dad, freq, elems, tr[n].left.id);
      SubtreeFacts(tr, placed, dad, freq, elems, tr[n].right.id);
    }
  }

  lemma {:induction false} InnerOfSymbols(syms: seq<nat>, freq: seq<nat>, elems: nat)
    requires forall x :: x in syms ==> x < elems
    ensures Sum(syms, InnerTerm(freq, elems)) == 0
  {
    if syms != [] {
      var u := syms[..|syms| - 1];
      assert forall x :: x in u ==> x in syms;
      assert syms[|syms| - 1] in syms;
      InnerOfSymbols(u, freq, elems);
    }
  }

  lemma InnerCost(p: seq<nat>, t: HTree, freq: seq<nat>, syms: seq<nat>, elems: nat, node: nat)
    requires Symbols(syms, elems) && elems <= node
    requires multiset(p) == multiset(Ids(t)) == multiset(syms + Range(elems, node))
    ensures TreeSum(t, InnerTerm(freq, elems)) == Sum(Range(elems, node), FreqTerm(freq))
  {
    hide Sum, Range, TreeSum;
    var f := InnerTerm(freq, elems);
    TreeSumIsSum(t, f);
    SumPermutation(Ids(t), syms + Range(elems, node), f);
    SumConcat(syms, Range(elems, node), f);
    InnerOfSymbols(syms, freq, elems);
    SumCongruent(Range(elems, node), f, FreqTerm(freq));
  }

  lemma ForestDone(placed: seq<nat>, r: nat, tr: seq<HTree>, dad: seq<nat>, freq: seq<nat>, syms: seq<nat>, elems: nat)
    requires Forest(placed, [r], tr, dad, freq, syms, elems) && |syms| == |tr| - elems + 1
    ensures r < |tr| && Built([r] + placed, tr[r], dad, freq, syms, elems)
  {
    hide HuffmanCost, TreeSum, Range, Sum, Weights, Shaped, Dads, Weighted, Symbols, Numbered, Fathers, Accounted,
         Covered, DadsAbove,
         Sorted, Priced, Ids, FathersFirst, MostFrequentFirst, InnerTerm;
    ForestDoneParts(placed, r, tr, dad, freq, syms, elems);
    assert elems + |syms| - 1 == |tr|;
  }

  lemma ForestDoneParts(placed: seq<nat>, r: nat, tr: seq<HTree>, dad: seq<nat>, freq: seq<nat>, syms: seq<nat>,
                        elems: nat)
    requires Symbols(syms, elems) && Numbered(tr, elems) && Fathers(tr, placed, dad, freq, elems)
    requires Accounted(placed, [r], syms, elems, |tr|) && Covered(placed, [r], tr)
    requires DadsAbove(placed, [r], dad) && Sorted(placed, [r], freq) && Priced([r], freq, syms, elems, |tr|)
    ensures r < |tr| && tr[r].id == r && elems <= |tr|
    ensures Shaped(tr[r], elems) && Dads(tr[r], dad) && Weighted(tr[r], freq)
    ensures multiset([r] + placed) == multiset(Ids(tr[r])) == multiset(syms + Range(elems, |tr|))
    ensures FathersFirst([r] + placed, dad) && MostFrequentFirst([r] + placed, freq)
    ensures TreeSum(tr[r], InnerTerm(freq, elems)) == HuffmanCost(multiset(Weights(syms, freq)))
  {
    hide HuffmanCost, TreeSum, Range, Sum, Weights, Shaped, Dads, Weighted, Symbols, Numbered, Fathers, Accounted,
         Covered, DadsAbove,
         Sorted, Priced, Ids, FathersFirst, MostFrequentFirst, InnerTerm;
    OnceOnly(placed, [r], syms, elems, |tr|, r);
    RootNumber(tr, elems, r);
    SubtreeFacts(tr, placed, dad, freq, elems, r);
    CoveredByOne(placed, r, tr);
    AccountedByOne(placed, r, syms, elems, |tr|);
    InnerCost([r] + placed, tr[r], freq, syms, elems, |tr|);
    PricedByOne(r, freq, syms, elems, |tr|);
    OrderDone(placed, r, dad, freq);
  }

  lemma CoveredByOne(placed: seq<nat>, r: nat, tr: seq<HTree>)
    requires Covered(placed, [r], tr) && r < |tr|
    ensures multiset([r] + placed) == multiset(Ids(tr[r]))
  {
    forall x: nat ensures multiset([r] + placed)[x] == multiset(Ids(tr[r]))[x] {
      assert multiset(placed)[x] + multiset([r])[x] == Sum([r], InTree(tr, x));
      assert [r] == [r] + [];
      SumCons(r, [], InTree(tr, x));
    }
  }

  lemma AccountedByOne(placed: seq<nat>, r: nat, syms: seq<nat>, elems: nat, node: nat)
    requires Accounted(placed, [r], syms, elems, node)
    ensures multiset([r] + placed) == multiset(syms + Range(elems, node))
  {}

  lemma PricedByOne(r: nat, freq: seq<nat>, syms: seq<nat>, elems: nat, node: nat)
    requires Priced([r], freq, syms, elems, node)
    ensures Sum(Range(elems, node), FreqTerm(freq)) == HuffmanCost(multiset(Weights(syms, freq)))
  {
    hide HuffmanCost, Sum;
    assert |multiset(Weights([r], freq))| == 1;
    NothingToJoin(multiset(Weights([r], freq)));
  }

  lemma OrderDone(placed: seq<nat>, r: nat, dad: seq<nat>, freq: seq<nat>)
    requires DadsAbove(placed, [r], dad) && Sorted(placed, [r], freq)
    ensures FathersFirst([r] + placed, dad) && MostFrequentFirst([r] + placed, freq)
  {
    var p := [r] + placed;
    assert r in [r];
    forall i | 1 <= i < |p| ensures At(dad, p[i]) in p[..i] {
      assert p[i] == placed[i - 1] && p[..i] == [r] + placed[..i - 1];
    }
  }

  lemma RootNumber(tr: seq<HTree>, elems: nat, r: nat)
    requires Numbered(tr, elems) && r < |tr|
    ensures tr[r].id == r && elems <= |tr|
  {}

  ghost predicate Sized(hp: Heap, t: CtData, elems: nat) {
    && t.Apart() && t.freq.Length == t.dad.Length == 2 * elems + 1
    && 2 * elems + 1 <= hp.heap.Length && 2 * elems + 1 <= hp.depth.Length
    && hp.heap != t.freq && hp.heap != t.dad
  }

  /** The state of the construction when the next inner node is `|tr|`. */
  ghost predicate Joining(hp: Heap, t: CtData, elems: nat, syms: seq<nat>, tr: seq<HTree>)
    requires Sized(hp, t, elems)
    reads hp, hp.heap, hp.depth, t.freq, t.dad
  {
    && 1 <= hp.heapLen && |tr| >= elems && hp.heapLen + |tr| == elems + |syms| && |syms| <= elems
    && hp.heapMax + 2 * (|tr| - elems) == hp.heap.Length
    && Forest(hp.Placed(), hp.Roots(), tr, t.dad[..], t.freq[..], syms, elems)
    && Nodes(hp.heap[..], hp.heapLen, Keys(t.freq[..], hp.depth[..]))
    && HeapFrom(hp.heap[..], hp.heapLen, Keys(t.freq[..], hp.depth[..]), 1)
    && Sum(syms, FreqTerm(t.freq[..])) < 65536 && Ruled(hp.Roots(), tr, t.freq[..], hp.depth[..], syms, elems)
  }

  lemma KeyedNow(hp: Heap, t: CtData)
    requires t.freq.Length <= hp.depth.Length
    ensures hp.Keyed(t.freq, Keys(t.freq[..], hp.depth[..]))
  {}

  /** Takes the two least frequent roots and gives them a father, whose place is the root of the heap. */
  method TakePair(hp: Heap, t: CtData, elems: nat, node: nat, ghost syms: seq<nat>, ghost tr: seq<HTree>)
    returns (ghost n: nat, ghost m: nat, ghost rest: seq<nat>)
    requires Sized(hp, t, elems) && Joining(hp, t, elems, syms, tr) && hp.heapLen >= 2 && node == |tr|
    modifies hp, hp.heap, hp.depth, t.freq, t.dad
    ensures hp.heapLen == old(hp.heapLen) - 1 && hp.heapMax == old(hp.heapMax) - 2 && hp.heapLen < hp.heapMax
    ensures hp.Placed() == [m, n] + old(hp.Placed()) && rest == hp.heap[2..hp.heapLen + 1]
    ensures old(multiset(hp.Roots())) == multiset{n, m} + multiset(rest)
    ensures n < node && m < node && n != m && node < t.freq.Length
    ensures t.dad[..] == old(t.dad[..])[n := node][m := node]
    ensures t.freq[..] == old(t.freq[..])[node := At(old(t.freq[..]), n) + At(old(t.freq[..]), m)]
    ensures At(old(t.freq[..]), n) <= At(old(t.freq[..]), m)
    ensures forall r :: r in rest ==> At(old(t.freq[..]), m) <= At(old(t.freq[..]), r)
    ensures FirstKeys(old(t.freq[..]), old(hp.depth[..]), n, m, rest)
    ensures hp.depth[..] == old(hp.depth[..])[node := Deeper(old(hp.depth[n]), old(hp.depth[m]))]
    ensures Nodes(hp.heap[..], hp.heapLen, Keys(t.freq[..], hp.depth[..]))
    ensures HeapFrom(hp.heap[..], hp.heapLen, Keys(t.freq[..], hp.depth[..]), 2)
  {
    hide Forest, HeapFrom, Keys, Sum, FreqTerm, At, Nodes, Heap.Placed, Heap.Roots, Heap.Keyed, Ruled, Deeper;
    ghost var freq: seq<nat> := t.freq[..];
    ghost var dad: seq<nat> := t.dad[..];
    ghost var depth: seq<byte> := hp.depth[..];
    ghost var placed, roots := hp.Placed(), hp.Roots();
    KeyedNow(hp, t);
    var a, b;
    a, b, rest := hp.TakeTwo(t.freq, Keys(freq, depth));
    n, m := a, b;
    LessFrequent(freq, depth, rest, n, m);
    RootsBelow(placed, roots, rest, tr, dad, freq, syms, elems, n, m);
    NewFather(hp, t, node, a, b);
    NewKeys(hp.heap[..], hp.heapLen, rest, freq, depth, t.freq[..], hp.depth[..], node, m);
  }

  /** Joins the two least frequent roots under a new node. */
  method JoinTwo(hp: Heap, t: CtData, elems: nat, node: nat, ghost syms: seq<nat>, ghost tr: seq<HTree>)
    returns (ghost tr': seq<HTree>)
    requires Sized(hp, t, elems) && Joining(hp, t, elems, syms, tr) && hp.heapLen >= 2 && node == |tr|
    modifies hp, hp.heap, hp.depth, t.freq, t.dad
    ensures Joining(hp, t, elems, syms, tr') && |tr'| == node + 1
    ensures t.freq[..elems] == old(t.freq[..elems])
  {
    hide Forest, HeapFrom, Keys, Sum, FreqTerm, At, Nodes, Heap.Placed, Heap.Roots, Heap.Keyed, Ruled, Deeper;
    ghost var freq: seq<nat> := t.freq[..];
    ghost var dad: seq<nat> := t.dad[..];
    ghost var depth: seq<byte> := hp.depth[..];
    ghost var placed, roots := hp.Placed(), hp.Roots();
    ghost var n, m, rest := TakePair(hp, t, elems, node, syms, tr);
    KeyedNow(hp, t);
    KeysLength(t.freq[..], hp.depth[..]);
    hp.PqReplace(t.freq, node, Keys(t.freq[..], hp.depth[..]));
    tr' := tr + [Node(node, tr[n], tr[m])];
    ForestStep(placed, roots, hp.Roots(), rest, tr, dad, freq, syms, elems, n, m);
    OtherSymbols(placed, roots, tr, dad, freq, syms, elems, At(freq, n) + At(freq, m));
    RootSets(placed, roots, hp.Roots(), rest, tr, dad, freq, syms, elems, n, m);
    RuledStep(roots, hp.Roots(), rest, tr, freq, depth, hp.depth[..], syms, elems, n, m, At(freq, n) + At(freq, m));
  }

  /** The roots as sets. */
  lemma RootSets(placed: seq<nat>, roots: seq<nat>, roots': seq<nat>, rest: seq<nat>, tr: seq<HTree>, dad: seq<nat>,
                 freq: seq<nat>, syms: seq<nat>, elems: nat, n: nat, m: nat)
    requires Forest(placed, roots, tr, dad, freq, syms, elems)
    requires multiset(roots) == multiset{n, m} + multiset(rest) && n != m
    requires multiset(roots') == multiset{|tr|} + multiset(rest)
    ensures Numbered(tr, elems) && elems <= |tr| && n in roots && m in roots && forall x :: x in syms ==> x < elems
    ensures forall x :: x in roots' <==> x == |tr| || x in rest
    ensures forall x :: x in rest <==> x in roots && x != n && x != m
  {
    hide Numbered, Fathers, Covered, DadsAbove, Sorted, Priced;
    forall x ensures x in roots' <==> x == |tr| || x in rest { assert x in multiset(roots') <==> x in roots'; }
    forall x: nat ensures x in rest <==> x in roots && x != n && x != m {
      OnceOnly(placed, roots, syms, elems, |tr|, x);
      assert multiset(roots)[x] == multiset{n, m}[x] + multiset(rest)[x];
      assert x in roots <==> multiset(roots)[x] > 0;
      assert x in rest <==> multiset(rest)[x] > 0;
    }
    assert n in multiset(roots) && m in multiset(roots);
  }

  lemma KeysLength(freq: seq<nat>, depth: seq<byte>)
    requires |freq| <= |depth|
    ensures |Keys(freq, depth)| == |freq|
  {}

  /** Constructs the Huffman tree of the symbols in the heap by joining nodes until one is left. */
  method Combine(hp: Heap, t: CtData, elems: nat, ghost syms: seq<nat>) returns (ghost tree: HTree)
    requires Sized(hp, t, elems) && 2 <= |syms| == hp.heapLen <= elems && hp.heapMax == hp.heap.Length
    requires Symbols(syms, elems) && multiset(hp.Roots()) == multiset(syms)
    requires Nodes(hp.heap[..], hp.heapLen, Keys(t.freq[..], hp.depth[..]))
    requires HeapFrom(hp.heap[..], hp.heapLen, Keys(t.freq[..], hp.depth[..]), 1)
    requires Sum(syms, FreqTerm(t.freq[..])) < 65536 && forall x :: x in syms ==> hp.depth[x] == 0
    modifies hp, hp.heap, hp.depth, t.freq, t.dad
    ensures JoinedBy(tree, t.freq[..], syms, elems)
    ensures hp.heapMax <= hp.heap.Length && Built(hp.Placed(), tree, t.dad[..], t.freq[..], syms, elems)
    ensures |hp.Placed()| == 2 * |syms| - 1
    ensures t.freq[..elems] == old(t.freq[..elems])
  {
    hide Forest, HeapFrom, Keys, Sum, FreqTerm, Nodes, Built, Ruled, JoinedBy;
    ForestStart(hp.Roots(), t.dad[..], t.freq[..], syms, elems);
    ghost var tr: seq<HTree> := seq(elems, n requires n >= 0 => Leaf(n));
    RuledStart(hp.Roots(), tr, t.freq[..], hp.depth[..], syms, elems);
    var node := elems;
    assert hp.Placed() == [];
    while hp.heapLen >= 2
      invariant |tr| == node && Joining(hp, t, elems, syms, tr)
      invariant t.freq[..elems] == old(t.freq[..elems])
      decreases hp.heapLen
    {
      tr := JoinTwo(hp, t, elems, node, syms, tr);
      node := node + 1;
    }
    ghost var placed, r := hp.Placed(), hp.heap[1];
    assert hp.Roots() == [r];
    ForestDone(placed, r, tr, t.dad[..], t.freq[..], syms, elems);
    tree := tr[r];
    LastJoined(placed, r, tr, t.dad[..], t.freq[..], hp.depth[..], syms, elems);
    hp.heapMax := hp.heapMax - 1;
    hp.heap[hp.heapMax] := hp.heap[1];
    assert hp.Placed() == [r] + placed;
  }

  /** The one root that is left is the last node. */
  lemma LastJoined(placed: seq<nat>, r: nat, tr: seq<HTree>, dad: seq<nat>, freq: seq<nat>, depth: seq<byte>,
                   syms: seq<nat>, elems: nat)
    requires Forest(placed, [r], tr, dad, freq, syms, elems) && Ruled([r], tr, freq, depth, syms, elems)
    requires |tr| + 1 == elems + |syms| && |syms| >= 2
    ensures r < |tr| && JoinedBy(tr[r], freq, syms, elems)
  {
    hide Fathers, Accounted, Covered, DadsAbove, Sorted, Priced, ByRule;
    var d := |tr| - 1;
    forall e | elems <= e < |tr| && tr[e].Node? ensures tr[e].left.id != d && tr[e].right.id != d {
      assert Joins(tr, e);
    }
    assert IsRoot(tr, syms, elems, |tr|, d);
    assert d in [r];
  }

  /** Creates the father of `n` and `m`. */
  method NewFather(hp: Heap, t: CtData, node: nat, n: nat, m: nat)
    requires t.Apart() && n < node < t.freq.Length && m < node && node < hp.depth.Length && node <= t.dad.Length
    requires At(t.freq[..], n) + At(t.freq[..], m) < 65536
    modifies hp.depth, t.freq, t.dad
    ensures t.freq[..] == old(t.freq[..])[node := old(At(t.freq[..], n) + At(t.freq[..], m))]
    ensures t.dad[..] == old(t.dad[..])[n := node][m := node]
    ensures hp.depth[..] == old(hp.depth[..])[node := Deeper(old(hp.depth[n]), old(hp.depth[m]))]
  {
    t.freq[node] := (t.freq[n] + t.freq[m]) % 65536;
    var deeper: nat := if hp.depth[n] > hp.depth[m] then hp.depth[n] else hp.depth[m];
    hp.depth[node] := (deeper + 1) % 256;
    t.dad[n] := node;
    t.dad[m] := node;
  }

  /** Nodes with smaller keys are not more frequent. */
  lemma LessFrequent(freq: seq<nat>, depth: seq<byte>, rest: seq<nat>, n: nat, m: nat)
    requires |freq| <= |depth| && n < |freq| && m < |freq| && Keys(freq, depth)[n] <= Keys(freq, depth)[m]
    requires forall r :: r in rest ==> r < |freq| && Keys(freq, depth)[m] <= Keys(freq, depth)[r]
    ensures At(freq, n) <= At(freq, m) && forall r :: r in rest ==> At(freq, m) <= At(freq, r)
  {}

  lemma RootsBelow(placed: seq<nat>, roots: seq<nat>, rest: seq<nat>, tr: seq<HTree>, dad: seq<nat>, freq: seq<nat>,
                   syms: seq<nat>, elems: nat, n: nat, m: nat)
    requires Forest(placed, roots, tr, dad, freq, syms, elems) && Sum(syms, FreqTerm(freq)) < 65536
    requires multiset(roots) == multiset{n, m} + multiset(rest)
    ensures n < |tr| && m < |tr| && n != m && (forall r :: r in rest ==> r < |tr|)
    ensures At(freq, n) + At(freq, m) < 65536
  {
    hide Sum, Numbered, Fathers, Covered, DadsAbove, Sorted;
    assert n in multiset(roots) && m in multiset(roots);
    forall x: nat ensures multiset(roots)[x] <= 1 && (x in roots ==> x < |tr|) {
      OnceOnly(placed, roots, syms, elems, |tr|, x);
    }
    assert multiset(roots)[n] <= 1;
    forall r | r in rest ensures r < |tr| { assert r in multiset(rest); assert r in multiset(roots); }
    PermuteTwo(roots, rest, n, m, freq);
    SumFreqNat(rest, freq);
  }

  lemma {:induction false} SumFreqNat(s: seq<nat>, freq: seq<nat>)
    ensures Sum(s, FreqTerm(freq)) >= 0
  {
    if s != [] { SumFreqNat(s[..|s| - 1], freq); }
  }

  /** The heap below the root does not notice the key of a new node. */
  lemma NewKeys(h: seq<nat>, len: nat, rest: seq<nat>, freq: seq<nat>, depth: seq<byte>, freq': seq<nat>,
                depth': seq<byte>, node: nat, m: nat)
    requires |freq| == |freq'| <= |depth| == |depth'| && len >= 1
    requires forall x :: 0 <= x < |freq| && x != node ==> freq'[x] == freq[x] && depth'[x] == depth[x]
    requires Nodes(h, len, Keys(freq, depth)) && HeapFrom(h, len, Keys(freq, depth), 1)
    requires rest == h[2..len + 1] && forall r :: r in rest ==> r < node
    ensures Nodes(h, len, Keys(freq', depth')) && HeapFrom(h, len, Keys(freq', depth'), 2)
  {
    assert forall i :: 2 <= i <= len ==> h[i] == rest[i - 2] && h[i] in rest;
  }

  lemma OtherSymbols(placed: seq<nat>, roots: seq<nat>, tr: seq<HTree>, dad: seq<nat>, freq: seq<nat>, syms: seq<nat>,
                     elems: nat, w: nat)
    requires Forest(placed, roots, tr, dad, freq, syms, elems) && |tr| < |freq|
    ensures Sum(syms, FreqTerm(freq[|tr| := w])) == Sum(syms, FreqTerm(freq))
  {
    OtherWeights(syms, freq, |tr|, w);
  }
}
