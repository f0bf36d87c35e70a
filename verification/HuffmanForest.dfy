/** The state of the construction in build_tree: the nodes already joined and the roots still in the heap. */
module HuffmanForest {
  import opened Sums
  import opened HuffmanTree
  import opened HuffmanOptimality

  /** The numbers `a`, `a + 1`, ..., `b - 1`. */
  function Range(a: nat, b: nat): (s: seq<nat>)
    requires a <= b
    ensures |s| == b - a && forall i :: 0 <= i < |s| ==> s[i] == a + i
  {
    if a == b then [] else Range(a, b - 1) + [b - 1]
  }

  function FreqTerm(freq: seq<nat>): nat -> int { (x: nat) => At(freq, x) }

  /** The frequencies of some nodes. */
  ghost function Weights(s: seq<nat>, freq: seq<nat>): (ws: seq<nat>)
    ensures |ws| == |s| && forall i :: 0 <= i < |s| ==> ws[i] == At(freq, s[i])
  {
    seq(|s|, i requires 0 <= i < |s| => At(freq, s[i]))
  }

  /** How often node `x` occurs in the tree of a root. */
  ghost function InTree(tr: seq<HTree>, x: nat): nat -> int {
    (r: nat) => if r < |tr| then multiset(Ids(tr[r]))[x] else 0
  }

  /** `tr[n]` is the tree below node `n`: a leaf for a symbol, the join of two earlier nodes otherwise. */
  ghost predicate Numbered(tr: seq<HTree>, elems: nat) {
    && elems <= |tr|
    && (forall n :: 0 <= n < |tr| ==> tr[n].id == n)
    && (forall n :: 0 <= n < elems ==> tr[n] == Leaf(n))
    && (forall d :: elems <= d < |tr| ==> Joins(tr, d))
  }

  ghost predicate Joins(tr: seq<HTree>, d: nat)
    requires d < |tr|
  {
    && tr[d].Node? && tr[d].id == d && tr[d].left.id < d && tr[d].right.id < d
    && tr[d].left == tr[tr[d].left.id] && tr[d].right == tr[tr[d].right.id]
  }

  /** The sons of an inner node have been placed, know their father, and give it their frequencies. */
  ghost predicate Fathers(tr: seq<HTree>, placed: seq<nat>, dad: seq<nat>, freq: seq<nat>, elems: nat) {
    forall d :: elems <= d < |tr| && tr[d].Node? ==> FatherOf(tr[d], placed, dad, freq)
  }

  ghost predicate FatherOf(t: HTree, placed: seq<nat>, dad: seq<nat>, freq: seq<nat>)
    requires t.Node?
  {
    && t.left.id in placed && t.right.id in placed
    && At(dad, t.left.id) == t.id && At(dad, t.right.id) == t.id
    && At(freq, t.id) == At(freq, t.left.id) + At(freq, t.right.id)
  }

  /** Placed and remaining nodes are the symbols and the inner nodes made so far, each once. */
  ghost predicate Accounted(placed: seq<nat>, roots: seq<nat>, syms: seq<nat>, elems: nat, node: nat) {
    elems <= node && multiset(placed) + multiset(roots) == multiset(syms) + multiset(Range(elems, node))
  }

  /** They are also exactly the nodes of the roots' trees. */
  ghost predicate Covered(placed: seq<nat>, roots: seq<nat>, tr: seq<HTree>) {
    forall x: nat :: multiset(placed)[x] + multiset(roots)[x] == Sum(roots, InTree(tr, x))
  }

  /** A placed node's father is placed before it or still a root. */
  ghost predicate DadsAbove(placed: seq<nat>, roots: seq<nat>, dad: seq<nat>) {
    forall i :: 0 <= i < |placed| ==> At(dad, placed[i]) in placed[..i] || At(dad, placed[i]) in roots
  }

  /** Placed nodes are sorted by frequency, and no root is less frequent than any of them. */
  ghost predicate Sorted(placed: seq<nat>, roots: seq<nat>, freq: seq<nat>) {
    && (forall i, j :: 0 <= i < j < |placed| ==> At(freq, placed[i]) >= At(freq, placed[j]))
    && (forall i, r :: 0 <= i < |placed| && r in roots ==> At(freq, placed[i]) <= At(freq, r))
  }

  /** What the inner nodes cost so far and what joining the roots will cost is what joining the symbols costs. */
  ghost predicate Priced(roots: seq<nat>, freq: seq<nat>, syms: seq<nat>, elems: nat, node: nat) {
    && elems <= node
    && Sum(Range(elems, node), FreqTerm(freq)) + HuffmanCost(multiset(Weights(roots, freq)))
       == HuffmanCost(multiset(Weights(syms, freq)))
    && Sum(roots, FreqTerm(freq)) == Sum(syms, FreqTerm(freq))
  }

  /** The symbols are distinct and below `elems`. */
  ghost predicate Symbols(syms: seq<nat>, elems: nat) {
    && (forall x :: x in syms ==> x < elems)
    && (forall i, j :: 0 <= i < j < |syms| ==> syms[i] != syms[j])
  }

  lemma WeightsConcat(s: seq<nat>, t: seq<nat>, freq: seq<nat>)
    ensures Weights(s + t, freq) == Weights(s, freq) + Weights(t, freq)
  {}

  lemma WeightsCons(x: nat, s: seq<nat>, freq: seq<nat>)
    ensures Weights([x] + s, freq) == [At(freq, x)] + Weights(s, freq)
  {}

  lemma MultisetMiddle(a: seq<nat>, x: nat, b: seq<nat>)
    ensures multiset(a + ([x] + b)) == multiset(a + b) + multiset{x}
  {}

  lemma {:induction false} WeightsPermutation(s: seq<nat>, t: seq<nat>, freq: seq<nat>)
    requires multiset(s) == multiset(t)
    ensures multiset(Weights(s, freq)) == multiset(Weights(t, freq))
  {
    hide Weights;
    if s == [] {
      assert |multiset(t)| == |multiset(s)|;
    } else {
      var u, x := s[..|s| - 1], s[|s| - 1];
      assert s == u + ([x] + []);
      var i := IndexIn(t, x);
      RemoveAt(t, i);
      var a, b := t[..i], t[i + 1..];
      WeightsPermutation(u, a + b, freq);
      WeightsConcat(u, [x] + [], freq);
      WeightsCons(x, [], freq);
      WeightsConcat(u, [], freq);
      assert u + [] == u;
      MultisetMiddle(Weights(u, freq), At(freq, x), Weights([], freq));
      WeightsConcat(a, [x] + b, freq);
      WeightsCons(x, b, freq);
      WeightsConcat(a, b, freq);
      MultisetMiddle(Weights(a, freq), At(freq, x), Weights(b, freq));
    }
  }

  /** A new frequency for node `d` does not concern other nodes. */
  lemma OtherWeights(s: seq<nat>, freq: seq<nat>, d: nat, w: nat)
    requires d !in s && d < |freq|
    ensures Sum(s, FreqTerm(freq[d := w])) == Sum(s, FreqTerm(freq))
    ensures Weights(s, freq[d := w]) == Weights(s, freq)
  {
    SumCongruent(s, FreqTerm(freq), FreqTerm(freq[d := w]));
  }

  lemma RangeMembers(a: nat, b: nat, x: nat)
    requires a <= b
    ensures multiset(Range(a, b))[x] == if a <= x < b then 1 else 0
    decreases b
  {
    if a < b {
      RangeMembers(a, b - 1, x);
    }
  }

  lemma {:induction false} DistinctMultiset(s: seq<nat>, x: nat)
    requires forall i, j :: 0 <= i < j < |s| ==> s[i] != s[j]
    ensures multiset(s)[x] <= 1
  {
    if s != [] {
      var u, y := s[..|s| - 1], s[|s| - 1];
      assert s == u + [y];
      DistinctMultiset(u, x);
      assert y !in u;
    }
  }

  /** Every node occurs once, either placed or as a root. */
  lemma OnceOnly(placed: seq<nat>, roots: seq<nat>, syms: seq<nat>, elems: nat, node: nat, x: nat)
    requires Symbols(syms, elems) && Accounted(placed, roots, syms, elems, node)
    ensures multiset(placed)[x] + multiset(roots)[x] <= 1
    ensures x in placed || x in roots ==> x < node
  {
    RangeMembers(elems, node, x);
    DistinctMultiset(syms, x);
    assert x in syms <==> x in multiset(syms);
    assert (multiset(placed) + multiset(roots))[x] == (multiset(syms) + multiset(Range(elems, node)))[x];
  }

  /** Joining roots `n` and `m` under the new node `|tr|`. */
  lemma StepStructure(tr: seq<HTree>, placed: seq<nat>, dad: seq<nat>, freq: seq<nat>, elems: nat, n: nat, m: nat,
                      w: nat)
    requires Numbered(tr, elems) && Fathers(tr, placed, dad, freq, elems)
    requires n < |tr| && m < |tr| && n !in placed && m !in placed && n != m
    requires |tr| < |freq| && |tr| <= |dad| && w == At(freq, n) + At(freq, m)
    ensures var d := |tr|;
            Numbered(tr + [Node(d, tr[n], tr[m])], elems)
            && Fathers(tr + [Node(d, tr[n], tr[m])], [m, n] + placed, dad[n := d][m := d], freq[d := w], elems)
  {
    var d := |tr|;
    var tr' := tr + [Node(d, tr[n], tr[m])];
    assert tr[n].id == n && tr[m].id == m;
    forall e | elems <= e < |tr'| ensures Joins(tr', e) {
      assert e < |tr| ==> Joins(tr, e);
    }
    forall e | elems <= e < |tr'| && tr'[e].Node?
      ensures FatherOf(tr'[e], [m, n] + placed, dad[n := d][m := d], freq[d := w])
    {
      if e < |tr| { assert Joins(tr, e) && FatherOf(tr[e], placed, dad, freq); }
    }
  }

  lemma StepDads(placed: seq<nat>, roots: seq<nat>, roots': seq<nat>, dad: seq<nat>, n: nat, m: nat, d: nat)
    requires DadsAbove(placed, roots, dad) && n !in placed && m !in placed && n < |dad| && m < |dad|
    requires d in roots' && forall r :: r in roots ==> r == n || r == m || r in roots'
    ensures DadsAbove([m, n] + placed, roots', dad[n := d][m := d])
  {
    var p := [m, n] + placed;
    forall i | 0 <= i < |p|
      ensures At(dad[n := d][m := d], p[i]) in p[..i] || At(dad[n := d][m := d], p[i]) in roots'
    {
      if i >= 2 {
        assert p[i] == placed[i - 2] && p[..i] == [m, n] + placed[..i - 2];
      }
    }
  }

  lemma StepSorted(placed: seq<nat>, roots: seq<nat>, roots': seq<nat>, freq: seq<nat>, n: nat, m: nat, d: nat, w: nat)
    requires Sorted(placed, roots, freq) && n in roots && m in roots && d < |freq| && d !in placed && d !in roots
    requires w == At(freq, n) + At(freq, m) && At(freq, n) <= At(freq, m)
    requires forall r :: r in roots' ==> r == d || (r in roots && At(freq, m) <= At(freq, r))
    ensures Sorted([m, n] + placed, roots', freq[d := w])
  {}

  lemma StepAccounted(placed: seq<nat>, roots: seq<nat>, roots': seq<nat>, rest: seq<nat>, syms: seq<nat>, elems: nat,
                      n: nat, m: nat, d: nat)
    requires Accounted(placed, roots, syms, elems, d)
    requires multiset(roots) == multiset{n, m} + multiset(rest) && multiset(roots') == multiset{d} + multiset(rest)
    ensures Accounted([m, n] + placed, roots', syms, elems, d + 1)
  {
    var before, after := multiset(placed) + multiset(roots), multiset([m, n] + placed) + multiset(roots');
    assert multiset([m, n] + placed) == multiset{m, n} + multiset(placed);
    assert after == before + multiset{d};
    assert multiset(Range(elems, d + 1)) == multiset(Range(elems, d)) + multiset{d};
  }

  lemma StepCovered(placed: seq<nat>, roots: seq<nat>, roots': seq<nat>, rest: seq<nat>, tr: seq<HTree>, n: nat, m: nat)
    requires Covered(placed, roots, tr) && n < |tr| && m < |tr| && forall r :: r in rest ==> r < |tr|
    requires multiset(roots) == multiset{n, m} + multiset(rest) && multiset(roots') == multiset{|tr|} + multiset(rest)
    ensures Covered([m, n] + placed, roots', tr + [Node(|tr|, tr[n], tr[m])])
  {
    var d := |tr|;
    var tr' := tr + [Node(d, tr[n], tr[m])];
    forall x: nat
      ensures multiset([m, n] + placed)[x] + multiset(roots')[x] == Sum(roots', InTree(tr', x))
    {
      StepCoveredAt(placed, roots, roots', rest, tr, n, m, x);
    }
  }

  lemma StepCoveredAt(placed: seq<nat>, roots: seq<nat>, roots': seq<nat>, rest: seq<nat>, tr: seq<HTree>, n: nat,
                      m: nat, x: nat)
    requires multiset(placed)[x] + multiset(roots)[x] == Sum(roots, InTree(tr, x))
    requires n < |tr| && m < |tr| && forall r :: r in rest ==> r < |tr|
    requires multiset(roots) == multiset{n, m} + multiset(rest) && multiset(roots') == multiset{|tr|} + multiset(rest)
    ensures multiset([m, n] + placed)[x] + multiset(roots')[x]
            == Sum(roots', InTree(tr + [Node(|tr|, tr[n], tr[m])], x))
  {
    hide Sum, Ids;
    var d := |tr|;
    var tr' := tr + [Node(d, tr[n], tr[m])];
    var f, g := InTree(tr, x), InTree(tr', x);
    SumPermutation(roots, [n] + ([m] + rest), f);
    SumCons(n, [m] + rest, f);
    SumCons(m, rest, f);
    SumPermutation(roots', [d] + rest, g);
    SumCons(d, rest, g);
    SumCongruent(rest, f, g);
    IdsOfJoin(d, tr[n], tr[m], x);
    assert multiset(roots')[x] == multiset{d}[x] + multiset(rest)[x];
    assert multiset(roots)[x] == multiset{n, m}[x] + multiset(rest)[x];
    assert multiset([m, n] + placed)[x] == multiset{n, m}[x] + multiset(placed)[x];
  }

  lemma IdsOfJoin(d: nat, l: HTree, r: HTree, x: nat)
    ensures multiset(Ids(Node(d, l, r)))[x] == multiset{d}[x] + multiset(Ids(l))[x] + multiset(Ids(r))[x]
  {}

  lemma StepPriced(roots: seq<nat>, roots': seq<nat>, rest: seq<nat>, freq: seq<nat>, syms: seq<nat>, elems: nat,
                   n: nat, m: nat, d: nat, w: nat)
    requires Priced(roots, freq, syms, elems, d) && w == At(freq, n) + At(freq, m) && d < |freq|
    requires multiset(roots) == multiset{n, m} + multiset(rest) && multiset(roots') == multiset{d} + multiset(rest)
    requires d !in rest && d !in syms
    requires At(freq, n) <= At(freq, m) && forall r :: r in rest ==> At(freq, m) <= At(freq, r)
    ensures Priced(roots', freq[d := w], syms, elems, d + 1)
  {
    hide Sum, Weights, HuffmanCost, IsLeast;
    var freq' := freq[d := w];
    SumSnoc(Range(elems, d), d, FreqTerm(freq'));
    OtherWeights(Range(elems, d), freq, d, w);
    OtherWeights(rest, freq, d, w);
    OtherWeights(syms, freq, d, w);
    PermuteTwo(roots, rest, n, m, freq);
    PermuteOne(roots', rest, d, freq');
    JoinFront(At(freq, n), At(freq, m), Weights(rest, freq));
  }

  lemma PermuteTwo(roots: seq<nat>, rest: seq<nat>, n: nat, m: nat, freq: seq<nat>)
    requires multiset(roots) == multiset{n, m} + multiset(rest)
    ensures Sum(roots, FreqTerm(freq)) == At(freq, n) + At(freq, m) + Sum(rest, FreqTerm(freq))
    ensures multiset(Weights(roots, freq)) == multiset([At(freq, n)] + ([At(freq, m)] + Weights(rest, freq)))
  {
    hide Sum, Weights;
    SumPermutation(roots, [n] + ([m] + rest), FreqTerm(freq));
    SumCons(n, [m] + rest, FreqTerm(freq));
    SumCons(m, rest, FreqTerm(freq));
    WeightsPermutation(roots, [n] + ([m] + rest), freq);
    WeightsCons(n, [m] + rest, freq);
    WeightsCons(m, rest, freq);
  }

  lemma PermuteOne(roots: seq<nat>, rest: seq<nat>, d: nat, freq: seq<nat>)
    requires multiset(roots) == multiset{d} + multiset(rest)
    ensures Sum(roots, FreqTerm(freq)) == At(freq, d) + Sum(rest, FreqTerm(freq))
    ensures multiset(Weights(roots, freq)) == multiset([At(freq, d)] + Weights(rest, freq))
  {
    hide Sum, Weights;
    SumPermutation(roots, [d] + rest, FreqTerm(freq));
    SumCons(d, rest, FreqTerm(freq));
    WeightsPermutation(roots, [d] + rest, freq);
    WeightsCons(d, rest, freq);
  }

  lemma JoinFront(a: nat, b: nat, ws: seq<nat>)
    requires a <= b && forall i :: 0 <= i < |ws| ==> b <= ws[i]
    ensures HuffmanCost(multiset([a] + ([b] + ws))) == a + b + HuffmanCost(multiset([a + b] + ws))
  {
    hide HuffmanCost;
    var rest := multiset(ws);
    assert multiset([a] + ([b] + ws)) == multiset{a} + (multiset{b} + rest);
    assert multiset([a + b] + ws) == multiset{a + b} + rest;
    forall y | y in rest ensures b <= y { var i := IndexIn(ws, y); }
    JoinOfLeast(a, b, rest);
  }

  lemma JoinOfLeast(a: nat, b: nat, rest: multiset<nat>)
    requires a <= b && forall y :: y in rest ==> b <= y
    ensures HuffmanCost(multiset{a} + (multiset{b} + rest)) == a + b + HuffmanCost(multiset{a + b} + rest)
  {
    hide HuffmanCost, Join;
    var ms := multiset{a} + (multiset{b} + rest);
    assert ms - multiset{a} == multiset{b} + rest;
    LeastOfSorted(a, b, rest);
    JoinOfSorted(a, b, rest);
    JoinLeast(ms, a, b);
  }

  lemma LeastOfSorted(a: nat, b: nat, rest: multiset<nat>)
    requires a <= b && forall y :: y in rest ==> b <= y
    ensures IsLeast(multiset{a} + (multiset{b} + rest), a) && IsLeast(multiset{b} + rest, b)
    ensures |multiset{a} + (multiset{b} + rest)| > 1
  {
  }

  lemma JoinOfSorted(a: nat, b: nat, rest: multiset<nat>)
    ensures Join(multiset{a} + (multiset{b} + rest), a, b) == multiset{a + b} + rest
  {
    var ms := multiset{a} + (multiset{b} + rest);
    assert ms - multiset{a} == multiset{b} + rest;
    assert (multiset{b} + rest) - multiset{b} == rest;
  }
}
