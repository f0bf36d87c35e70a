/** Huffman trees as values, and what their bit lengths add up to. */
module HuffmanTree {
  import opened Bits
  import opened Sums

  /** A tree over node numbers: symbols at the leaves, later numbers at the inner nodes. */
  datatype HTree = Leaf(id: nat) | Node(id: nat, left: HTree, right: HTree)

  function At(s: seq<nat>, x: nat): nat { if x < |s| then s[x] else 0 }

  function Min(a: nat, b: nat): nat { if a < b then a else b }

  function Ids(t: HTree): seq<nat> {
    match t
    case Leaf(n) => [n]
    case Node(n, l, r) => [n] + (Ids(l) + Ids(r))
  }

  function TreeSum(t: HTree, f: nat -> int): int {
    match t
    case Leaf(n) => f(n)
    case Node(n, l, r) => f(n) + TreeSum(l, f) + TreeSum(r, f)
  }

  lemma {:induction false} TreeSumIsSum(t: HTree, f: nat -> int)
    ensures TreeSum(t, f) == Sum(Ids(t), f)
  {
    match t
    case Leaf(n) => SumCons(n, [], f); assert [n] + [] == [n];
    case Node(n, l, r) =>
      TreeSumIsSum(l, f);
      TreeSumIsSum(r, f);
      SumCons(n, Ids(l) + Ids(r), f);
      SumConcat(Ids(l), Ids(r), f);
  }

  /** Leaves are symbols, inner nodes are not, and a father has a larger number than its sons. */
  ghost predicate Shaped(t: HTree, elems: nat) {
    match t
    case Leaf(n) => n < elems
    case Node(n, l, r) => n >= elems && l.id < n && r.id < n && Shaped(l, elems) && Shaped(r, elems)
  }

  /** `dad` records the father of every node below the root. */
  ghost predicate Dads(t: HTree, dad: seq<nat>) {
    t.Node? ==>
      At(dad, t.left.id) == t.id && At(dad, t.right.id) == t.id && Dads(t.left, dad) && Dads(t.right, dad)
  }

  /** The frequency of an inner node is the sum of its sons' frequencies. */
  ghost predicate Weighted(t: HTree, freq: seq<nat>) {
    t.Node? ==>
      && At(freq, t.id) == At(freq, t.left.id) + At(freq, t.right.id)
      && Weighted(t.left, freq) && Weighted(t.right, freq)
  }

  /** Sons are one bit longer than their father, but no longer than `max`. */
  ghost predicate Clamped(t: HTree, len: seq<nat>, max: nat) {
    t.Node? ==>
      && At(len, t.left.id) == At(len, t.right.id) == Min(At(len, t.id) + 1, max)
      && Clamped(t.left, len, max) && Clamped(t.right, len, max)
  }

  /** A symbol's share of the Kraft sum in units of 2^-max. */
  function KraftTerm(len: seq<nat>, elems: nat, max: nat): nat -> int {
    (x: nat) => if x < elems && At(len, x) <= max then Pow2(max - At(len, x)) else 0
  }

  /** Counts the symbols of length `b`. */
  function CountTerm(len: seq<nat>, elems: nat, b: nat): nat -> int {
    (x: nat) => if x < elems && At(len, x) == b then 1 else 0
  }

  /** Counts the nodes that would be longer than `max`. */
  function OverTerm(len: seq<nat>, dad: seq<nat>, root: nat, max: nat): nat -> int {
    (x: nat) => if x != root && At(len, At(dad, x)) + 1 > max then 1 else 0
  }

  /** A symbol's frequency times its bits: its code length and `extra` bits. */
  function CostTerm(freq: seq<nat>, len: seq<nat>, extra: seq<nat>, elems: nat): nat -> int {
    (x: nat) => if x < elems then At(freq, x) * (At(len, x) + At(extra, x)) else 0
  }

  /** A symbol's frequency times its code length. */
  function LenTerm(freq: seq<nat>, len: seq<nat>, elems: nat): nat -> int {
    (x: nat) => if x < elems then At(freq, x) * At(len, x) else 0
  }

  /** The frequency of an inner node. */
  function InnerTerm(freq: seq<nat>, elems: nat): nat -> int {
    (x: nat) => if x >= elems then At(freq, x) else 0
  }

  /** Clamping lengths to `max` raises the Kraft sum by half the number of overflowing nodes. */
  lemma {:induction false} KraftOfClamped(t: HTree, len: seq<nat>, dad: seq<nat>, elems: nat, root: nat, max: nat)
    requires Shaped(t, elems) && Dads(t, dad) && Clamped(t, len, max) && At(len, t.id) <= max && t.id <= root
    ensures 2 * TreeSum(t, KraftTerm(len, elems, max)) + OverTerm(len, dad, root, max)(t.id)
            == 2 * Pow2(max - At(len, t.id)) + TreeSum(t, OverTerm(len, dad, root, max))
  {
    match t
    case Leaf(_) =>
    case Node(n, l, r) =>
      KraftOfClamped(l, len, dad, elems, root, max);
      KraftOfClamped(r, len, dad, elems, root, max);
  }

  /** If nodes overflow, more than half as many leaves have the maximal length. */
  lemma {:induction false} LeavesAtMax(t: HTree, len: seq<nat>, dad: seq<nat>, elems: nat, root: nat, max: nat)
    requires Shaped(t, elems) && Dads(t, dad) && Clamped(t, len, max) && At(len, t.id) <= max && t.id <= root
    ensures var over := TreeSum(t, OverTerm(len, dad, root, max)) - OverTerm(len, dad, root, max)(t.id);
            && over >= 0 && TreeSum(t, CountTerm(len, elems, max)) >= 0
            && (over > 0 || At(len, t.id) == max ==> 2 * TreeSum(t, CountTerm(len, elems, max)) >= over + 2)
  {
    match t
    case Leaf(_) =>
    case Node(n, l, r) =>
      LeavesAtMax(l, len, dad, elems, root, max);
      LeavesAtMax(r, len, dad, elems, root, max);
  }

  function Max(a: nat, b: nat): nat { if a < b then b else a }

  /** The length of the longest code of a tree. */
  function Depth(t: HTree): nat {
    match t
    case Leaf(_) => 0
    case Node(_, l, r) => 1 + Max(Depth(l), Depth(r))
  }

  /** Nodes overflow exactly if the tree is too deep. */
  lemma {:induction false} OverIsDeep(t: HTree, len: seq<nat>, dad: seq<nat>, elems: nat, root: nat, max: nat)
    requires Shaped(t, elems) && Dads(t, dad) && Clamped(t, len, max) && At(len, t.id) <= max && t.id <= root
    ensures TreeSum(t, OverTerm(len, dad, root, max)) == OverTerm(len, dad, root, max)(t.id) <==>
            At(len, t.id) + Depth(t) <= max
  {
    match t
    case Leaf(_) =>
    case Node(n, l, r) =>
      LeavesAtMax(l, len, dad, elems, root, max);
      LeavesAtMax(r, len, dad, elems, root, max);
      OverIsDeep(l, len, dad, elems, root, max);
      OverIsDeep(r, len, dad, elems, root, max);
  }

  function Times(a: nat, b: nat): nat { a * b }

  lemma SplitWeight(a: nat, b: nat, l: nat)
    ensures Times(a, l + 1) + Times(b, l + 1) == (a + b) + Times(a + b, l)
  {}

  lemma LeafCost(freq: seq<nat>, len: seq<nat>, elems: nat, n: nat)
    ensures n < elems ==>
            LenTerm(freq, len, elems)(n) == Times(At(freq, n), At(len, n)) && InnerTerm(freq, elems)(n) == 0
    ensures n >= elems ==> LenTerm(freq, len, elems)(n) == 0 && InnerTerm(freq, elems)(n) == At(freq, n)
  {}

  /** Where nothing overflows below a node, nothing does below its sons, and they are one bit longer. */
  lemma SonsFit(t: HTree, len: seq<nat>, dad: seq<nat>, elems: nat, root: nat, max: nat)
    requires t.Node? && Shaped(t, elems) && Dads(t, dad) && Clamped(t, len, max) && At(len, t.id) <= max && t.id <= root
    requires TreeSum(t, OverTerm(len, dad, root, max)) <= OverTerm(len, dad, root, max)(t.id)
    ensures TreeSum(t.left, OverTerm(len, dad, root, max)) <= OverTerm(len, dad, root, max)(t.left.id)
    ensures TreeSum(t.right, OverTerm(len, dad, root, max)) <= OverTerm(len, dad, root, max)(t.right.id)
    ensures At(len, t.left.id) == At(len, t.id) + 1 == At(len, t.right.id) && At(len, t.id) + 1 <= max
  {
    LeavesAtMax(t.left, len, dad, elems, root, max);
    LeavesAtMax(t.right, len, dad, elems, root, max);
  }

  /** Without overflow, the leaves' total cost is the sum of the inner nodes' frequencies. */
  lemma {:induction false} CostOfTree(t: HTree, freq: seq<nat>, len: seq<nat>, dad: seq<nat>, elems: nat, root: nat,
                                      max: nat)
    requires Shaped(t, elems) && Dads(t, dad) && Clamped(t, len, max) && Weighted(t, freq)
    requires At(len, t.id) <= max && t.id <= root
    requires TreeSum(t, OverTerm(len, dad, root, max)) <= OverTerm(len, dad, root, max)(t.id)
    ensures TreeSum(t, LenTerm(freq, len, elems))
            == TreeSum(t, InnerTerm(freq, elems)) + Times(At(freq, t.id), At(len, t.id))
  {
    hide LenTerm, InnerTerm, Times, OverTerm;
    LeafCost(freq, len, elems, t.id);
    if t.Node? {
      SonsFit(t, len, dad, elems, root, max);
      CostOfTree(t.left, freq, len, dad, elems, root, max);
      CostOfTree(t.right, freq, len, dad, elems, root, max);
      SplitWeight(At(freq, t.left.id), At(freq, t.right.id), At(len, t.id));
    }
  }
}
