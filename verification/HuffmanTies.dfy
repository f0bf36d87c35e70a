/** Which nodes build_tree joins: the least by frequency and, among equals, the least by depth. */
module HuffmanTies {
  import opened Bits
  import opened HuffmanTree
  import opened HuffmanForest
  import opened HuffmanHeap

  /** The depth of a tree in one byte, as build_tree keeps it. */
  function DepthByte(t: HTree): byte {
    match t
    case Leaf(_) => 0
    case Node(_, l, r) => Deeper(DepthByte(l), DepthByte(r))
  }

  function Deeper(a: byte, b: byte): byte { ((if a > b then a else b) as int + 1) % 256 }

  /** For all trees that are not absurdly deep it is the depth. */
  lemma {:induction false} DepthByteIs(t: HTree)
    requires Depth(t) < 256
    ensures DepthByte(t) == Depth(t)
  {
    if t.Node? {
      DepthByteIs(t.left);
      DepthByteIs(t.right);
    }
  }

  /** Node `x` exists when `d` is the next inner node. */
  ghost predicate InUse(syms: seq<nat>, elems: nat, d: nat, x: nat) { x in syms || elems <= x < d }

  /** It has no father then. */
  ghost predicate Fatherless(tr: seq<HTree>, elems: nat, d: nat, x: nat)
    requires d <= |tr|
  {
    forall e :: elems <= e < d && tr[e].Node? ==> tr[e].left.id != x && tr[e].right.id != x
  }

  ghost predicate IsRoot(tr: seq<HTree>, syms: seq<nat>, elems: nat, d: nat, x: nat)
    requires d <= |tr|
  {
    InUse(syms, elems, d, x) && Fatherless(tr, elems, d, x)
  }

  /** Node `n` is to be taken no later than `m`: it is less frequent, or as frequent and no deeper. */
  ghost predicate NoLater(tr: seq<HTree>, freq: seq<nat>, n: nat, m: nat) {
    n < |tr| && m < |tr| &&
    (At(freq, n) < At(freq, m) || (At(freq, n) == At(freq, m) && DepthByte(tr[n]) <= DepthByte(tr[m])))
  }

  /** Inner node `d` joins the first two of the roots there are. */
  ghost predicate JoinsLeast(tr: seq<HTree>, freq: seq<nat>, syms: seq<nat>, elems: nat, d: nat)
    requires d < |tr|
  {
    tr[d].Node? &&
    var n, m := tr[d].left.id, tr[d].right.id;
    && n != m && IsRoot(tr, syms, elems, d, n) && IsRoot(tr, syms, elems, d, m) && NoLater(tr, freq, n, m)
    && forall x :: IsRoot(tr, syms, elems, d, x) && x != n && x != m ==> NoLater(tr, freq, m, x)
  }

  ghost predicate ByRule(tr: seq<HTree>, freq: seq<nat>, syms: seq<nat>, elems: nat) {
    forall d :: elems <= d < |tr| ==> JoinsLeast(tr, freq, syms, elems, d)
  }

  /** The tree is the last of those that the rule gives. */
  ghost predicate JoinedBy(tree: HTree, freq: seq<nat>, syms: seq<nat>, elems: nat) {
    exists tr :: tr != [] && Numbered(tr, elems) && |tr| + 1 == elems + |syms| && ByRule(tr, freq, syms, elems) &&
      tr[|tr| - 1] == tree
  }

  // ---- the state of the construction

  /** The roots in the heap are those of the trees, and their depths are known. */
  ghost predicate Ruled(roots: seq<nat>, tr: seq<HTree>, freq: seq<nat>, depth: seq<byte>, syms: seq<nat>, elems: nat) {
    && ByRule(tr, freq, syms, elems)
    && (forall x :: x in roots <==> IsRoot(tr, syms, elems, |tr|, x))
    && (forall x :: x in roots ==> x < |depth| && x < |tr| && depth[x] == DepthByte(tr[x]))
  }

  lemma RuledStart(roots: seq<nat>, tr: seq<HTree>, freq: seq<nat>, depth: seq<byte>, syms: seq<nat>, elems: nat)
    requires multiset(roots) == multiset(syms) && Symbols(syms, elems) && |tr| == elems && Numbered(tr, elems)
    requires forall x :: x in syms ==> x < |depth| && depth[x] == 0
    ensures Ruled(roots, tr, freq, depth, syms, elems)
  {
    forall x ensures x in roots <==> x in syms { assert x in multiset(roots) <==> x in multiset(syms); }
  }

  lemma KeyOrder(tr: seq<HTree>, freq: seq<nat>, depth: seq<byte>, n: nat, m: nat)
    requires |freq| <= |depth| && n < |freq| && m < |freq| && n < |tr| && m < |tr|
    requires depth[n] == DepthByte(tr[n]) && depth[m] == DepthByte(tr[m])
    requires Keys(freq, depth)[n] <= Keys(freq, depth)[m]
    ensures NoLater(tr, freq, n, m)
  {
    hide DepthByte;
  }

  /** What joining two roots leaves. */
  lemma RuledRoots(roots: seq<nat>, roots': seq<nat>, rest: seq<nat>, tr: seq<HTree>, syms: seq<nat>, elems: nat,
                   n: nat,
                   m: nat)
    requires elems <= |tr| && n < |tr| && m < |tr| && tr[n].id == n && tr[m].id == m
    requires forall x :: x in roots <==> IsRoot(tr, syms, elems, |tr|, x)
    requires forall x :: x in roots' <==> x == |tr| || x in rest
    requires forall x :: x in rest <==> x in roots && x != n && x != m
    requires (forall x :: x in syms ==> x < elems) && Numbered(tr, elems)
    ensures var tr' := tr + [Node(|tr|, tr[n], tr[m])]; forall x :: x in roots' <==> IsRoot(tr', syms, elems, |tr'|, x)
  {
    var d := |tr|;
    var tr' := tr + [Node(d, tr[n], tr[m])];
    forall x ensures x in roots' <==> IsRoot(tr', syms, elems, d + 1, x) {
      assert Fatherless(tr', elems, d + 1, x) <==> Fatherless(tr, elems, d, x) && x != n && x != m by {
        assert tr'[d].Node?;
        assert forall e :: elems <= e < d ==> tr'[e] == tr[e];
      }
      if x == d {
        forall e | elems <= e < d && tr[e].Node? ensures tr[e].left.id != x && tr[e].right.id != x {
          assert Joins(tr, e);
        }
      }
    }
  }

  /** What an earlier node joined does not depend on later ones. */
  lemma JoinsLeastKept(tr: seq<HTree>, freq: seq<nat>, syms: seq<nat>, elems: nat, d: nat, t: HTree, w: nat)
    requires elems <= d < |tr| < |freq| && JoinsLeast(tr, freq, syms, elems, d) && forall x :: x in syms ==> x < elems
    ensures JoinsLeast(tr + [t], freq[|tr| := w], syms, elems, d)
  {
    hide DepthByte;
    var tr', freq' := tr + [t], freq[|tr| := w];
    assert tr'[d] == tr[d];
    forall x ensures IsRoot(tr', syms, elems, d, x) <==> IsRoot(tr, syms, elems, d, x) {
      assert forall e :: elems <= e < d ==> tr'[e] == tr[e];
    }
    forall n, m | NoLater(tr, freq, n, m) ensures NoLater(tr', freq', n, m) {}
  }

  /** `n` and `m` have the least keys. */
  ghost predicate FirstKeys(freq: seq<nat>, depth: seq<byte>, n: nat, m: nat, rest: seq<nat>) {
    |freq| <= |depth| && n < |freq| && m < |freq| && Keys(freq, depth)[n] <= Keys(freq, depth)[m] &&
    forall x :: x in rest ==> x < |freq| && Keys(freq, depth)[m] <= Keys(freq, depth)[x]
  }

  /** The first two roots are joined. */
  lemma JoinsFirst(roots: seq<nat>, rest: seq<nat>, tr: seq<HTree>, freq: seq<nat>, depth: seq<byte>, syms: seq<nat>,
                   elems: nat, n: nat, m: nat, w: nat)
    requires Ruled(roots, tr, freq, depth, syms, elems) && elems <= |tr| < |freq| <= |depth| && Numbered(tr, elems)
    requires n in roots && m in roots && n != m && FirstKeys(freq, depth, n, m, rest)
    requires forall x :: x in rest <==> x in roots && x != n && x != m
    ensures JoinsLeast(tr + [Node(|tr|, tr[n], tr[m])], freq[|tr| := w], syms, elems, |tr|)
  {
    hide DepthByte, Keys, ByRule, NoLater;
    var d := |tr|;
    var tr', freq' := tr + [Node(d, tr[n], tr[m])], freq[d := w];
    assert tr'[d].left.id == n && tr'[d].right.id == m;
    forall x ensures IsRoot(tr', syms, elems, d, x) <==> x in roots {
      assert IsRoot(tr', syms, elems, d, x) <==> IsRoot(tr, syms, elems, d, x) by {
        assert forall e :: elems <= e < d ==> tr'[e] == tr[e];
      }
    }
    KeyOrder(tr, freq, depth, n, m);
    NoLaterKept(tr, freq, n, m, tr'[d], w);
    forall x | IsRoot(tr', syms, elems, d, x) && x != n && x != m ensures NoLater(tr', freq', m, x) {
      KeyOrder(tr, freq, depth, m, x);
      NoLaterKept(tr, freq, m, x, tr'[d], w);
    }
  }

  lemma NoLaterKept(tr: seq<HTree>, freq: seq<nat>, n: nat, m: nat, t: HTree, w: nat)
    requires NoLater(tr, freq, n, m) && |tr| < |freq|
    ensures NoLater(tr + [t], freq[|tr| := w], n, m)
  {
    hide DepthByte;
  }

  lemma RuledStep(roots: seq<nat>, roots': seq<nat>, rest: seq<nat>, tr: seq<HTree>, freq: seq<nat>, depth: seq<byte>,
                  depth': seq<byte>, syms: seq<nat>, elems: nat, n: nat, m: nat, w: nat)
    requires Ruled(roots, tr, freq, depth, syms, elems) && elems <= |tr| < |freq| <= |depth| && Numbered(tr, elems)
    requires n in roots && m in roots && n != m && FirstKeys(freq, depth, n, m, rest)
    requires forall x :: x in roots' <==> x == |tr| || x in rest
    requires forall x :: x in rest <==> x in roots && x != n && x != m
    requires (forall x :: x in syms ==> x < elems) && depth' == depth[|tr| := Deeper(depth[n], depth[m])]
    ensures Ruled(roots', tr + [Node(|tr|, tr[n], tr[m])], freq[|tr| := w], depth', syms, elems)
  {
    hide FirstKeys, JoinsLeast, IsRoot;
    var d := |tr|;
    var t := Node(d, tr[n], tr[m]);
    var tr', freq' := tr + [t], freq[d := w];
    RuledRoots(roots, roots', rest, tr, syms, elems, n, m);
    JoinsFirst(roots, rest, tr, freq, depth, syms, elems, n, m, w);
    forall e | elems <= e < |tr'| ensures JoinsLeast(tr', freq', syms, elems, e) {
      if e < d { JoinsLeastKept(tr, freq, syms, elems, e, t, w); }
    }
    assert DepthByte(t) == Deeper(DepthByte(tr[n]), DepthByte(tr[m]));
    hide DepthByte, Deeper;
  }
}
