/** What the three passes of gen_bitlen compute, on values. */
module HuffmanLengths {
  import opened Bits
  import opened Sums
  import opened HuffmanTree
  import opened HuffmanForest
  import opened HuffmanBuild
  import opened HuffmanOptimality

  /** Extra bits per symbol: none below `base`. */
  function FullExtra(extraBits: seq<nat>, base: nat): (e: seq<nat>)
    ensures |e| == base + |extraBits|
    ensures forall n :: 0 <= n < |e| ==> e[n] == if n < base then 0 else extraBits[n - base]
  {
    seq(base, n => 0) + extraBits
  }

  ghost predicate Distinct(p: seq<nat>) { forall i, j :: 0 <= i < j < |p| ==> p[i] != p[j] }

  /** The lengths of the first `i` nodes of `p` follow from their fathers' lengths. */
  ghost predicate LengthsFrom(p: seq<nat>, i: nat, len: seq<nat>, dad: seq<nat>, max: nat)
    requires 1 <= i <= |p|
  {
    At(len, p[0]) == 0 && forall k :: 1 <= k < i ==> At(len, p[k]) == Min(At(len, At(dad, p[k])) + 1, max)
  }

  /** The counters after the first `i` nodes. */
  ghost predicate CountsTo(p: seq<nat>, i: nat, len: seq<nat>, dad: seq<nat>, max: nat, elems: nat, bl: seq<nat>,
                           over: int)
    requires 1 <= i <= |p|
  {
    && (forall b :: 0 <= b < |bl| ==> bl[b] == Sum(p[..i], CountTerm(len, elems, b)))
    && over == Sum(p[..i], OverTerm(len, dad, p[0], max))
  }

  /** Node `p[i]` is neither one of the nodes before it nor their father. */
  lemma EarlierNodes(p: seq<nat>, i: nat, dad: seq<nat>)
    requires 1 <= i < |p| && Distinct(p) && FathersFirst(p, dad)
    ensures forall x :: x in p[..i] ==> x != p[i] && (x != p[0] ==> At(dad, x) != p[i])
    ensures At(dad, p[i]) in p[..i] && At(dad, p[i]) != p[i]
  {
    forall k | 0 <= k <= i ensures k > 0 ==> exists l :: 0 <= l < k && p[l] == At(dad, p[k]) {
      if k > 0 {
        assert At(dad, p[k]) in p[..k];
        var l :| 0 <= l < k && p[..k][l] == At(dad, p[k]);
        assert p[l] == At(dad, p[k]);
      }
    }
  }

  /** Node `p[i]` gets length `bits`: the counters of length `b`. */
  lemma CountStep(p: seq<nat>, i: nat, len: seq<nat>, dad: seq<nat>, elems: nat, bits: nat, b: nat)
    requires 1 <= i < |p| && Distinct(p) && FathersFirst(p, dad) && p[i] < |len|
    ensures Sum(p[..i + 1], CountTerm(len[p[i] := bits], elems, b))
            == Sum(p[..i], CountTerm(len, elems, b)) + if p[i] < elems && b == bits then 1 else 0
  {
    hide Sum, FathersFirst;
    EarlierNodes(p, i, dad);
    var f, g := CountTerm(len, elems, b), CountTerm(len[p[i] := bits], elems, b);
    SumCongruent(p[..i], f, g);
    assert p[..i + 1] == p[..i] + [p[i]];
    SumSnoc(p[..i], p[i], g);
  }

  lemma OverStep(p: seq<nat>, i: nat, len: seq<nat>, dad: seq<nat>, max: nat, bits: nat)
    requires 1 <= i < |p| && Distinct(p) && FathersFirst(p, dad) && p[i] < |len|
    ensures Sum(p[..i + 1], OverTerm(len[p[i] := bits], dad, p[0], max))
            == Sum(p[..i], OverTerm(len, dad, p[0], max)) + if At(len, At(dad, p[i])) + 1 > max then 1 else 0
  {
    hide Sum, FathersFirst;
    EarlierNodes(p, i, dad);
    var f, g := OverTerm(len, dad, p[0], max), OverTerm(len[p[i] := bits], dad, p[0], max);
    SumCongruent(p[..i], f, g);
    assert p[..i + 1] == p[..i] + [p[i]];
    SumSnoc(p[..i], p[i], g);
  }

  /** A symbol's cost depends on its own length only. */
  lemma CostOfOther(freq: seq<nat>, len: seq<nat>, extra: seq<nat>, elems: nat, n: nat, bits: nat, x: nat)
    requires n < |len| && x != n
    ensures CostTerm(freq, len[n := bits], extra, elems)(x) == CostTerm(freq, len, extra, elems)(x)
  {
    assert At(len[n := bits], x) == At(len, x);
  }

  lemma CostStep(p: seq<nat>, i: nat, len: seq<nat>, dad: seq<nat>, freq: seq<nat>, extra: seq<nat>, elems: nat,
                 bits: nat)
    requires 1 <= i < |p| && Distinct(p) && FathersFirst(p, dad) && p[i] < |len|
    ensures Sum(p[..i + 1], CostTerm(freq, len[p[i] := bits], extra, elems))
            == Sum(p[..i], CostTerm(freq, len, extra, elems)) + CostTerm(freq, len[p[i] := bits], extra, elems)(p[i])
  {
    hide Sum, FathersFirst, CostTerm;
    EarlierNodes(p, i, dad);
    var f, g := CostTerm(freq, len, extra, elems), CostTerm(freq, len[p[i] := bits], extra, elems);
    forall x | x in p[..i] ensures f(x) == g(x) { CostOfOther(freq, len, extra, elems, p[i], bits, x); }
    SumCongruent(p[..i], f, g);
    assert p[..i + 1] == p[..i] + [p[i]];
    SumSnoc(p[..i], p[i], g);
  }

  /** Node `p[i]` gets its length: one more than its father's, at most `max`. */
  lemma PassStep(p: seq<nat>, i: nat, len: seq<nat>, dad: seq<nat>, max: nat, elems: nat, bl: seq<nat>, over: int)
    requires 1 <= i < |p| && Distinct(p) && FathersFirst(p, dad) && p[i] < |len| && max < |bl|
    requires LengthsFrom(p, i, len, dad, max) && CountsTo(p, i, len, dad, max, elems, bl, over)
    ensures var bits := Min(At(len, At(dad, p[i])) + 1, max);
            var len' := len[p[i] := bits];
            && LengthsFrom(p, i + 1, len', dad, max)
            && CountsTo(p, i + 1, len', dad, max, elems, if p[i] < elems then bl[bits := bl[bits] + 1] else bl,
                        over + if At(len, At(dad, p[i])) + 1 > max then 1 else 0)
  {
    hide Sum, FathersFirst, CountTerm, OverTerm;
    var bits := Min(At(len, At(dad, p[i])) + 1, max);
    LengthStep(p, i, len, dad, max);
    OverStep(p, i, len, dad, max, bits);
    forall b: nat
      ensures Sum(p[..i + 1], CountTerm(len[p[i] := bits], elems, b))
              == Sum(p[..i], CountTerm(len, elems, b)) + if p[i] < elems && b == bits then 1 else 0
    {
      CountStep(p, i, len, dad, elems, bits, b);
    }
  }

  lemma LengthStep(p: seq<nat>, i: nat, len: seq<nat>, dad: seq<nat>, max: nat)
    requires 1 <= i < |p| && Distinct(p) && FathersFirst(p, dad) && p[i] < |len| && LengthsFrom(p, i, len, dad, max)
    ensures LengthsFrom(p, i + 1, len[p[i] := Min(At(len, At(dad, p[i])) + 1, max)], dad, max)
  {
    hide FathersFirst, Distinct;
    EarlierNodes(p, i, dad);
    var len' := len[p[i] := Min(At(len, At(dad, p[i])) + 1, max)];
    assert forall k :: 0 <= k < i ==> p[k] in p[..i];
    DadOfFirst(p, i, dad);
    forall k | 1 <= k < i + 1 ensures At(len', p[k]) == Min(At(len', At(dad, p[k])) + 1, max) {
      if k < i { assert p[k] != p[i] && At(dad, p[k]) != p[i]; }
    }
  }

  lemma DadOfFirst(p: seq<nat>, i: nat, dad: seq<nat>)
    requires i < |p| && Distinct(p) && FathersFirst(p, dad)
    ensures forall k :: 1 <= k < |p| ==> p[k] != p[0]
  {}

  /** All sons in a tree listed by `p` follow the length rule. */
  lemma {:induction false} ClampedFromPass(t: HTree, p: seq<nat>, len: seq<nat>, dad: seq<nat>, elems: nat, max: nat)
    requires p != [] && LengthsFrom(p, |p|, len, dad, max) && Shaped(t, elems) && Dads(t, dad) && t.id <= p[0]
    requires forall x :: x in Ids(t) ==> x in p
    ensures Clamped(t, len, max)
  {
    if t.Node? {
      var l, r := t.left, t.right;
      assert l.id in Ids(l) && r.id in Ids(r) by { IdFirst(l); IdFirst(r); }
      assert forall x :: x in Ids(l) || x in Ids(r) ==> x in Ids(t);
      var i :| 0 <= i < |p| && p[i] == l.id;
      var j :| 0 <= j < |p| && p[j] == r.id;
      ClampedFromPass(l, p, len, dad, elems, max);
      ClampedFromPass(r, p, len, dad, elems, max);
    }
  }

  lemma IdFirst(t: HTree)
    ensures t.id in Ids(t)
  {
    match t
    case Leaf(n) =>
    case Node(n, l, r) => assert Ids(t)[0] == n;
  }

  /** The number of `b`-bit strings used by codes with these length counts. */
  function UsedBy(bl: seq<nat>, b: nat): nat
    requires b < |bl|
  {
    if b == 0 then 0 else 2 * UsedBy(bl, b - 1) + bl[b]
  }

  /** The number of codes of length 1 to `b`. */
  function Leaves(bl: seq<nat>, b: nat): nat
    requires b < |bl|
  {
    if b == 0 then 0 else Leaves(bl, b - 1) + bl[b]
  }

  lemma {:induction false} CountUpdate(bl: seq<nat>, b: nat, v: nat, m: nat)
    requires 1 <= b < |bl| && m < |bl|
    ensures m < b ==> UsedBy(bl[b := v], m) == UsedBy(bl, m) && Leaves(bl[b := v], m) == Leaves(bl, m)
    ensures b <= m ==> UsedBy(bl[b := v], m) + Shl(bl[b], m - b) == UsedBy(bl, m) + Shl(v, m - b)
    ensures b <= m ==> Leaves(bl[b := v], m) + bl[b] == Leaves(bl, m) + v
  {
    if m > 0 { CountUpdate(bl, b, v, m - 1); }
  }

  /** One repair step: a leaf moves down from `bits`, an overflowing leaf becomes its brother. */
  function MoveLeaf(bl: seq<nat>, bits: nat, max: nat): (r: seq<nat>)
    requires 1 <= bits < max < |bl| && bl[bits] > 0 && bl[max] > 0
    ensures |r| == |bl| && r[0] == bl[0] && r[max] >= bl[max] - 1
    ensures forall b :: max < b < |bl| ==> r[b] == bl[b]
  {
    var b1 := bl[bits := bl[bits] - 1];
    var b2 := b1[bits + 1 := b1[bits + 1] + 2];
    b2[max := b2[max] - 1]
  }

  lemma {:induction false} ShlPlus(a: nat, b: nat, k: nat)
    ensures Shl(a + b, k) == Shl(a, k) + Shl(b, k)
  {
    if k > 0 { ShlPlus(a, b, k - 1); }
  }

  lemma MoreCodes(bl: seq<nat>, b: nat, d: nat, m: nat)
    requires 1 <= b <= m < |bl|
    ensures UsedBy(bl[b := bl[b] + d], m) == UsedBy(bl, m) + Shl(d, m - b)
    ensures Leaves(bl[b := bl[b] + d], m) == Leaves(bl, m) + d
  {
    hide UsedBy, Leaves, Shl;
    CountUpdate(bl, b, bl[b] + d, m);
    ShlPlus(bl[b], d, m - b);
  }

  lemma OneCodeLess(bl: seq<nat>, b: nat, m: nat)
    requires 1 <= b <= m < |bl| && bl[b] > 0
    ensures UsedBy(bl[b := bl[b] - 1], m) + Shl(1, m - b) == UsedBy(bl, m)
    ensures Leaves(bl[b := bl[b] - 1], m) + 1 == Leaves(bl, m)
  {
    hide UsedBy, Leaves, Shl;
    var c := bl[b := bl[b] - 1];
    MoreCodes(c, b, 1, m);
    assert c[b := c[b] + 1] == bl;
  }

  /** The step keeps the number of leaves and lowers the Kraft sum by one unit. */
  lemma MoveLeafEffect(bl: seq<nat>, bits: nat, max: nat)
    requires 1 <= bits < max < |bl| && bl[bits] > 0 && bl[max] > 0
    ensures UsedBy(MoveLeaf(bl, bits, max), max) + 1 == UsedBy(bl, max)
    ensures Leaves(MoveLeaf(bl, bits, max), max) == Leaves(bl, max)
  {
    hide UsedBy, Leaves, Shl;
    var b1 := bl[bits := bl[bits] - 1];
    var b2 := b1[bits + 1 := b1[bits + 1] + 2];
    OneCodeLess(bl, bits, max);
    MoreCodes(b1, bits + 1, 2, max);
    OneCodeLess(b2, max, max);
    ShlTwo(max - bits - 1);
    ShlNone(1);
  }

  lemma ShlNone(v: nat)
    ensures Shl(v, 0) == v
  {}

  lemma {:induction false} ShlTwo(k: nat)
    ensures Shl(2, k) == Shl(1, k + 1)
  {
    if k > 0 { ShlTwo(k - 1); }
  }

  /** With too large a Kraft sum and few enough leaves, some leaf is shorter than `max`. */
  lemma {:induction false} SomeShorterLeaf(bl: seq<nat>, max: nat)
    requires 1 <= max < |bl| && UsedBy(bl, max) > Leaves(bl, max)
    ensures exists b :: 1 <= b < max && bl[b] > 0
  {
    if forall b :: 1 <= b < max ==> bl[b] == 0 { NoShorterLeaf(bl, max - 1); }
  }

  lemma {:induction false} NoShorterLeaf(bl: seq<nat>, m: nat)
    requires m < |bl| && forall b :: 1 <= b <= m ==> bl[b] == 0
    ensures UsedBy(bl, m) == 0 == Leaves(bl, m)
  {
    if m > 0 { NoShorterLeaf(bl, m - 1); }
  }

  function LeafTerm(elems: nat): nat -> int { (x: nat) => if x < elems then 1 else 0 }

  /** New lengths have been given to the symbols among `p[i..]`: as many of each length as `bl` says, from `max`
      down; of length `bits` there are `n` still to give. */
  ghost predicate Reassigned(p: seq<nat>, i: nat, len: seq<nat>, elems: nat, max: nat, bl: seq<nat>, bits: nat, n: nat)
    requires i <= |p| && bits <= max < |bl|
  {
    && (forall b :: 1 <= b <= max ==>
       Sum(p[i..], CountTerm(len, elems, b)) == if b > bits then bl[b] else if b == bits then bl[b] - n else 0)
    && Sum(p[..i], LeafTerm(elems)) == (if bits == 0 then 0 else Leaves(bl, bits - 1) + n)
    && (forall k :: i <= k < |p| && p[k] < elems ==> 1 <= At(len, p[k]) <= max)
  }

  lemma ReassignStart(p: seq<nat>, len: seq<nat>, elems: nat, max: nat, bl: seq<nat>)
    requires 1 <= max < |bl| && Sum(p, LeafTerm(elems)) == Leaves(bl, max)
    ensures Reassigned(p, |p|, len, elems, max, bl, max, bl[max])
  {
    assert p[..|p|] == p && p[|p|..] == [];
  }

  /** All codes of length `bits` are given: go on with the next shorter length. */
  lemma ReassignShorter(p: seq<nat>, i: nat, len: seq<nat>, elems: nat, max: nat, bl: seq<nat>, bits: nat)
    requires i <= |p| && 1 <= bits <= max < |bl| && Reassigned(p, i, len, elems, max, bl, bits, 0)
    ensures Reassigned(p, i, len, elems, max, bl, bits - 1, bl[bits - 1])
  {}

  lemma ReassignNotDone(p: seq<nat>, i: nat, len: seq<nat>, elems: nat, max: nat, bl: seq<nat>, bits: nat, n: nat)
    requires i <= |p| && 1 <= bits <= max < |bl| && Reassigned(p, i, len, elems, max, bl, bits, n) && n > 0
    ensures i > 0
  {
    assert p[..0] == [];
  }

  /** Node `p[i - 1]` is the next one: a symbol gets length `bits`, an inner node is skipped. */
  lemma ReassignStep(p: seq<nat>, i: nat, len: seq<nat>, elems: nat, max: nat, bl: seq<nat>, bits: nat, n: nat)
    requires 1 <= i <= |p| && 1 <= bits <= max < |bl| && Distinct(p) && p[i - 1] < |len|
    requires Reassigned(p, i, len, elems, max, bl, bits, n) && n > 0
    ensures p[i - 1] < elems ==> Reassigned(p, i - 1, len[p[i - 1] := bits], elems, max, bl, bits, n - 1)
    ensures p[i - 1] >= elems ==> Reassigned(p, i - 1, len, elems, max, bl, bits, n)
  {
    hide Sum;
    var x := p[i - 1];
    var len' := if x < elems then len[x := bits] else len;
    assert p[i - 1..] == [x] + p[i..];
    assert p[..i] == p[..i - 1] + [x];
    SumSnoc(p[..i - 1], x, LeafTerm(elems));
    forall b | 1 <= b <= max
      ensures Sum(p[i - 1..], CountTerm(len', elems, b)) == Sum(p[i..], CountTerm(len, elems, b)) + if x < elems &&
              b == bits then 1 else 0
    {
      SumCons(x, p[i..], CountTerm(len', elems, b));
      LaterCounts(p, i, len, elems, bits, b);
    }
  }

  lemma LaterCounts(p: seq<nat>, i: nat, len: seq<nat>, elems: nat, bits: nat, b: nat)
    requires 1 <= i <= |p| && Distinct(p) && p[i - 1] < |len|
    ensures Sum(p[i..], CountTerm(len[p[i - 1] := bits], elems, b)) == Sum(p[i..], CountTerm(len, elems, b))
  {
    SumCongruent(p[i..], CountTerm(len[p[i - 1] := bits], elems, b), CountTerm(len, elems, b));
  }

  /** The symbols among `p[i..]` have lengths from `bits` on that do not fall along the list. */
  ghost predicate LongerLater(p: seq<nat>, i: nat, len: seq<nat>, elems: nat, bits: nat) {
    && (forall k :: i <= k < |p| && p[k] < elems ==> bits <= At(len, p[k]))
    && (forall j, k :: i <= j < k < |p| && p[j] < elems && p[k] < elems ==> At(len, p[j]) <= At(len, p[k]))
  }

  lemma LongerLaterStep(p: seq<nat>, i: nat, len: seq<nat>, elems: nat, bits: nat)
    requires 1 <= i <= |p| && Distinct(p) && p[i - 1] < |len| && LongerLater(p, i, len, elems, bits)
    ensures p[i - 1] < elems ==> LongerLater(p, i - 1, len[p[i - 1] := bits], elems, bits)
    ensures p[i - 1] >= elems ==> LongerLater(p, i - 1, len, elems, bits)
  {
    var len' := len[p[i - 1] := bits];
    forall k | i <= k < |p| ensures At(len', p[k]) == At(len, p[k]) { assert p[i - 1] != p[k]; }
  }

  lemma LongerLaterDone(p: seq<nat>, i: nat, len: seq<nat>, elems: nat, max: nat, bl: seq<nat>)
    requires i <= |p| && max < |bl| && Reassigned(p, i, len, elems, max, bl, 0, bl[0])
    requires LongerLater(p, i, len, elems, 0)
    ensures LongerLater(p, 0, len, elems, 0)
  {
    hide Sum;
    NoLeaves(p[..i], elems);
    forall k | 0 <= k < i ensures p[k] >= elems { assert p[k] in p[..i]; }
  }

  /** What the new lengths of `p[i..]` cost more than the old ones. */
  ghost function Surcharge(p: seq<nat>, i: nat, freq: seq<nat>, len0: seq<nat>, len: seq<nat>, extra: seq<nat>,
                           elems: nat): int
    requires i <= |p|
  {
    Sum(p[i..], CostTerm(freq, len, extra, elems)) - Sum(p[i..], CostTerm(freq, len0, extra, elems))
  }

  lemma SurchargeStep(p: seq<nat>, i: nat, freq: seq<nat>, len0: seq<nat>, len: seq<nat>, extra: seq<nat>, elems: nat,
                      bits: nat)
    requires 1 <= i <= |p| && Distinct(p) && p[i - 1] < |len|
    ensures var x := p[i - 1];
            && (x < elems ==> Surcharge(p, i - 1, freq, len0, len[x := bits], extra, elems)
                              == Surcharge(p, i, freq, len0, len, extra, elems) + (bits - At(len0, x)) * At(freq, x))
            && (x >= elems ==>
               Surcharge(p, i - 1, freq, len0, len, extra, elems) == Surcharge(p, i, freq, len0, len, extra, elems))
  {
    hide Sum, CostTerm;
    var x := p[i - 1];
    var f0, f, g := CostTerm(freq, len0, extra, elems), CostTerm(freq, len, extra, elems),
        CostTerm(freq, len[x := bits], extra, elems);
    assert p[i - 1..] == [x] + p[i..];
    SumCons(x, p[i..], f0);
    SumCons(x, p[i..], f);
    SumCons(x, p[i..], g);
    forall y | y in p[i..] ensures f(y) == g(y) { CostOfOther(freq, len, extra, elems, x, bits, y); }
    SumCongruent(p[i..], f, g);
    CostDifference(freq, len0, len, extra, elems, x, bits);
  }

  lemma CostDifference(freq: seq<nat>, len0: seq<nat>, len: seq<nat>, extra: seq<nat>, elems: nat, x: nat, bits: nat)
    requires x < |len|
    ensures x < elems ==>
            CostTerm(freq, len[x := bits], extra, elems)(x) - CostTerm(freq, len0, extra, elems)(x)
              == (bits - At(len0, x)) * At(freq, x)
    ensures x >= elems ==> CostTerm(freq, len, extra, elems)(x) == 0 == CostTerm(freq, len0, extra, elems)(x)
  {
    var f, e, l := At(freq, x), At(extra, x), At(len0, x);
    assert f * (bits + e) - f * (l + e) == (bits - l) * f;
  }

  lemma {:induction false} NoLeaves(s: seq<nat>, elems: nat)
    ensures Sum(s, LeafTerm(elems)) >= 0
    ensures Sum(s, LeafTerm(elems)) == 0 ==> forall x :: x in s ==> x >= elems
  {
    if s != [] {
      NoLeaves(s[..|s| - 1], elems);
      assert forall x :: x in s ==> x in s[..|s| - 1] || x == s[|s| - 1];
    }
  }

  lemma {:induction false} SumOfZeros(s: seq<nat>, f: nat -> int)
    requires forall x :: x in s ==> f(x) == 0
    ensures Sum(s, f) == 0
  {
    if s != [] { SumOfZeros(s[..|s| - 1], f); }
  }

  /** At the end every symbol has its new length. */
  lemma ReassignDone(p: seq<nat>, i: nat, freq: seq<nat>, len0: seq<nat>, len: seq<nat>, extra: seq<nat>, elems: nat,
                     max: nat, bl: seq<nat>)
    requires i <= |p| && max < |bl| && Reassigned(p, i, len, elems, max, bl, 0, bl[0])
    ensures forall b :: 1 <= b <= max ==> Sum(p, CountTerm(len, elems, b)) == bl[b]
    ensures forall k :: 0 <= k < |p| && p[k] < elems ==> 1 <= At(len, p[k]) <= max
    ensures Sum(p, CostTerm(freq, len, extra, elems))
            == Sum(p, CostTerm(freq, len0, extra, elems)) + Surcharge(p, i, freq, len0, len, extra, elems)
  {
    hide Sum;
    assert p == p[..i] + p[i..];
    NoLeaves(p[..i], elems);
    assert forall k :: 0 <= k < i ==> p[k] in p[..i];
    forall b | 1 <= b <= max ensures Sum(p, CountTerm(len, elems, b)) == bl[b] {
      SumConcat(p[..i], p[i..], CountTerm(len, elems, b));
      SumOfZeros(p[..i], CountTerm(len, elems, b));
    }
    SumConcat(p[..i], p[i..], CostTerm(freq, len, extra, elems));
    SumConcat(p[..i], p[i..], CostTerm(freq, len0, extra, elems));
    SumOfZeros(p[..i], CostTerm(freq, len, extra, elems));
    SumOfZeros(p[..i], CostTerm(freq, len0, extra, elems));
  }

  /** The length of every symbol in `s` is between 1 and `max`. */
  ghost predicate LengthsWithin(s: seq<nat>, len: seq<nat>, elems: nat, max: nat) {
    forall x :: x in s && x < elems ==> 1 <= At(len, x) <= max
  }

  /** Counting lengths loses nothing: the counts give the Kraft sum and the number of symbols. */
  lemma {:induction false} CountsKraft(s: seq<nat>, len: seq<nat>, elems: nat, max: nat, bl: seq<nat>)
    requires max < |bl| && LengthsWithin(s, len, elems, max)
    requires forall b :: 1 <= b <= max ==> bl[b] == Sum(s, CountTerm(len, elems, b))
    ensures UsedBy(bl, max) == Sum(s, KraftTerm(len, elems, max)) && Leaves(bl, max) == Sum(s, LeafTerm(elems))
  {
    if s == [] {
      NoShorterLeaf(bl, max);
    } else {
      var u, x := s[..|s| - 1], s[|s| - 1];
      var l := At(len, x);
      assert x in s && forall y :: y in u ==> y in s;
      if x < elems {
        CountPositive(u, len, elems, l);
        var bl' := bl[l := bl[l] - 1];
        CountsKraft(u, len, elems, max, bl');
        CountUpdate(bl, l, bl[l] - 1, max);
        ShlPlus(bl[l] - 1, 1, max - l);
        Pow2IsShl(max - l);
      } else {
        CountsKraft(u, len, elems, max, bl);
      }
    }
  }

  lemma {:induction false} CountPositive(s: seq<nat>, len: seq<nat>, elems: nat, b: nat)
    ensures Sum(s, CountTerm(len, elems, b)) >= 0
  {
    if s != [] { CountPositive(s[..|s| - 1], len, elems, b); }
  }

  lemma {:induction false} Pow2IsShl(k: nat)
    ensures Pow2(k) == Shl(1, k)
  {
    if k > 0 { Pow2IsShl(k - 1); }
  }

  /** A sum that only concerns symbols is the same over the node list and over the symbols. */
  lemma SumOverNodes(p: seq<nat>, syms: seq<nat>, elems: nat, node: nat, f: nat -> int)
    requires elems <= node && multiset(p) == multiset(syms + Range(elems, node))
    requires forall x :: x >= elems ==> f(x) == 0
    ensures Sum(p, f) == Sum(syms, f)
  {
    hide Sum;
    SumPermutation(p, syms + Range(elems, node), f);
    SumConcat(syms, Range(elems, node), f);
    SumOfZeros(Range(elems, node), f);
  }

  lemma {:induction false} SumOfOnes(s: seq<nat>, elems: nat)
    requires forall x :: x in s ==> x < elems
    ensures Sum(s, LeafTerm(elems)) == |s|
  {
    if s != [] {
      var u := s[..|s| - 1];
      assert s[|s| - 1] in s && forall y :: y in u ==> y in s;
      SumOfOnes(u, elems);
    }
  }

  lemma ListedNodes(p: seq<nat>, t: HTree, dad: seq<nat>, freq: seq<nat>, syms: seq<nat>, elems: nat)
    requires Built(p, t, dad, freq, syms, elems)
    ensures Distinct(p) && forall x :: x in Ids(t) <==> x in p
    ensures forall x: nat :: x in p <==> x in syms || elems <= x < elems + |syms| - 1
  {
    hide Shaped, Dads, Weighted, HuffmanCost, TreeSum, Sum, FathersFirst, MostFrequentFirst, Ids;
    var node := elems + |syms| - 1;
    forall x: nat ensures multiset(p)[x] <= 1 && (x in p <==> x in syms || elems <= x < node) {
      RangeMembers(elems, node, x);
      DistinctMultiset(syms, x);
      assert multiset(p)[x] == multiset(syms)[x] + multiset(Range(elems, node))[x];
      assert x in p <==> x in multiset(p);
      assert x in syms <==> x in multiset(syms);
    }
    forall i, j | 0 <= i < j < |p| ensures p[i] != p[j] {
      if p[i] == p[j] { TwiceInMultiset(p, i, j); }
    }
    forall x ensures x in Ids(t) <==> x in p {
      assert x in Ids(t) <==> x in multiset(Ids(t));
      assert x in p <==> x in multiset(p);
    }
  }

  lemma TwiceInMultiset(p: seq<nat>, i: nat, j: nat)
    requires i < j < |p| && p[i] == p[j]
    ensures multiset(p)[p[i]] >= 2
  {
    assert p == p[..i] + [p[i]] + p[i + 1..j] + [p[j]] + p[j + 1..];
  }
}
