/** Why repeatedly joining the two least frequent nodes gives the cheapest prefix code. */
module HuffmanOptimality {
  import opened Bits
  import opened Sums

  ghost predicate IsLeast(ms: multiset<nat>, a: nat) { a in ms && forall x :: x in ms ==> a <= x }

  lemma {:induction false} LeastExists(ms: multiset<nat>)
    requires |ms| > 0
    ensures exists a :: IsLeast(ms, a)
    decreases |ms|
  {
    var x: nat :| x in ms;
    var rest := ms[x := 0];
    if |rest| == 0 {
      assert forall y :: y in ms ==> y == x || y in rest;
      assert IsLeast(ms, x);
    } else {
      assert |rest| < |ms|;
      LeastExists(rest);
      var a: nat :| IsLeast(rest, a);
      assert forall y :: y in ms ==> y == x || y in rest;
      assert IsLeast(ms, if a < x then a else x);
    }
  }

  ghost function Least(ms: multiset<nat>): (a: nat)
    requires |ms| > 0
    ensures IsLeast(ms, a)
  {
    LeastExists(ms);
    var a :| IsLeast(ms, a);
    a
  }

  /** The weights after `a` and `b` are joined. */
  ghost function Join(ms: multiset<nat>, a: nat, b: nat): multiset<nat> {
    ms - multiset{a} - multiset{b} + multiset{a + b}
  }

  /** The cost of joining the two least weights until one is left: the sum of all joined weights. */
  ghost function HuffmanCost(ms: multiset<nat>): nat
    decreases |ms|
  {
    if |ms| <= 1 then 0
    else
      var a := Least(ms);
      var b := Least(ms - multiset{a});
      a + b + HuffmanCost(Join(ms, a, b))
  }

  lemma NothingToJoin(ms: multiset<nat>)
    requires |ms| <= 1
    ensures HuffmanCost(ms) == 0
  {}

  lemma JoinLeast(ms: multiset<nat>, a: nat, b: nat)
    requires |ms| > 1 && IsLeast(ms, a) && IsLeast(ms - multiset{a}, b)
    ensures HuffmanCost(ms) == a + b + HuffmanCost(Join(ms, a, b))
  {
    assert Least(ms) == a;
    assert Least(ms - multiset{a}) == b;
    hide Join, IsLeast;
  }

  /** The cost of giving item `i` the length `ls[i]`. */
  function Dot(ws: seq<nat>, ls: seq<nat>): nat
    requires |ws| == |ls|
  {
    if ws == [] then 0 else Dot(ws[..|ws| - 1], ls[..|ls| - 1]) + ws[|ws| - 1] * ls[|ls| - 1]
  }

  ghost predicate UpTo(ls: seq<nat>, m: nat) { forall i :: 0 <= i < |ls| ==> ls[i] <= m }

  /** The Kraft sum of the lengths in units of 2^-u. */
  function KraftSum(ls: seq<nat>, u: nat): nat
    requires UpTo(ls, u)
  {
    if ls == [] then 0 else KraftSum(ls[..|ls| - 1], u) + Pow2(u - ls[|ls| - 1])
  }

  function Without(s: seq<nat>, i: nat): seq<nat>
    requires i < |s|
  {
    s[..i] + s[i + 1..]
  }

  lemma {:induction false} DotWithout(ws: seq<nat>, ls: seq<nat>, i: nat)
    requires |ws| == |ls| && i < |ws|
    ensures Dot(ws, ls) == Dot(Without(ws, i), Without(ls, i)) + ws[i] * ls[i]
  {
    var n := |ws| - 1;
    if i == n {
      assert Without(ws, i) == ws[..n] && Without(ls, i) == ls[..n];
    } else {
      DotWithout(ws[..n], ls[..n], i);
      assert Without(ws, i)[..n - 1] == Without(ws[..n], i) && Without(ls, i)[..n - 1] == Without(ls[..n], i);
    }
  }

  lemma {:induction false} KraftWithout(ls: seq<nat>, i: nat, u: nat)
    requires UpTo(ls, u) && i < |ls|
    ensures UpTo(Without(ls, i), u) && KraftSum(ls, u) == KraftSum(Without(ls, i), u) + Pow2(u - ls[i])
  {
    hide Pow2;
    var n := |ls| - 1;
    if i == n {
      assert Without(ls, i) == ls[..n];
    } else {
      KraftWithout(ls[..n], i, u);
      assert Without(ls, i)[..n - 1] == Without(ls[..n], i);
    }
  }

  /** The Kraft sum in finer units. */
  lemma {:induction false} KraftScaled(ls: seq<nat>, m: nat, u: nat)
    requires m <= u && UpTo(ls, m)
    ensures KraftSum(ls, u) == Shl(KraftSum(ls, m), u - m)
  {
    if ls == [] {
      ShlAdd(0, 0, u - m);
    } else {
      KraftScaled(ls[..|ls| - 1], m, u);
      Pow2Shl(m - ls[|ls| - 1], u - m);
      ShlAdd(KraftSum(ls[..|ls| - 1], m), Pow2(m - ls[|ls| - 1]), u - m);
    }
  }

  lemma {:induction false} ShlAdd(a: nat, b: nat, k: nat)
    ensures Shl(a + b, k) == Shl(a, k) + Shl(b, k)
  {
    if k > 0 { ShlAdd(a, b, k - 1); }
  }

  lemma {:induction false} ShlReflects(a: nat, b: nat, k: nat)
    requires Shl(a, k) < Shl(b, k)
    ensures a < b
  {
    if k > 0 { ShlReflects(a, b, k - 1); }
  }

  lemma {:induction false} ShlMonotone(a: nat, b: nat, k: nat)
    requires a <= b
    ensures Shl(a, k) <= Shl(b, k)
  {
    if k > 0 { ShlMonotone(a, b, k - 1); }
  }

  lemma {:induction false} Pow2Shl(a: nat, k: nat)
    ensures Pow2(a + k) == Shl(Pow2(a), k)
  {
    if k > 0 { Pow2Shl(a, k - 1); }
  }

  lemma {:induction false} LongestIndex(ls: seq<nat>) returns (p: nat)
    requires ls != []
    ensures p < |ls| && UpTo(ls, ls[p])
  {
    p := 0;
    if |ls| > 1 {
      var q := LongestIndex(ls[1..]);
      assert forall i :: 1 <= i < |ls| ==> ls[i] == ls[1..][i - 1];
      p := if ls[q + 1] > ls[0] then q + 1 else 0;
    }
  }

  /** Gives the least weight the longest length; this never costs more. Returns what the others get. */
  lemma PairLeastWithLongest(ws: seq<nat>, ls: seq<nat>, u: nat) returns (a: nat, m: nat, ws': seq<nat>, ls': seq<nat>)
    requires |ws| == |ls| > 0 && UpTo(ls, u)
    ensures IsLeast(multiset(ws), a) && multiset(ws') == multiset(ws) - multiset{a}
    ensures |ws'| == |ls'| == |ws| - 1 && m in ls && m <= u && UpTo(ls', m)
    ensures Dot(ws', ls') + a * m <= Dot(ws, ls)
    ensures KraftSum(ls', u) + Pow2(u - m) == KraftSum(ls, u)
  {
    hide Dot, KraftSum, Pow2;
    a := Least(multiset(ws));
    var i := IndexIn(ws, a);
    var p := LongestIndex(ls);
    m := ls[p];
    var swapped := ls[i := m][p := ls[i]];
    assert ws[p] in multiset(ws);
    SwapLengths(ws, ls, i, p, u);
    ws', ls' := Without(ws, i), Without(swapped, i);
    RemoveAt(ws, i);
    DotWithout(ws, swapped, i);
    KraftWithout(swapped, i, u);
  }

  lemma SwapLengths(ws: seq<nat>, ls: seq<nat>, i: nat, p: nat, u: nat)
    requires |ws| == |ls| && i < |ws| && p < |ws| && UpTo(ls, u) && ls[i] <= ls[p] && ws[i] <= ws[p]
    ensures UpTo(ls[i := ls[p]][p := ls[i]], u)
    ensures Dot(ws, ls[i := ls[p]][p := ls[i]]) <= Dot(ws, ls)
    ensures KraftSum(ls[i := ls[p]][p := ls[i]], u) == KraftSum(ls, u)
  {
    var s := ls[i := ls[p]][p := ls[i]];
    if i == p {
      assert s == ls;
    } else {
      SwapDot(ws, ls, i, p);
      SwapKraft(ls, i, p, u);
    }
  }

  lemma SwapDot(ws: seq<nat>, ls: seq<nat>, i: nat, p: nat)
    requires |ws| == |ls| && i < |ws| && p < |ws| && i != p && ls[i] <= ls[p] && ws[i] <= ws[p]
    ensures Dot(ws, ls[i := ls[p]][p := ls[i]]) <= Dot(ws, ls)
    ensures ls[i] < ls[p] && ws[i] < ws[p] ==> Dot(ws, ls[i := ls[p]][p := ls[i]]) < Dot(ws, ls)
  {
    hide Dot;
    var s := ls[i := ls[p]][p := ls[i]];
    var q := if p > i then p - 1 else p;
    DotWithout(ws, ls, i);
    DotWithout(Without(ws, i), Without(ls, i), q);
    DotWithout(ws, s, i);
    DotWithout(Without(ws, i), Without(s, i), q);
    assert Without(Without(s, i), q) == Without(Without(ls, i), q);
    Rearrange(ws[i], ws[p], ls[i], ls[p]);
  }

  lemma Rearrange(a: nat, b: nat, k: nat, l: nat)
    requires a <= b && k <= l
    ensures a * l + b * k <= a * k + b * l
    ensures a < b && k < l ==> a * l + b * k < a * k + b * l
  {
    assert (b - a) * (l - k) >= 0;
    assert a < b && k < l ==> (b - a) * (l - k) > 0;
    assert (b - a) * (l - k) == b * l - b * k - a * l + a * k;
  }

  lemma SwapKraft(ls: seq<nat>, i: nat, p: nat, u: nat)
    requires i < |ls| && p < |ls| && i != p && UpTo(ls, u)
    ensures UpTo(ls[i := ls[p]][p := ls[i]], u)
    ensures KraftSum(ls[i := ls[p]][p := ls[i]], u) == KraftSum(ls, u)
  {
    hide KraftSum, Pow2;
    var s := ls[i := ls[p]][p := ls[i]];
    var q := if p > i then p - 1 else p;
    assert Without(Without(s, i), q) == Without(Without(ls, i), q);
    hide Without;
    KraftWithout(ls, i, u);
    KraftWithout(Without(ls, i), q, u);
    KraftWithout(s, i, u);
    KraftWithout(Without(s, i), q, u);
  }

  /** Room for one code one bit shorter: the two longest codes can share a father. */
  lemma RoomForFather(ls: seq<nat>, k: nat, m: nat, u: nat)
    requires k <= m <= u && UpTo(ls, k) && KraftSum(ls, u) + Pow2(u - k) + Pow2(u - m) <= Pow2(u)
    ensures 1 <= k && KraftSum(ls, u) + Pow2(u - (k - 1)) <= Pow2(u)
  {
    var d, x := u - k, KraftSum(ls, k);
    KraftScaled(ls, k, u);
    Pow2Shl(0, d);
    Pow2Shl(k, d);
    ShlAdd(x, 1, d);
    ShlReflects(x + 1, Pow2(k), d);
    ShlAdd(x + 1, 1, d);
    ShlMonotone(x + 2, Pow2(k), d);
  }

  lemma {:induction false} SnocTotals(ws: seq<nat>, ls: seq<nat>, w: nat, l: nat, u: nat)
    requires |ws| == |ls| && l <= u && UpTo(ls, u)
    ensures Dot(ws + [w], ls + [l]) == Dot(ws, ls) + w * l
    ensures UpTo(ls + [l], u) && KraftSum(ls + [l], u) == KraftSum(ls, u) + Pow2(u - l)
  {
    assert (ws + [w])[..|ws|] == ws && (ls + [l])[..|ls|] == ls;
  }

  /** No lengths that satisfy the Kraft inequality cost less than joining the least weights. */
  lemma {:induction false} HuffmanIsLowerBound(ws: seq<nat>, ls: seq<nat>, u: nat)
    requires |ws| == |ls| && UpTo(ls, u) && KraftSum(ls, u) <= Pow2(u)
    ensures HuffmanCost(multiset(ws)) <= Dot(ws, ls)
    decreases |ws|
  {
    hide HuffmanCost, Dot, KraftSum, Pow2, IsLeast;
    if |ws| <= 1 {
      NothingToJoin(multiset(ws));
    } else {
      var a, m, ws1, ls1 := PairLeastWithLongest(ws, ls, u);
      var b, k, ws2, ls2 := PairLeastWithLongest(ws1, ls1, u);
      RoomForFather(ls2, k, m, u);
      SnocTotals(ws2, ls2, a + b, k - 1, u);
      HuffmanIsLowerBound(ws2 + [a + b], ls2 + [k - 1], u);
      assert multiset(ws2 + [a + b]) == Join(multiset(ws), a, b);
      JoinLeast(multiset(ws), a, b);
      FatherSaves(HuffmanCost(multiset(ws)), HuffmanCost(Join(multiset(ws), a, b)), Dot(ws, ls), Dot(ws2, ls2), a, b, k,
                  m);
    }
  }

  lemma FatherSaves(cost: nat, joined: nat, given: nat, rest: nat, a: nat, b: nat, k: nat, m: nat)
    requires 1 <= k <= m && rest + b * k + a * m <= given
    requires cost == a + b + joined && joined <= rest + (a + b) * (k - 1)
    ensures cost <= given
  {
    assert a * (m - k) >= 0;
    assert (a + b) * (k - 1) == a * k + b * k - a - b;
  }

  /** No code is a prefix of another; in particular all codes differ. */
  ghost predicate PrefixCode(cs: seq<seq<bool>>) {
    cs != [] ==>
      var front, last := cs[..|cs| - 1], cs[|cs| - 1];
      PrefixCode(front) && forall c :: c in front ==> !(c <= last) && !(last <= c)
  }

  function Lengths(cs: seq<seq<bool>>): (ls: seq<nat>)
    ensures |ls| == |cs|
    ensures forall i :: 0 <= i < |cs| ==> ls[i] == |cs[i]|
  {
    if cs == [] then [] else Lengths(cs[..|cs| - 1]) + [|cs[|cs| - 1]|]
  }

  /** What follows the first bit `b` in the codes that start with it. */
  ghost function Tails(cs: seq<seq<bool>>, b: bool): (ts: seq<seq<bool>>)
    ensures forall t :: t in ts ==> [b] + t in cs
  {
    if cs == [] then []
    else
      var last := cs[|cs| - 1];
      var ts := Tails(cs[..|cs| - 1], b);
      if last != [] && last[0] == b then assert last == [b] + last[1..]; ts + [last[1..]] else ts
  }

  lemma {:induction false} TailsPrefixCode(cs: seq<seq<bool>>, b: bool)
    requires PrefixCode(cs)
    ensures PrefixCode(Tails(cs, b))
  {
    if cs != [] {
      var front, last := cs[..|cs| - 1], cs[|cs| - 1];
      var ts := Tails(front, b);
      TailsPrefixCode(front, b);
      if last != [] && last[0] == b {
        var all := ts + [last[1..]];
        assert all[..|all| - 1] == ts && last == [b] + last[1..];
        forall t | t in ts ensures !(t <= last[1..]) && !(last[1..] <= t) {
          assert [b] + t in front;
          assert t <= last[1..] ==> [b] + t <= last;
          assert last[1..] <= t ==> last <= [b] + t;
        }
      }
    }
  }

  lemma {:induction false} TailsKraft(cs: seq<seq<bool>>, u: nat)
    requires u > 0 && forall c :: c in cs ==> 0 < |c| <= u
    ensures var l, r := Lengths(Tails(cs, false)), Lengths(Tails(cs, true));
            UpTo(l, u - 1) && UpTo(r, u - 1) && UpTo(Lengths(cs), u)
            && KraftSum(Lengths(cs), u) == KraftSum(l, u - 1) + KraftSum(r, u - 1)
  {
    hide KraftSum, Lengths, Pow2;
    TailsUpTo(cs, false, u);
    TailsUpTo(cs, true, u);
    if cs == [] {
      NoCodes(u);
      NoCodes(u - 1);
    } else {
      var front, last := cs[..|cs| - 1], cs[|cs| - 1];
      assert forall c :: c in front ==> c in cs;
      assert front + [last] == cs;
      TailsKraft(front, u);
      LengthsSnoc(Tails(front, last[0]), last[1..], u - 1);
      LengthsSnoc(front, last, u);
    }
  }

  lemma NoCodes(u: nat)
    ensures Lengths([]) == [] && KraftSum([], u) == 0
  {}

  lemma TailsUpTo(cs: seq<seq<bool>>, b: bool, u: nat)
    requires u > 0 && forall c :: c in cs ==> 0 < |c| <= u
    ensures UpTo(Lengths(Tails(cs, b)), u - 1)
  {
    forall i | 0 <= i < |Tails(cs, b)| ensures |Tails(cs, b)[i]| <= u - 1 {
      assert [b] + Tails(cs, b)[i] in cs;
    }
  }

  lemma LengthsSnoc(cs: seq<seq<bool>>, c: seq<bool>, u: nat)
    requires UpTo(Lengths(cs), u) && |c| <= u
    ensures UpTo(Lengths(cs + [c]), u) && KraftSum(Lengths(cs + [c]), u) == KraftSum(Lengths(cs), u) + Pow2(u - |c|)
  {
    assert (cs + [c])[..|cs|] == cs;
    assert Lengths(cs + [c]) == Lengths(cs) + [|c|];
    assert (Lengths(cs) + [|c|])[..|cs|] == Lengths(cs);
  }

  /** The Kraft inequality: every prefix code satisfies it. */
  lemma {:induction false} PrefixCodeKraft(cs: seq<seq<bool>>, u: nat)
    requires PrefixCode(cs) && UpTo(Lengths(cs), u)
    ensures KraftSum(Lengths(cs), u) <= Pow2(u)
    decreases u
  {
    hide KraftSum, Lengths, Pow2, Tails, PrefixCode;
    if |cs| <= 1 {
      OneCode(cs, u);
    } else {
      forall c | c in cs ensures 0 < |c| <= u { NoEmptyCode(cs, c); }
      assert cs[0] in cs;
      TailsKraft(cs, u);
      TailsPrefixCode(cs, false);
      TailsPrefixCode(cs, true);
      PrefixCodeKraft(Tails(cs, false), u - 1);
      PrefixCodeKraft(Tails(cs, true), u - 1);
      assert Pow2(u) == 2 * Pow2(u - 1) by { DoublePow2(u); }
    }
  }

  lemma DoublePow2(u: nat)
    requires u > 0
    ensures Pow2(u) == 2 * Pow2(u - 1)
  {}

  lemma OneCode(cs: seq<seq<bool>>, u: nat)
    requires |cs| <= 1 && UpTo(Lengths(cs), u)
    ensures KraftSum(Lengths(cs), u) <= Pow2(u)
  {
    if |cs| == 1 {
      Pow2Monotone(u - |cs[0]|, u);
      assert Lengths(cs)[..0] == [];
    }
  }

  lemma {:induction false} NoEmptyCode(cs: seq<seq<bool>>, c: seq<bool>)
    requires PrefixCode(cs) && |cs| > 1 && c in cs
    ensures |c| > 0
  {
    var front, last := cs[..|cs| - 1], cs[|cs| - 1];
    assert cs[0] in front;
    if c in front {
      assert !(c <= last);
    } else {
      assert c == last && !(last <= cs[0]);
    }
  }

  /** Joining the least weights is at least as cheap as any prefix code for the same weights. */
  lemma HuffmanBeatsPrefixCodes(ws: seq<nat>, cs: seq<seq<bool>>, u: nat)
    requires |ws| == |cs| && PrefixCode(cs) && UpTo(Lengths(cs), u)
    ensures HuffmanCost(multiset(ws)) <= Dot(ws, Lengths(cs))
  {
    PrefixCodeKraft(cs, u);
    HuffmanIsLowerBound(ws, Lengths(cs), u);
  }
}
