/** The exact bit cost of a block: what the frequency counts predict is what the encoding needs. */
module BlockCost {
  import opened Bits
  import opened Sums
  import opened Canonical
  import opened Lz77
  import opened DeflateTables
  import opened Inflate
  import opened DeflateFormat
  import opened TreeRle
  import opened TreeSend
  import opened HuffmanTree
  import opened HuffmanForest
  import opened HuffmanLengths

  /** `freq` with one more occurrence of `x`. */
  function Bump(freq: seq<nat>, x: nat): (r: seq<nat>)
    requires x < |freq|
    ensures |r| == |freq|
  {
    freq[x := freq[x] + 1]
  }

  /** One more occurrence costs the code and its extra bits. */
  lemma BumpCost(freq: seq<nat>, x: nat, len: seq<nat>, extra: seq<nat>, n: nat)
    requires x < n <= |freq|
    ensures SumTo(n, CostTerm(Bump(freq, x), len, extra, n))
            == SumTo(n, CostTerm(freq, len, extra, n)) + At(len, x) + At(extra, x)
  {
    hide SumTo;
    var f, g := CostTerm(freq, len, extra, n), CostTerm(Bump(freq, x), len, extra, n);
    assert At(Bump(freq, x), x) == freq[x] + 1;
    Distribute(freq[x], At(len, x) + At(extra, x));
    SumToUpdate(n, f, g, x);
  }

  lemma Distribute(a: nat, b: nat)
    ensures (a + 1) * b == a * b + b
  {
  }

  lemma BumpTotal(freq: seq<nat>, x: nat, n: nat)
    requires x < n <= |freq|
    ensures SumTo(n, FreqTerm(Bump(freq, x))) == SumTo(n, FreqTerm(freq)) + 1
  {
    hide SumTo;
    SumToUpdate(n, FreqTerm(freq), FreqTerm(Bump(freq, x)), x);
  }

  lemma NoCost(freq: seq<nat>, len: seq<nat>, extra: seq<nat>, n: nat)
    requires forall x :: 0 <= x < n ==> At(freq, x) == 0
    ensures SumTo(n, CostTerm(freq, len, extra, n)) == 0
  {
    SumToZero(n, CostTerm(freq, len, extra, n));
  }

  // ---- literal/length and distance codes

  /** The literal/length symbol of a token. */
  function SymOf(t: Token): nat {
    match t
    case Literal(c) => c
    case Match(len, _) => if 3 <= len <= 258 then LITERALS + 1 + LengthCode(len) else END_BLOCK
  }

  lemma SymOfBound(t: Token)
    ensures SymOf(t) < L_CODES
  {
    if t.Match? && 3 <= t.len <= 258 { LengthCodeFits(t.len); }
  }

  /** A token that the format can express. */
  ghost predicate WellFormed(t: Token) { t.Match? ==> 3 <= t.len <= 258 && 1 <= t.dist <= 32768 }

  ghost predicate AllWellFormed(ts: seq<Token>) { forall i :: 0 <= i < |ts| ==> WellFormed(ts[i]) }

  /** How often each literal/length code is needed for the tokens and the end of the block. */
  ghost function LitFreqs(ts: seq<Token>): (f: seq<nat>)
    ensures |f| == L_CODES
  {
    if ts == [] then Repeat(0, L_CODES)[END_BLOCK := 1]
    else
      SymOfBound(ts[|ts| - 1]);
      Bump(LitFreqs(ts[..|ts| - 1]), SymOf(ts[|ts| - 1]))
  }

  /** How often each distance code is needed. */
  ghost function DistFreqs(ts: seq<Token>): (f: seq<nat>)
    requires AllWellFormed(ts)
    ensures |f| == D_CODES
  {
    if ts == [] then Repeat(0, D_CODES)
    else
      var t := ts[|ts| - 1];
      assert WellFormed(t);
      if t.Literal? then DistFreqs(ts[..|ts| - 1])
      else
        DistCodeFits(t.dist);
        Bump(DistFreqs(ts[..|ts| - 1]), DistCode(t.dist))
  }

  lemma {:induction false} FreqTotals(ts: seq<Token>)
    requires AllWellFormed(ts)
    ensures SumTo(L_CODES, FreqTerm(LitFreqs(ts))) == |ts| + 1
    ensures SumTo(D_CODES, FreqTerm(DistFreqs(ts))) <= |ts|
  {
    hide SumTo, SymOf, DistCode;
    if ts == [] {
      var z := Repeat(0, L_CODES);
      SumToZero(L_CODES, FreqTerm(z));
      BumpTotal(z, END_BLOCK, L_CODES);
      SumToZero(D_CODES, FreqTerm(Repeat(0, D_CODES)));
    } else {
      var u, t := ts[..|ts| - 1], ts[|ts| - 1];
      assert WellFormed(t);
      FreqTotals(u);
      SymOfBound(t);
      BumpTotal(LitFreqs(u), SymOf(t), L_CODES);
      if t.Match? {
        DistCodeFits(t.dist);
        BumpTotal(DistFreqs(u), DistCode(t.dist), D_CODES);
      }
    }
  }

  lemma {:induction false} FreqsPositive(ts: seq<Token>, i: nat)
    requires AllWellFormed(ts) && i < |ts|
    ensures SymOf(ts[i]) < L_CODES && LitFreqs(ts)[SymOf(ts[i])] > 0
    ensures ts[i].Match? ==> DistCode(ts[i].dist) < D_CODES && DistFreqs(ts)[DistCode(ts[i].dist)] > 0
  {
    hide SymOf, DistCode;
    var n := |ts| - 1;
    var u, t := ts[..n], ts[n];
    assert WellFormed(t) && WellFormed(ts[i]);
    SymOfBound(ts[i]);
    SymOfBound(t);
    if t.Match? { DistCodeFits(t.dist); }
    if i < n { assert u[i] == ts[i]; FreqsPositive(u, i); }
  }

  lemma {:induction false} EndPositive(ts: seq<Token>)
    ensures LitFreqs(ts)[END_BLOCK] > 0
  {
    hide SymOf;
    if ts != [] {
      SymOfBound(ts[|ts| - 1]);
      EndPositive(ts[..|ts| - 1]);
    }
  }

  ghost function LitExtra(): seq<nat> { FullExtra(EXTRA_LBITS, LITERALS + 1) }
  ghost function DistExtra(): seq<nat> { FullExtra(EXTRA_DBITS, 0) }

  /** The cost of all symbols counted in `freq`, with codes of lengths `len`. */
  ghost function Cost(freq: seq<nat>, len: seq<nat>, extra: seq<nat>, n: nat): int {
    SumTo(n, CostTerm(freq, len, extra, n))
  }

  lemma ExtraAt(c: nat)
    ensures c <= END_BLOCK ==> At(LitExtra(), c) == 0
    ensures c < LENGTH_CODES ==> At(LitExtra(), LITERALS + 1 + c) == EXTRA_LBITS[c]
    ensures c < D_CODES ==> At(DistExtra(), c) == EXTRA_DBITS[c]
  {
  }

  lemma TokenCost(ll: seq<nat>, dl: seq<nat>, t: Token)
    requires Sendable(ll, dl, t)
    ensures t.Match? ==> DistCode(t.dist) < D_CODES
    ensures |TokenBits(ll, dl, t)| == At(ll, SymOf(t)) + At(LitExtra(), SymOf(t))
            + if t.Match? then At(dl, DistCode(t.dist)) + At(DistExtra(), DistCode(t.dist)) else 0
  {
    hide LengthCode, DistCode, CodeBits, Lsb, LitExtra, DistExtra;
    match t
    case Literal(c) => ExtraAt(c);
    case Match(len, dist) =>
      LengthCodeFits(len);
      DistCodeFits(dist);
      ExtraAt(LengthCode(len));
      ExtraAt(DistCode(dist));
  }

  lemma EmptyCosts(ll: seq<nat>, dl: seq<nat>)
    requires END_BLOCK < |ll|
    ensures Cost(LitFreqs([]), ll, LitExtra(), L_CODES) == ll[END_BLOCK]
    ensures Cost(DistFreqs([]), dl, DistExtra(), D_CODES) == 0
  {
    hide SumTo, CostTerm;
    var z := Repeat(0, L_CODES);
    NoCost(z, ll, LitExtra(), L_CODES);
    BumpCost(z, END_BLOCK, ll, LitExtra(), L_CODES);
    NoCost(Repeat(0, D_CODES), dl, DistExtra(), D_CODES);
    assert Bump(z, END_BLOCK) == LitFreqs([]);
  }

  /** The bits of the tokens and the end of the block are exactly the cost of the counted symbols. */
  lemma {:induction false} TokensCost(ll: seq<nat>, dl: seq<nat>, ts: seq<Token>)
    requires AllSendable(ll, dl, ts) && AllWellFormed(ts) && END_BLOCK < |ll|
    ensures |TokensBits(ll, dl, ts)| + ll[END_BLOCK]
            == Cost(LitFreqs(ts), ll, LitExtra(), L_CODES) + Cost(DistFreqs(ts), dl, DistExtra(), D_CODES)
  {
    hide SumTo, CostTerm, LitExtra, DistExtra, TokenBits, SymOf, DistCode, Sendable, Bump, At;
    if ts == [] {
      EmptyCosts(ll, dl);
    } else {
      var u, t := ts[..|ts| - 1], ts[|ts| - 1];
      assert WellFormed(t);
      TokensCost(ll, dl, u);
      TokenCost(ll, dl, t);
      SymOfBound(t);
      BumpCost(LitFreqs(u), SymOf(t), ll, LitExtra(), L_CODES);
      if t.Match? { BumpCost(DistFreqs(u), DistCode(t.dist), dl, DistExtra(), D_CODES); }
    }
  }

  // ---- code length codes

  const EXTRA_BLBITS: seq<nat> := [0, 0, 0, 0, 0, 0, 0, 0, 0, 0, 0, 0, 0, 0, 0, 0, 2, 3, 7]

  /** How often each code length symbol is needed. */
  ghost function ItemFreqs(its: seq<Item>): (f: seq<nat>)
    ensures |f| == 19 && forall k :: 0 <= k < 19 ==> f[k] == CountSym(its, k)
  {
    seq(19, k requires 0 <= k < 19 => CountSym(its, k))
  }

  lemma ItemFreqsCons(its: seq<Item>)
    requires its != [] && its[0].sym < 19
    ensures ItemFreqs(its) == Bump(ItemFreqs(its[1..]), its[0].sym)
  {
  }

  lemma BlExtra(it: Item)
    requires ValidItem(it)
    ensures it.sym < 19 && At(FullExtra(EXTRA_BLBITS, 0), it.sym) == it.width
  {
    if it.sym < 8 {} else if it.sym < 16 {} else {}
  }

  lemma {:induction false} ItemsCost(bl: seq<nat>, sofar: seq<nat>, its: seq<Item>)
    requires Coverable(bl, its) && Readable(sofar, its)
    ensures |ItemsBits(bl, its)| == Cost(ItemFreqs(its), bl, FullExtra(EXTRA_BLBITS, 0), 19)
    decreases |its|
  {
    hide SumTo, CostTerm, Apply, ValidItem, Bump;
    var e := FullExtra(EXTRA_BLBITS, 0);
    if its == [] {
      NoCost(ItemFreqs(its), bl, e, 19);
    } else {
      BlExtra(its[0]);
      ItemFreqsCons(its);
      ItemsCost(bl, Apply(sofar, its[0]), its[1..]);
      BumpCost(ItemFreqs(its[1..]), its[0].sym, bl, e, 19);
    }
  }
}
