/** Canonical Huffman codes (section 3.2.2 of RFC 1951) and the decoding of one symbol. */
module Canonical {
  import opened Bits

  /** How many symbols have code length `b`. */
  function Count(lens: seq<nat>, b: nat): nat {
    if lens == [] then 0
    else Count(lens[..|lens| - 1], b) + (if lens[|lens| - 1] == b then 1 else 0)
  }

  /** The number of `b`-bit strings that are codes or extend a shorter code. */
  function Used(lens: seq<nat>, b: nat): nat {
    if b == 0 then 0 else 2 * Used(lens, b - 1) + Count(lens, b)
  }

  /** The first code of length `b`. */
  function FirstCode(lens: seq<nat>, b: nat): nat {
    if b == 0 then 0 else 2 * Used(lens, b - 1)
  }

  /** The code of symbol `n`: symbols of one length get consecutive codes in symbol order. */
  function CodeOf(lens: seq<nat>, n: nat): nat
    requires n < |lens|
  {
    FirstCode(lens, lens[n]) + Count(lens[..n], lens[n])
  }

  /** The code of symbol `n` as a bit string; codes are packed most significant bit first. */
  function CodeBits(lens: seq<nat>, n: nat): (b: seq<bool>)
    requires n < |lens|
    ensures |b| == lens[n]
  {
    Msb(CodeOf(lens, n), lens[n])
  }

  ghost predicate LengthsUpTo(lens: seq<nat>, max: nat) {
    forall n :: 0 <= n < |lens| ==> lens[n] <= max
  }

  /** The lengths do not claim more than all strings of `max` bits. */
  ghost predicate NotOversubscribed(lens: seq<nat>, max: nat) {
    LengthsUpTo(lens, max) && Used(lens, max) <= Pow2(max)
  }

  /** The lengths claim every string of `max` bits: the Kraft sum is exactly 1. */
  ghost predicate Complete(lens: seq<nat>, max: nat) {
    LengthsUpTo(lens, max) && Used(lens, max) == Pow2(max)
  }

  /** The Kraft sum in units of 2^-max. */
  function Kraft(lens: seq<nat>, max: nat): nat
    requires LengthsUpTo(lens, max)
  {
    if lens == [] then 0
    else
      var l := lens[|lens| - 1];
      Kraft(lens[..|lens| - 1], max) + (if l == 0 then 0 else Pow2(max - l))
  }

  lemma {:induction false} UsedSnoc(lens: seq<nat>, l: nat, b: nat)
    ensures Used(lens + [l], b) == Used(lens, b) + (if 0 < l <= b then Pow2(b - l) else 0)
  {
    assert (lens + [l])[..|lens|] == lens;
    if b > 0 { UsedSnoc(lens, l, b - 1); }
  }

  /** The strings used at the largest length are exactly the Kraft sum. */
  lemma {:induction false} UsedIsKraft(lens: seq<nat>, max: nat)
    requires LengthsUpTo(lens, max)
    ensures Used(lens, max) == Kraft(lens, max)
  {
    if lens == [] {
      UsedEmpty(max);
    } else {
      var front, l := lens[..|lens| - 1], lens[|lens| - 1];
      assert lens == front + [l];
      UsedIsKraft(front, max);
      UsedSnoc(front, l, max);
    }
  }

  lemma {:induction false} UsedEmpty(b: nat)
    ensures Used([], b) == 0
  {
    if b > 0 { UsedEmpty(b - 1); }
  }

  lemma {:induction false} UsedFits(lens: seq<nat>, b: nat, max: nat)
    requires b <= max && Used(lens, max) <= Pow2(max)
    ensures Used(lens, b) <= Pow2(b)
  {
    if b < max { UsedFits(lens, b, max - 1); }
  }

  // ---- the rules of section 3.2.2

  lemma CountSnoc(lens: seq<nat>, l: nat, b: nat)
    ensures Count(lens + [l], b) == Count(lens, b) + (if l == b then 1 else 0)
  {
    assert (lens + [l])[..|lens|] == lens;
  }

  /** Codes of one length are consecutive in the order of their symbols. */
  lemma {:induction false} Consecutive(lens: seq<nat>, m: nat, n: nat)
    requires m < n < |lens| && lens[m] == lens[n] && forall k :: m < k < n ==> lens[k] != lens[m]
    ensures CodeOf(lens, n) == CodeOf(lens, m) + 1
  {
    CountSnoc(lens[..m], lens[m], lens[m]);
    assert lens[..m] + [lens[m]] == lens[..m + 1];
    NoneBetween(lens, m + 1, n, lens[m]);
  }

  lemma {:induction false} NoneBetween(lens: seq<nat>, m: nat, n: nat, b: nat)
    requires m <= n <= |lens| && forall k :: m <= k < n ==> lens[k] != b
    ensures Count(lens[..n], b) == Count(lens[..m], b)
    decreases n
  {
    if m < n {
      NoneBetween(lens, m, n - 1, b);
      CountSnoc(lens[..n - 1], lens[n - 1], b);
      assert lens[..n - 1] + [lens[n - 1]] == lens[..n];
    }
  }

  /** The example there: lengths (3, 3, 3, 3, 3, 2, 4, 4) have the codes 010, 011, 100, 101, 110, 00, 1110 and 1111. */
  lemma Example()
    ensures var lens := [3, 3, 3, 3, 3, 2, 4, 4];
            && CodeOf(lens, 5) == 0 && CodeOf(lens, 0) == 2 && CodeOf(lens, 1) == 3 && CodeOf(lens, 2) == 4
            && CodeOf(lens, 3) == 5 && CodeOf(lens, 4) == 6 && CodeOf(lens, 6) == 14 && CodeOf(lens, 7) == 15
  {
    hide Count;
    var lens := [3, 3, 3, 3, 3, 2, 4, 4];
    ExampleCounts(1);
    ExampleCounts(2);
    ExampleCounts(3);
    assert Used(lens, 0) == 0 && Used(lens, 1) == 0;
    assert Used(lens, 2) == 1;
    assert Used(lens, 3) == 7;
    NoneBetween(lens, 0, 5, 2);
    NoneBetween(lens, 0, 6, 4);
    CountNone(2);
    CountNone(3);
    CountNone(4);
    assert lens[..0] == [];
    assert CodeOf(lens, 0) == 2 && CodeOf(lens, 5) == 0 && CodeOf(lens, 6) == 14;
    hide CodeOf;
    Consecutive(lens, 0, 1);
    Consecutive(lens, 1, 2);
    Consecutive(lens, 2, 3);
    Consecutive(lens, 3, 4);
    Consecutive(lens, 6, 7);
  }

  lemma CountNone(b: nat)
    ensures Count([], b) == 0
  {
  }

  lemma ExampleCounts(b: nat)
    ensures Count([3, 3, 3, 3, 3, 2, 4, 4], b) == if b == 3 then 5 else if b == 2 then 1 else if b == 4 then 2 else 0
  {
    hide Count;
    CountNone(b);
    CountSnoc([], 3, b);
    CountSnoc([3], 3, b);
    CountSnoc([3, 3], 3, b);
    CountSnoc([3, 3, 3], 3, b);
    CountSnoc([3, 3, 3, 3], 3, b);
    CountSnoc([3, 3, 3, 3, 3], 2, b);
    CountSnoc([3, 3, 3, 3, 3, 2], 4, b);
    CountSnoc([3, 3, 3, 3, 3, 2, 4], 4, b);
    assert [] + [3] == [3] && [3] + [3] == [3, 3] && [3, 3] + [3] == [3, 3, 3] && [3, 3, 3] + [3] == [3, 3, 3, 3];
    assert [3, 3, 3, 3] + [3] == [3, 3, 3, 3, 3] && [3, 3, 3, 3, 3] + [2] == [3, 3, 3, 3, 3, 2];
    assert [3, 3, 3, 3, 3, 2] + [4] == [3, 3, 3, 3, 3, 2, 4];
    assert [3, 3, 3, 3, 3, 2, 4] + [4] == [3, 3, 3, 3, 3, 2, 4, 4];
  }

  // ---- unused codes at the end change nothing

  lemma {:induction false} CountPadded(lens: seq<nat>, m: nat, b: nat)
    requires m <= |lens| && b > 0 && forall x :: m <= x < |lens| ==> lens[x] == 0
    ensures Count(lens, b) == Count(lens[..m], b)
    decreases |lens|
  {
    if m == |lens| {
      assert lens[..m] == lens;
    } else {
      var n := |lens| - 1;
      CountPadded(lens[..n], m, b);
      assert lens[..n][..m] == lens[..m];
    }
  }

  lemma {:induction false} UsedPadded(lens: seq<nat>, m: nat, b: nat)
    requires m <= |lens| && forall x :: m <= x < |lens| ==> lens[x] == 0
    ensures Used(lens, b) == Used(lens[..m], b)
  {
    hide Count;
    if b > 0 {
      UsedPadded(lens, m, b - 1);
      CountPadded(lens, m, b);
    }
  }

  lemma {:induction false} CountSplit(s: seq<nat>, t: seq<nat>, b: nat)
    ensures Count(s + t, b) == Count(s, b) + Count(t, b)
  {
    if t == [] {
      assert s + t == s;
    } else {
      assert (s + t)[..|s + t| - 1] == s + t[..|t| - 1];
      CountSplit(s, t[..|t| - 1], b);
    }
  }

  /** Ranks within one length grow strictly with the symbol. */
  lemma RankBelow(lens: seq<nat>, m: nat, n: nat)
    requires m < n <= |lens|
    ensures Count(lens[..m], lens[m]) < Count(lens[..n], lens[m])
  {
    var mid := lens[m..n];
    assert lens[..n] == lens[..m] + mid;
    CountSplit(lens[..m], mid, lens[m]);
    assert mid == [lens[m]] + mid[1..];
    CountSplit([lens[m]], mid[1..], lens[m]);
    assert [lens[m]][..0] == [];
  }

  /** Codes fit in their length. */
  lemma CodeFits(lens: seq<nat>, n: nat, max: nat)
    requires n < |lens| && lens[n] > 0 && NotOversubscribed(lens, max)
    ensures CodeOf(lens, n) < Used(lens, lens[n]) <= Pow2(lens[n])
  {
    UsedFits(lens, lens[n], max);
    RankBelow(lens, n, |lens|);
    assert lens[..|lens|] == lens;
  }

  /** What lies at or above the first code of length `b` extends no code of a shorter length `a`. */
  lemma {:induction false} AboveShorter(lens: seq<nat>, a: nat, b: nat, v: nat)
    requires a < b && FirstCode(lens, b) <= v
    ensures Used(lens, a) <= Shr(v, b - a)
    decreases b
  {
    if a + 1 == b {
      assert Shr(v / 2, 0) == v / 2;
    } else {
      AboveShorter(lens, a, b - 1, v / 2);
    }
  }

  lemma {:induction false} MsbPrefix(v: nat, n: nat, k: nat)
    requires k <= n
    ensures Msb(v, n)[..k] == Msb(Shr(v, n - k), k)
  {
    if k < n {
      MsbPrefix(v / 2, n - 1, k);
      assert Msb(v, n)[..k] == Msb(v / 2, n - 1)[..k];
    }
  }

  lemma {:induction false} MsbInjective(v: nat, w: nat, n: nat)
    requires v < Pow2(n) && w < Pow2(n) && Msb(v, n) == Msb(w, n)
    ensures v == w
  {
    if n > 0 {
      assert Msb(v, n)[..n - 1] == Msb(v / 2, n - 1) && Msb(w, n)[..n - 1] == Msb(w / 2, n - 1);
      assert Msb(v, n)[n - 1] == Msb(w, n)[n - 1];
      MsbInjective(v / 2, w / 2, n - 1);
    }
  }

  /** No code is a prefix of the code of another symbol. */
  lemma PrefixFree(lens: seq<nat>, m: nat, n: nat, max: nat)
    requires m < |lens| && n < |lens| && m != n && 0 < lens[m] <= lens[n] && NotOversubscribed(lens, max)
    ensures CodeBits(lens, n)[..lens[m]] != CodeBits(lens, m)
  {
    var a, b := lens[m], lens[n];
    CodeFits(lens, m, max);
    CodeFits(lens, n, max);
    var top := Shr(CodeOf(lens, n), b - a);
    MsbPrefix(CodeOf(lens, n), b, a);
    ShrBound(CodeOf(lens, n), b - a, b);
    if a < b {
      AboveShorter(lens, a, b, CodeOf(lens, n));
    } else if m < n {
      RankBelow(lens, m, n);
    } else {
      RankBelow(lens, n, m);
    }
    assert top != CodeOf(lens, m);
    if CodeBits(lens, n)[..a] == CodeBits(lens, m) {
      MsbInjective(top, CodeOf(lens, m), a);
    }
  }

  /** The bit string `frag` stands at position `pos` of `bits`. */
  ghost predicate StandsAt(bits: seq<bool>, pos: nat, frag: seq<bool>) {
    pos + |frag| <= |bits| && bits[pos..pos + |frag|] == frag
  }

  /** The smallest symbol from `n` on whose code stands at `pos`. */
  ghost function SymbolFrom(lens: seq<nat>, bits: seq<bool>, pos: nat, n: nat): (r: Option<nat>)
    requires n <= |lens|
    ensures r.Some? ==> n <= r.value < |lens| && lens[r.value] > 0 && StandsAt(bits, pos, CodeBits(lens, r.value))
    decreases |lens| - n
  {
    if n == |lens| then None
    else if lens[n] > 0 && StandsAt(bits, pos, CodeBits(lens, n)) then Some(n)
    else SymbolFrom(lens, bits, pos, n + 1)
  }

  /** Decodes one symbol of the canonical code with the given lengths. */
  ghost function DecodeSymbol(lens: seq<nat>, bits: seq<bool>, pos: nat): (r: Option<nat>)
    ensures r.Some? ==> r.value < |lens| && lens[r.value] > 0 && StandsAt(bits, pos, CodeBits(lens, r.value))
  {
    SymbolFrom(lens, bits, pos, 0)
  }

  lemma OneCodeAt(lens: seq<nat>, bits: seq<bool>, pos: nat, m: nat, n: nat, max: nat)
    requires m < |lens| && n < |lens| && 0 < lens[m] <= lens[n] && NotOversubscribed(lens, max)
    requires StandsAt(bits, pos, CodeBits(lens, m)) && StandsAt(bits, pos, CodeBits(lens, n))
    ensures m == n
  {
    assert bits[pos..pos + lens[n]][..lens[m]] == bits[pos..pos + lens[m]];
    if m != n { PrefixFree(lens, m, n, max); }
  }

  lemma {:induction false} SymbolFromFinds(lens: seq<nat>, bits: seq<bool>, pos: nat, k: nat, n: nat, max: nat)
    requires k <= n < |lens| && lens[n] > 0 && NotOversubscribed(lens, max) && StandsAt(bits, pos, CodeBits(lens, n))
    ensures SymbolFrom(lens, bits, pos, k) == Some(n)
    decreases n - k
  {
    if k < n {
      if lens[k] > 0 && StandsAt(bits, pos, CodeBits(lens, k)) {
        if lens[k] <= lens[n] { OneCodeAt(lens, bits, pos, k, n, max); } else { OneCodeAt(lens, bits, pos, n, k, max); }
      } else {
        SymbolFromFinds(lens, bits, pos, k + 1, n, max);
      }
    }
  }

  /** A canonical code that is not oversubscribed is decoded wherever it stands. */
  lemma DecodeCode(lens: seq<nat>, bits: seq<bool>, pos: nat, n: nat, max: nat)
    requires n < |lens| && lens[n] > 0 && NotOversubscribed(lens, max) && StandsAt(bits, pos, CodeBits(lens, n))
    ensures DecodeSymbol(lens, bits, pos) == Some(n)
  {
    SymbolFromFinds(lens, bits, pos, 0, n, max);
  }
}
