/** The match buffers of gzip.c: ct_tally's packed tokens. */
module TokenBuffer {
  import opened Bits
  import opened Sums
  import opened Lz77
  import opened DeflateTables
  import opened Inflate
  import opened BlockCost
  import opened StaticTables
  import opened HuffmanTree
  import opened HuffmanBuild

  const LIT_BUFSIZE := 0x2000
  const DIST_BUFSIZE := 0x2000

  /** Which tokens are matches. */
  ghost function Kinds(ts: seq<Token>): (k: seq<bool>)
    ensures |k| == |ts| && forall i :: 0 <= i < |ts| ==> k[i] == ts[i].Match?
  {
    seq(|ts|, i requires 0 <= i < |ts| => ts[i].Match?)
  }

  /** The distances of the matches, less one. */
  ghost function Dists(ts: seq<Token>): (d: seq<int>)
    ensures |d| <= |ts|
  {
    if ts == [] then [] else
      var t := ts[|ts| - 1];
      Dists(ts[..|ts| - 1]) + if t.Match? then [t.dist - 1] else []
  }

  /** The byte kept for a token. */
  ghost function LitByte(t: Token): int {
    match t
    case Literal(c) => c
    case Match(len, _) => len - MIN_MATCH
  }

  lemma {:induction false} ValueSnoc(s: seq<bool>, b: bool)
    ensures Value(s + [b]) == Value(s) + if b then Pow2(|s|) else 0
  {
    if s == [] {
      assert s + [b] == [b];
    } else {
      assert (s + [b])[1..] == s[1..] + [b];
      ValueSnoc(s[1..], b);
    }
  }

  lemma {:induction false} ValueBound(s: seq<bool>)
    ensures Value(s) < Pow2(|s|)
  {
    if s != [] { ValueBound(s[1..]); }
  }

  lemma {:induction false} ShlOne(k: nat)
    ensures Shl(1, k) == Pow2(k)
  {
    if k > 0 { ShlOne(k - 1); }
  }

  lemma DistsSnoc(ts: seq<Token>, t: Token)
    ensures Dists(ts + [t]) == Dists(ts) + if t.Match? then [t.dist - 1] else []
  {
    assert (ts + [t])[..|ts|] == ts;
  }

  /** Adding the token's flag to an incomplete byte of flags. */
  lemma FlagAdded(kinds: seq<bool>, from: nat, b: bool)
    requires from <= |kinds| < from + 8
    ensures Value(kinds[from..]) < Pow2(|kinds| - from) <= 128
    ensures BitOr(Value(kinds[from..]), Pow2(|kinds| - from)) == Value(kinds[from..]) + Pow2(|kinds| - from)
    ensures Value((kinds + [b])[from..]) == Value(kinds[from..]) + if b then Pow2(|kinds| - from) else 0
  {
    var s := kinds[from..];
    ValueBound(s);
    Pow2Monotone(|s|, 7);
    assert Pow2(5) == 32 && Pow2(7) == 128;
    assert (kinds + [b])[from..] == s + [b];
    ValueSnoc(s, b);
    ShlOne(|s|);
    BitOrDisjoint(Value(s), 1, |s|);
  }

  class Tokens {
    const lBuf: array<byte>
    const dBuf: array<nat>
    const flagBuf: array<byte>
    var lastLit: nat
    var lastDist: nat
    var lastFlags: nat
    var flags: nat
    var flagBit: nat
    /** The tokens of the current block. */
    ghost var tokens: seq<Token>

    constructor ()
      ensures Valid() && tokens == [] && fresh(lBuf) && fresh(dBuf) && fresh(flagBuf)
    {
      lBuf := new byte[LIT_BUFSIZE];
      dBuf := new nat[DIST_BUFSIZE];
      flagBuf := new byte[LIT_BUFSIZE / 8];
      lastLit, lastDist, lastFlags, flags, flagBit := 0, 0, 0, 0, 1;
      tokens := [];
    }

    /** The literals and lengths kept so far. */
    ghost predicate LitsKept()
      reads this`tokens, lBuf
    {
      |tokens| < LIT_BUFSIZE == lBuf.Length && forall i :: 0 <= i < |tokens| ==> lBuf[i] == LitByte(tokens[i])
    }

    ghost predicate DistsKept()
      reads this`tokens, this`lastDist, dBuf
    {
      dBuf.Length == DIST_BUFSIZE && lastDist == |Dists(tokens)| && lastDist <= dBuf.Length
      && forall i :: 0 <= i < lastDist ==> dBuf[i] == Dists(tokens)[i]
    }

    ghost predicate FlagsKept()
      reads this`tokens, this`lastFlags, this`flags, this`flagBit, flagBuf
    {
      var k := Kinds(tokens);
      && flagBuf.Length == LIT_BUFSIZE / 8 && lastFlags == |tokens| / 8 && lastFlags <= flagBuf.Length
      && (forall j :: 0 <= j < lastFlags ==> flagBuf[j] == Value(k[8 * j..8 * j + 8]))
      && flags == Value(k[8 * lastFlags..]) && flagBit == Pow2(|tokens| - 8 * lastFlags)
    }

    ghost predicate Valid()
      reads this, lBuf, dBuf, flagBuf
    {
      Shape() && lastLit == |tokens| < LIT_BUFSIZE && AllWellFormed(tokens) && LitsKept() && DistsKept() && FlagsKept()
    }

    ghost predicate Shape() {
      lBuf != flagBuf && lBuf.Length == LIT_BUFSIZE && dBuf.Length == DIST_BUFSIZE && flagBuf.Length == LIT_BUFSIZE / 8
    }

    /** Starts a new block. */
    method Clear()
      requires Shape()
      modifies this
      ensures Valid() && tokens == []
    {
      lastLit, lastDist, lastFlags, flags, flagBit := 0, 0, 0, 0, 1;
      tokens := [];
    }

    /** Packs the flag of the token just added. */
    method PushFlag(ghost t: Token, isMatch: bool)
      requires FlagsKept() && lastLit == |tokens| + 1 < LIT_BUFSIZE && isMatch == t.Match?
      modifies this`lastFlags, this`flags, this`flagBit, this`tokens, flagBuf
      ensures tokens == old(tokens) + [t] && FlagsKept()
    {
      hide Value, Pow2, BitOr;
      ghost var k := Kinds(tokens);
      FlagAdded(k, 8 * lastFlags, isMatch);
      KindsSnoc(tokens, t);
      if isMatch { flags := BitOr(flags, flagBit); }
      flagBit := 2 * flagBit % 256;
      tokens := tokens + [t];
      DoublePow2(old(|tokens|) - 8 * lastFlags);
      WholeBytes(k, isMatch, lastFlags);
      if lastLit % 8 == 0 { CloseByte(); }
    }

    /** Eight flags are stored as a byte. */
    method CloseByte()
      requires flagBuf.Length == LIT_BUFSIZE / 8 && |tokens| == 8 * lastFlags + 8 < LIT_BUFSIZE
      requires forall j :: 0 <= j < lastFlags ==> flagBuf[j] == Value(Kinds(tokens)[8 * j..8 * j + 8])
      requires flags == Value(Kinds(tokens)[8 * lastFlags..])
      modifies this`lastFlags, this`flags, this`flagBit, flagBuf
      ensures FlagsKept()
    {
      hide Value, Pow2;
      ghost var k := Kinds(tokens);
      assert k[8 * lastFlags..] == k[8 * lastFlags..8 * lastFlags + 8];
      ByteFull(k[8 * lastFlags..]);
      flagBuf[lastFlags] := flags;
      lastFlags := lastFlags + 1;
      flags := 0;
      flagBit := 1;
      assert k[8 * lastFlags..] == [];
      EmptyByte();
    }

    /** Keeps the literal or length, and the distance of a match. */
    method PushToken(dist: nat, lc: byte)
      requires Valid() && |tokens| + 1 < LIT_BUFSIZE && dist <= 32768
      modifies this, lBuf, dBuf, flagBuf
      ensures Valid() && tokens == old(tokens) + [TokenFor(dist, lc)]
    {
      hide Value, Pow2, BitOr, Kinds, FlagsKept;
      ghost var t := TokenFor(dist, lc);
      DistsSnoc(tokens, t);
      lBuf[lastLit] := lc;
      lastLit := lastLit + 1;
      PushFlag(t, dist != 0);
      if dist != 0 {
        dBuf[lastDist] := dist - 1;
        lastDist := lastDist + 1;
      }
    }

    /** Saves a literal (`dist == 0`) or a match; returns whether the block must be flushed. */
    method Tally(tab: Tables, lt: CtData, dt: CtData, dist: nat, lc: byte, inLength: nat) returns (flush: bool)
      requires Valid() && |tokens| + 1 < LIT_BUFSIZE && dist <= 32768 && Correct(tab)
      requires Counted(lt, dt, tokens) && dBuf != lt.freq && dBuf != dt.freq
      modifies this, lBuf, dBuf, flagBuf, lt.freq, dt.freq
      ensures Valid() && tokens == old(tokens) + [TokenFor(dist, lc)] && Counted(lt, dt, tokens)
      ensures flush == ShouldFlush(tokens, inLength)
    {
      hide LitsKept, DistsKept, FlagsKept, Counted, Correct, ShouldFlush;
      CountToken(tab, lt, dt, dist, lc, tokens);
      PushToken(dist, lc);
      flush := Full(dt, lt, inLength);
    }

    /** The guess whether to stop the block here. */
    method Full(dt: CtData, ghost lt: CtData, inLength: nat) returns (flush: bool)
      requires Valid() && Counted(lt, dt, tokens)
      ensures flush == ShouldFlush(tokens, inLength)
    {
      hide LitsKept, FlagsKept, LitFreqs, DistFreqs, SumTo, CostTerm;
      if lastLit % 0x1000 == 0 {
        var outLength := 8 * lastLit;
        StartSum(dt.freq[..]);
        for dcode := 0 to D_CODES
          invariant outLength == 8 * lastLit +
                    SumTo(dcode, CostTerm(dt.freq[..], Repeat(5, D_CODES), DistExtra(), D_CODES))
        {
          NextCost(dt.freq[..], dcode);
          outLength := outLength + dt.freq[dcode] * (5 + EXTRA_DBITS[dcode]);
        }
        SameCosts(dt.freq[..], DistFreqs(tokens), Repeat(5, D_CODES), DistExtra(), D_CODES);
        outLength := outLength / 8;
        if lastDist < lastLit / 2 && outLength < inLength / 2 { return true; }
      }
      return lastLit == LIT_BUFSIZE - 1 || lastDist == DIST_BUFSIZE;
    }
  }

  /** What ct_tally's arguments stand for. */
  function TokenFor(dist: nat, lc: byte): Token {
    if dist == 0 then Literal(lc) else Match(lc + MIN_MATCH, dist)
  }

  /** The trees' frequencies are those of the tokens and the end of the block. */
  ghost predicate Counted(lt: CtData, dt: CtData, ts: seq<Token>)
    reads lt.freq, dt.freq
  {
    && AllWellFormed(ts) && lt.freq != dt.freq && lt.freq.Length >= L_CODES && dt.freq.Length >= D_CODES
    && (forall x :: 0 <= x < L_CODES ==> lt.freq[x] == LitFreqs(ts)[x])
    && (forall x :: 0 <= x < D_CODES ==> dt.freq[x] == DistFreqs(ts)[x])
  }

  /** A block ends when a buffer is full, or at every 4096th token if few are matches and the guess is good
      compression. */
  ghost predicate ShouldFlush(ts: seq<Token>, inLength: nat)
    requires AllWellFormed(ts)
  {
    || |ts| == LIT_BUFSIZE - 1 || |Dists(ts)| == DIST_BUFSIZE
    || (|ts| % 0x1000 == 0 && |Dists(ts)| < |ts| / 2
        && (8 * |ts| + Cost(DistFreqs(ts), Repeat(5, D_CODES), DistExtra(), D_CODES)) / 8 < inLength / 2)
  }

  /** How many of the tokens are matches. */
  ghost function MatchCount(ts: seq<Token>): nat {
    if ts == [] then 0 else MatchCount(ts[..|ts| - 1]) + if ts[|ts| - 1].Match? then 1 else 0
  }

  /** The guess, token by token: eight bits each, and for a match five and the extra bits of its distance. */
  ghost function Guess(ts: seq<Token>): nat
    requires AllWellFormed(ts)
  {
    if ts == [] then 0
    else
      var t := ts[|ts| - 1];
      assert WellFormed(t);
      Guess(ts[..|ts| - 1]) + 8 + if t.Match? then 5 + ExtraBits(t.dist) else 0
  }

  /** Every doubling of the distance above four needs one more bit. */
  ghost function ExtraBits(dist: nat): nat { if dist <= 4 then 0 else 1 + ExtraBits((dist + 1) / 2) }

  lemma {:induction false} CountIsDists(ts: seq<Token>)
    ensures |Dists(ts)| == MatchCount(ts)
  {
    if ts != [] { CountIsDists(ts[..|ts| - 1]); }
  }

  lemma HalvedBase(c: nat)
    requires 4 <= c < D_CODES
    ensures DIST_BASE[c] == 2 * DIST_BASE[c - 2] - 1 && EXTRA_DBITS[c] == EXTRA_DBITS[c - 2] + 1 && DIST_BASE[c] >= 5
  {
    if c < 12 {} else if c < 20 {} else {}
  }

  lemma FirstBases(c: nat)
    requires c < 4
    ensures DIST_BASE[c] == c + 1 && EXTRA_DBITS[c] == 0
  {
  }

  /** The table of extra bits. */
  lemma {:induction false} ExtraIsTable(dist: nat, c: nat)
    requires c < D_CODES && DIST_BASE[c] <= dist < DIST_BASE[c] + Pow2(EXTRA_DBITS[c])
    ensures ExtraBits(dist) == EXTRA_DBITS[c]
    decreases c
  {
    if c < 4 {
      FirstBases(c);
      assert Pow2(0) == 1;
    } else {
      hide Pow2, ExtraBits;
      HalvedBase(c);
      HalvedExtra(dist, DIST_BASE[c - 2], EXTRA_DBITS[c - 2]);
      ExtraIsTable((dist + 1) / 2, c - 2);
    }
  }

  lemma HalvedExtra(dist: nat, base: nat, e: nat)
    requires base >= 3 && 2 * base - 1 <= dist < 2 * base - 1 + Pow2(e + 1)
    ensures base <= (dist + 1) / 2 < base + Pow2(e) && ExtraBits(dist) == ExtraBits((dist + 1) / 2) + 1
  {
    assert Pow2(e + 1) == 2 * Pow2(e);
  }

  lemma {:induction false} GuessIs(ts: seq<Token>)
    requires AllWellFormed(ts)
    ensures Guess(ts) == 8 * |ts| + Cost(DistFreqs(ts), Repeat(5, D_CODES), DistExtra(), D_CODES)
  {
    hide SumTo, CostTerm, DistCode, DistExtra, ExtraBits;
    if ts == [] {
      NoCost(Repeat(0, D_CODES), Repeat(5, D_CODES), DistExtra(), D_CODES);
    } else {
      var u, t := ts[..|ts| - 1], ts[|ts| - 1];
      assert WellFormed(t);
      GuessIs(u);
      if t.Match? {
        var c := DistCode(t.dist);
        DistCodeFits(t.dist);
        ExtraIsTable(t.dist, c);
        ExtraAt(c);
        BumpCost(DistFreqs(u), c, Repeat(5, D_CODES), DistExtra(), D_CODES);
        assert At(Repeat(5, D_CODES), c) == 5;
      }
    }
  }

  /** When a block ends, in numbers. */
  lemma FlushMeans(ts: seq<Token>, inLength: nat)
    requires AllWellFormed(ts)
    ensures ShouldFlush(ts, inLength) <==>
            || |ts| == 0x1fff || MatchCount(ts) == 0x2000
            || (|ts| % 4096 == 0 && MatchCount(ts) < |ts| / 2 && Guess(ts) / 8 < inLength / 2)
  {
    hide Cost, Dists;
    CountIsDists(ts);
    GuessIs(ts);
  }

  /** Costs depend on the frequencies of the first `n` codes only. */
  lemma SameCosts(f: seq<nat>, g: seq<nat>, len: seq<nat>, extra: seq<nat>, n: nat)
    requires forall x :: 0 <= x < n ==> At(f, x) == At(g, x)
    ensures SumTo(n, CostTerm(f, len, extra, n)) == SumTo(n, CostTerm(g, len, extra, n))
  {
    SumToCongruent(n, CostTerm(f, len, extra, n), CostTerm(g, len, extra, n));
  }

  lemma StartSum(freq: seq<nat>)
    ensures SumTo(0, CostTerm(freq, Repeat(5, D_CODES), DistExtra(), D_CODES)) == 0
  {
  }

  lemma NextCost(freq: seq<nat>, d: nat)
    requires d < D_CODES <= |freq|
    ensures SumTo(d + 1, CostTerm(freq, Repeat(5, D_CODES), DistExtra(), D_CODES))
            == SumTo(d, CostTerm(freq, Repeat(5, D_CODES), DistExtra(), D_CODES)) + freq[d] * (5 + EXTRA_DBITS[d])
  {
    hide DistExtra;
    ExtraAt(d);
  }

  lemma FreqsSnoc(ts: seq<Token>, t: Token)
    requires AllWellFormed(ts) && WellFormed(t)
    ensures AllWellFormed(ts + [t]) && SymOf(t) < L_CODES
    ensures LitFreqs(ts + [t]) == Bump(LitFreqs(ts), SymOf(t))
    ensures DistFreqs(ts + [t]) == if t.Match? then Bump(DistFreqs(ts), DistCode(t.dist)) else DistFreqs(ts)
  {
    hide SymOf, DistCode;
    SymOfBound(t);
    assert (ts + [t])[..|ts|] == ts;
  }

  /** Counts the codes of one token. */
  method CountToken(tab: Tables, lt: CtData, dt: CtData, dist: nat, lc: byte, ghost ts: seq<Token>)
    requires Correct(tab) && Counted(lt, dt, ts) && dist <= 32768
    modifies lt.freq, dt.freq
    ensures Counted(lt, dt, ts + [TokenFor(dist, lc)])
  {
    hide LitFreqs, DistFreqs, LengthCode, DistCode;
    ghost var t := TokenFor(dist, lc);
    FreqsSnoc(ts, t);
    if dist == 0 {
      lt.freq[lc] := lt.freq[lc] + 1;
    } else {
      var c := tab.lengthCode[lc] + LITERALS + 1;
      assert tab.lengthCode[lc] == NormalLengthCode(lc);
      lt.freq[c] := lt.freq[c] + 1;
      var d := DCode(tab, dist - 1);
      assert d == NormalDistCode(dist - 1);
      dt.freq[d] := dt.freq[d] + 1;
    }
  }

  lemma KindsSnoc(ts: seq<Token>, t: Token)
    ensures Kinds(ts + [t]) == Kinds(ts) + [t.Match?]
  {
  }

  /** One more flag leaves the bytes before it alone. */
  lemma WholeBytes(k: seq<bool>, b: bool, n: nat)
    requires 8 * n <= |k|
    ensures forall j :: 0 <= j < n ==> (k + [b])[8 * j..8 * j + 8] == k[8 * j..8 * j + 8]
  {
  }

  lemma DoublePow2(n: nat)
    requires n < 8
    ensures n < 7 ==> 2 * Pow2(n) % 256 == Pow2(n + 1)
  {
    assert Pow2(5) == 32;
    if n < 7 { Pow2Monotone(n + 1, 7); }
  }

  lemma ByteFull(s: seq<bool>)
    requires |s| == 8
    ensures Value(s) < 256
  {
    ValueBound(s);
    Pow2Words();
  }

  lemma EmptyByte()
    ensures Value([]) == 0 && Pow2(0) == 1
  {
  }
}
