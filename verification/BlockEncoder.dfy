/** flush_block of gzip.c: choosing and writing the encoding of a block. */
module BlockEncoder {
  import opened Bits
  import opened Sums
  import opened Canonical
  import opened Lz77
  import opened DeflateTables
  import opened Inflate
  import opened DeflateFormat
  import opened DynamicHeader
  import opened BlockFormat
  import opened BlockCost
  import opened BlockTrees
  import opened BuildBlockTrees
  import opened BitWriter
  import opened TreeRle
  import opened TreeSend
  import opened StaticTables
  import opened TokenBuffer
  import opened CompressBlock
  import opened HuffmanHeap
  import opened HuffmanTree
  import opened HuffmanBuild
  import opened HuffmanCollect
  import opened HuffmanLengths
  import opened HuffmanShortest
  import opened HuffmanTrees

  /** Wherever `block` stands at position `pos`, the decoder reads `data` after `before` from it. */
  ghost predicate Encodes(block: seq<bool>, pos: nat, before: seq<byte>, data: seq<byte>, last: bool) {
    forall bits :: StandsAt(bits, pos, block) ==>
      DecodeBlock(bits, pos, before) == Good((last, before + data), pos + |block|)
  }

  lemma StoredEncodes(pos: nat, before: seq<byte>, data: seq<byte>, last: bool)
    requires |data| < 65536
    ensures Encodes(StoredBits(pos, data, last), pos, before, data, last)
  {
    hide StandsAt, DecodeBlock, StoredBits;
    forall bits | StandsAt(bits, pos, StoredBits(pos, data, last))
      ensures DecodeBlock(bits, pos, before) == Good((last, before + data), pos + |StoredBits(pos, data, last)|)
    {
      StoredRoundTrip(data, last, bits, pos, before);
    }
  }

  lemma FixedEncodes(pos: nat, before: seq<byte>, data: seq<byte>, ts: seq<Token>, last: bool)
    requires AllSendable(FixedLengths(), FixedDistances(), ts) && Expand(before, ts) == Some(before + data)
    ensures Encodes(FixedBits(ts, last), pos, before, data, last)
  {
    hide StandsAt, DecodeBlock, FixedBits, Expand, AllSendable;
    forall bits | StandsAt(bits, pos, FixedBits(ts, last))
      ensures DecodeBlock(bits, pos, before) == Good((last, before + data), pos + |FixedBits(ts, last)|)
    {
      FixedRoundTrip(ts, last, bits, pos, before);
    }
  }

  lemma DynamicEncodes(pos: nat, before: seq<byte>, data: seq<byte>, ts: seq<Token>, ll: seq<nat>, dl: seq<nat>,
                       bl: seq<nat>, hclen: nat, last: bool)
    requires TreesFor(ts, ll, dl) && Transmittable(ll, dl, bl, hclen) && AllSendable(ll, dl, ts)
    requires Expand(before, ts) == Some(before + data)
    ensures Encodes(DynamicBits(ll, dl, bl, hclen, ts, last), pos, before, data, last)
  {
    hide StandsAt, DecodeBlock, DynamicBits, Expand, AllSendable, Transmittable, CodesFor, Complete;
    TreesSendable(ts, ll, dl);
    TreesDecodable(ts, ll, dl);
    forall bits | StandsAt(bits, pos, DynamicBits(ll, dl, bl, hclen, ts, last))
      ensures DecodeBlock(bits, pos, before)
              == Good((last, before + data), pos + |DynamicBits(ll, dl, bl, hclen, ts, last)|)
    {
      DynamicRoundTrip(ll, dl, bl, hclen, ts, last, bits, pos, before);
    }
  }

  const ULONG_SIZE := 0x1_0000_0000

  /** The counter `c` has counted the bits sent after the first `skip` bytes. */
  ghost predicate Counts(c: nat, sent: nat, skip: nat) { sent >= 8 * skip && c == (sent - 8 * skip) % ULONG_SIZE }

  lemma CountMore(c: nat, sent: nat, skip: nat, n: nat)
    requires Counts(c, sent, skip)
    ensures Counts((c + n) % ULONG_SIZE, sent + n, skip)
  {
    var x := sent - 8 * skip;
    assert x == x / ULONG_SIZE * ULONG_SIZE + c;
  }

  lemma RoundWrapped(y: nat)
    ensures y % ULONG_SIZE / 8 * 8 == y / 8 * 8 % ULONG_SIZE
  {
    var q, r := y / ULONG_SIZE, y % ULONG_SIZE;
    assert y / 8 * 8 == q * ULONG_SIZE + r / 8 * 8;
  }

  lemma RoundShifted(x: nat, k: nat)
    ensures (x + 8 * k) / 8 * 8 == x / 8 * 8 + 8 * k
  {
  }

  lemma AddWrapped(k: nat, z: nat, t: nat)
    ensures (z % ULONG_SIZE + t) % ULONG_SIZE == (k * ULONG_SIZE + z + t) % ULONG_SIZE
  {
  }

  /** Rounding the counter up to whole bytes and adding the bytes of a stored block. */
  lemma CountStored(c: nat, sent: nat, skip: nat, n: nat)
    requires Counts(c, sent, skip)
    ensures Counts(((c + 3 + 7) % ULONG_SIZE / 8 * 8 + (n + 4) * 8) % ULONG_SIZE,
                   (sent + 3 + 7) / 8 * 8 + (n + 4) * 8, skip)
  {
    var x, k := sent - 8 * skip, (sent - 8 * skip) / ULONG_SIZE;
    assert x == k * ULONG_SIZE + c;
    var y: nat := c + 10;
    RoundWrapped(y);
    RoundShifted(y, k * (ULONG_SIZE / 8) + skip);
    AddWrapped(k, y / 8 * 8, (n + 4) * 8);
  }

  /** Bytes needed for `n` bits. */
  function BytesFor(n: nat): nat { (n + 7) / 8 }

  /** Clears the first `n` frequencies. */
  method ClearFreqs(t: CtData, n: nat)
    requires n <= t.freq.Length
    modifies t.freq
    ensures forall x :: 0 <= x < n ==> t.freq[x] == 0
  {
    for i := 0 to n
      invariant forall x :: 0 <= x < i ==> t.freq[x] == 0
    {
      t.freq[i] := 0;
    }
  }

  /** Array `a` belongs to none of the trees. */
  ghost predicate ClearOf(l: CtData, d: CtData, b: CtData, s: CtData, f: CtData, a: array<nat>) {
    Clear(a, l) && Clear(a, d) && Clear(a, b) && Clear(a, s) && Clear(a, f)
  }

  ghost predicate SizedTree(t: CtData, n: nat) {
    t.Apart() && t.freq.Length == t.dad.Length == t.len.Length == t.code.Length == n
  }

  method NewTree(n: nat, ghost others: set<array<nat>>) returns (t: CtData)
    ensures SizedTree(t, n) && fresh(t) && fresh(t.freq) && fresh(t.dad) && fresh(t.len) && fresh(t.code)
    ensures forall a :: a in others ==> Clear(a, t)
  {
    t := new CtData(n);
  }

  ghost function Arrays(t: CtData): set<array<nat>> { {t.freq, t.dad, t.len, t.code} }

  lemma ClearDisjoint(s: CtData, t: CtData)
    requires forall a :: a in Arrays(s) ==> Clear(a, t)
    ensures Disjoint(s, t) && Disjoint(t, s)
  {
  }

  method NewTrees(ghost others: set<array<nat>>) returns (l: CtData, d: CtData, b: CtData, s: CtData, f: CtData)
    ensures SizedTree(l, 2 * L_CODES + 1) && SizedTree(d, 2 * D_CODES + 1) && SizedTree(b, 2 * 19 + 1)
    ensures SizedTree(s, L_CODES + 2) && SizedTree(f, D_CODES)
    ensures Disjoint(l, d) && Disjoint(l, b) && Disjoint(d, b) && Disjoint(s, l) && Disjoint(s, d) && Disjoint(s, b)
    ensures Disjoint(f, l) && Disjoint(f, d) && Disjoint(f, b) && Disjoint(s, f)
    ensures forall a :: a in others ==> ClearOf(l, d, b, s, f, a)
    ensures fresh(Arrays(l)) && fresh(Arrays(d)) && fresh(Arrays(b)) && fresh(Arrays(s)) && fresh(Arrays(f))
  {
    hide Clear, Disjoint, SizedTree;
    l := NewTree(2 * L_CODES + 1, others);
    d := NewTree(2 * D_CODES + 1, others + Arrays(l));
    b := NewTree(2 * 19 + 1, others + Arrays(l) + Arrays(d));
    s := NewTree(L_CODES + 2, others + Arrays(l) + Arrays(d) + Arrays(b));
    f := NewTree(D_CODES, others + Arrays(l) + Arrays(d) + Arrays(b) + Arrays(s));
    ClearDisjoint(l, d);
    ClearDisjoint(l, b);
    ClearDisjoint(d, b);
    ClearDisjoint(l, s);
    ClearDisjoint(d, s);
    ClearDisjoint(b, s);
    ClearDisjoint(l, f);
    ClearDisjoint(d, f);
    ClearDisjoint(b, f);
    ClearDisjoint(s, f);
  }

  /** No code has been counted but the end of the block. */
  method StartFreqs(lt: CtData, dt: CtData, bt: CtData)
    requires L_CODES <= lt.freq.Length && D_CODES <= dt.freq.Length && 19 <= bt.freq.Length
    requires lt.freq != dt.freq && lt.freq != bt.freq && dt.freq != bt.freq
    modifies lt.freq, dt.freq, bt.freq
    ensures forall x :: 0 <= x < L_CODES ==> lt.freq[x] == if x == END_BLOCK then 1 else 0
    ensures forall x :: 0 <= x < D_CODES ==> dt.freq[x] == 0
    ensures forall k :: 0 <= k < 19 ==> bt.freq[k] == 0
  {
    ClearFreqs(lt, L_CODES);
    ClearFreqs(dt, D_CODES);
    ClearFreqs(bt, 19);
    lt.freq[END_BLOCK] := 1;
  }

  method NewBuffers() returns (o: Output, k: Tokens, h: Heap, n: Totals)
    ensures fresh(o) && fresh(o.outbuf) && fresh(k) && fresh(k.lBuf) && fresh(k.dBuf) && fresh(k.flagBuf)
    ensures fresh(h) && fresh(h.heap) && fresh(h.depth) && fresh(n) && fresh(n.blCount)
    ensures h.heap.Length == h.depth.Length == 2 * L_CODES + 1 && n.blCount.Length == 16
    ensures forall b :: 0 <= b < 16 ==> n.blCount[b] == 0
    ensures o.Valid() && o.bytes == [] && o.biValid == 0 && k.Valid() && k.tokens == []
    ensures h.heap != n.blCount && k.dBuf != h.heap && k.dBuf != n.blCount
    ensures h.depth != o.outbuf && h.depth != k.lBuf && h.depth != k.flagBuf
    ensures o.outbuf != k.lBuf && o.outbuf != k.flagBuf
  {
    hide Tokens.LitsKept, Tokens.DistsKept, Tokens.FlagsKept, Output.Valid;
    o := new Output();
    k := new Tokens();
    h := new Heap(2 * L_CODES + 1);
    n := new Totals(15);
  }

  class Encoder {
    const out: Output
    const tb: Tokens
    const tab: Tables
    const lt: CtData
    const dt: CtData
    const bt: CtData
    const sl: CtData
    const sd: CtData
    const hp: Heap
    const tot: Totals
    /** The number of bits sent for blocks, a 32 bit counter. */
    var compressedLen: nat
    /** The number of bytes put out in front of the blocks. */
    ghost var skip: nat
    /** All tokens ever added. */
    ghost var log: seq<Token>

    /** The dynamic trees and the heap are arrays of their own, of the sizes the source gives them. */
    ghost predicate Layout() {
      && Aside(hp, lt, tot) && Aside(hp, dt, tot) && Aside(hp, bt, tot)
      && Disjoint(lt, dt) && Disjoint(lt, bt) && Disjoint(dt, bt)
      && Disjoint(sl, lt) && Disjoint(sl, dt) && Disjoint(sl, bt) && Disjoint(sd, lt) && Disjoint(sd, dt)
      && Disjoint(sd, bt)
      && Clear(hp.heap, sl) && Clear(hp.heap, sd) && Clear(tot.blCount, sl) && Clear(tot.blCount, sd)
      && Clear(tb.dBuf, lt) && Clear(tb.dBuf, dt) && Clear(tb.dBuf, bt) && Clear(tb.dBuf, sl) && Clear(tb.dBuf, sd)
      && tb.dBuf != hp.heap && tb.dBuf != tot.blCount
      && hp.depth != out.outbuf && hp.depth != tb.lBuf && hp.depth != tb.flagBuf && out.outbuf != tb.lBuf
      && out.outbuf != tb.flagBuf
    }

    ghost predicate Sizes() {
      && lt.freq.Length == lt.dad.Length == lt.len.Length == lt.code.Length == 2 * L_CODES + 1
      && dt.freq.Length == dt.dad.Length == dt.len.Length == dt.code.Length == 2 * D_CODES + 1
      && bt.freq.Length == bt.dad.Length == bt.len.Length == bt.code.Length == 2 * 19 + 1
      && hp.heap.Length == hp.depth.Length == 2 * L_CODES + 1 && tot.blCount.Length == 16
      && sl.len.Length == L_CODES + 2 && sd.len.Length == D_CODES && tb.Shape()
    }

    /** The static trees hold the fixed codes. */
    ghost predicate Statics()
      reads sl.len, sl.code, sd.len, sd.code
    {
      Holds(sl, FixedLengths()) && Holds(sd, FixedDistances())
    }

    /** All frequencies of the bit length tree are zero. */
    ghost predicate BlClear()
      reads bt.freq
    {
      bt.freq.Length >= 19 && forall k :: 0 <= k < 19 ==> bt.freq[k] == 0
    }

    ghost predicate Valid()
      reads this, out, out.outbuf, tb, tb.lBuf, tb.dBuf, tb.flagBuf, lt.freq, dt.freq, bt.freq, sl.len, sl.code,
            sd.len, sd.code, tot
    {
      && Layout() && Sizes() && Statics() && Correct(tab) && out.Valid() && tb.Valid() && Counted(lt, dt, tb.tokens)
      && BlClear()
      && tot.optLen == 0 && tot.staticLen == 0
    }

    /** Allocates everything, makes the tables and the trees of the fixed codes, and starts the first block. */
    constructor ()
      ensures Valid() && tb.tokens == [] && compressedLen == 0 && skip == 0 && log == [] && out.bytes == []
      ensures out.biValid == 0
      ensures fresh(out) && fresh(out.outbuf) && fresh(tb) && fresh(tb.lBuf) && fresh(tb.dBuf) && fresh(tb.flagBuf)
      ensures fresh(hp) && fresh(hp.heap) && fresh(hp.depth) && fresh(tot) && fresh(tot.blCount)
      ensures fresh(Arrays(lt)) && fresh(Arrays(dt)) && fresh(Arrays(bt)) && fresh(Arrays(sl)) && fresh(Arrays(sd))
    {
      hide Tokens.LitsKept, Tokens.DistsKept, Tokens.FlagsKept, Output.Valid, Output.Sent, Correct, Holds, Disjoint,
           Clear, Valid, Statics, Layout, Sizes, SizedTree;
      var t := InitTables();
      tab := t;
      var o, k, h, n := NewBuffers();
      var l, d, b, s, f := NewTrees({h.heap, n.blCount, k.dBuf});
      assert ClearOf(l, d, b, s, f, h.heap) && ClearOf(l, d, b, s, f, n.blCount) && ClearOf(l, d, b, s, f, k.dBuf);
      out, tb, hp, tot, lt, dt, bt, sl, sd := o, k, h, n, l, d, b, s, f;
      compressedLen, skip, log := 0, 0, [];
      new;
      LaidOut();
      Setup();
    }

    /** Trees apart from each other and from all other arrays make the layout. */
    lemma LaidOut()
      requires SizedTree(lt, 2 * L_CODES + 1) && SizedTree(dt, 2 * D_CODES + 1) && SizedTree(bt, 2 * 19 + 1)
      requires SizedTree(sl, L_CODES + 2) && SizedTree(sd, D_CODES)
      requires Disjoint(lt, dt) && Disjoint(lt, bt) && Disjoint(dt, bt)
      requires Disjoint(sl, lt) && Disjoint(sl, dt) && Disjoint(sl, bt)
      requires Disjoint(sd, lt) && Disjoint(sd, dt) && Disjoint(sd, bt)
      requires ClearOf(lt, dt, bt, sl, sd, hp.heap) && ClearOf(lt, dt, bt, sl, sd, tot.blCount)
      requires ClearOf(lt, dt, bt, sl, sd, tb.dBuf)
      requires hp.heap.Length == hp.depth.Length == 2 * L_CODES + 1 && tot.blCount.Length == 16 && tb.Shape()
      requires hp.heap != tot.blCount && tb.dBuf != hp.heap && tb.dBuf != tot.blCount
      requires hp.depth != out.outbuf && hp.depth != tb.lBuf && hp.depth != tb.flagBuf
      requires out.outbuf != tb.lBuf && out.outbuf != tb.flagBuf
      ensures Layout() && Sizes() && sl.Apart() && sd.Apart()
      ensures sl.code.Length == L_CODES + 2 && sd.code.Length == D_CODES
    {
      hide Disjoint, Clear;
    }

    /** Makes the trees of the fixed codes and starts the first block. */
    method Setup()
      requires Layout() && Sizes() && sl.Apart() && sd.Apart() && Disjoint(sl, sd) && sl.code.Length == L_CODES + 2
      requires sd.code.Length == D_CODES
      requires Correct(tab) && out.Valid() && tb.Valid() && forall b :: 0 <= b < 16 ==> tot.blCount[b] == 0
      modifies sl.len, sl.code, sd.len, sd.code, tot, tot.blCount, tb, lt.freq, dt.freq, bt.freq
      ensures Valid() && tb.tokens == []
    {
      hide Tokens.LitsKept, Tokens.DistsKept, Tokens.FlagsKept, Tokens.Valid, Output.Valid, Correct, Holds, Counted,
           BlClear, Coded, FixedLengths, FixedDistances;
      InitStaticLiterals(sl, tot.blCount);
      InitStaticDistances(sd);
      StaticsHold(sl, sd);
      InitBlock();
    }

    /** Everything the encoder changes. */
    ghost function Parts(): set<object> {
      {this, out, out.outbuf, tb, tb.lBuf, tb.dBuf, tb.flagBuf, hp, hp.heap, hp.depth, tot, tot.blCount,
       lt.freq, lt.dad, lt.len, lt.code, dt.freq, dt.dad, dt.len, dt.code, bt.freq, bt.dad, bt.len, bt.code}
    }

    /** Everything the encoder's state depends on. */
    ghost function Repr(): set<object> { Parts() + {sl.len, sl.code, sd.len, sd.code} }

    /** Starts a new block. */
    method InitBlock()
      requires Layout() && Sizes()
      modifies tb, tot, lt.freq, dt.freq, bt.freq
      ensures tb.Valid() && tb.tokens == [] && Counted(lt, dt, []) && BlClear() && tot.optLen == 0 && tot.staticLen == 0
    {
      hide Tokens.LitsKept, Tokens.DistsKept, Tokens.FlagsKept, Tokens.Valid, LitFreqs, DistFreqs, Layout, Clear,
           Disjoint, Counted;
      FreqsApart(this);
      StartFreqs(lt, dt, bt);
      tot.optLen, tot.staticLen := 0, 0;
      tb.Clear();
      FirstFreqs(lt, dt);
    }
  }

  /** Both codes come from trees grown from the tokens' frequencies, and are the shortest if those are not too deep. */
  ghost predicate Grown(ts: seq<Token>, ll: seq<nat>, dl: seq<nat>, lgrown: HTree, dgrown: HTree) {
    && AllWellFormed(ts) && GrownFrom(lgrown, LitFreqs(ts), L_CODES) && GrownFrom(dgrown, DistFreqs(ts), D_CODES)
    && (Depth(lgrown) <= 15 ==> Shortest(LitFreqs(ts), ll, L_CODES))
    && (Depth(dgrown) <= 15 ==> Shortest(DistFreqs(ts), dl, D_CODES))
  }

  /** Constructs the literal and distance trees of a block and the totals of its tokens. */
  method BuildTokenTrees(e: Encoder) returns (lmax: nat, dmax: nat, ghost lgrown: HTree, ghost dgrown: HTree)
    requires e.Layout() && e.Sizes() && e.Statics() && Counted(e.lt, e.dt, e.tb.tokens) && |e.tb.tokens| < LIT_BUFSIZE
    modifies e.hp, e.hp.heap, e.hp.depth, e.tot, e.tot.blCount
    modifies e.lt.freq, e.lt.dad, e.lt.len, e.lt.code, e.dt.freq, e.dt.dad, e.dt.len, e.dt.code
    ensures lmax < L_CODES && dmax < D_CODES && TreesFor(e.tb.tokens, e.lt.len[..lmax + 1], e.dt.len[..dmax + 1])
    ensures Holds(e.lt, e.lt.len[..lmax + 1]) && Holds(e.dt, e.dt.len[..dmax + 1]) && e.lt.len[lmax] > 0
    ensures e.tot.optLen == old(e.tot.optLen) + Cost(LitFreqs(e.tb.tokens), e.lt.len[..lmax + 1], LitExtra(), L_CODES)
                            + Cost(DistFreqs(e.tb.tokens), e.dt.len[..dmax + 1], DistExtra(), D_CODES)
    ensures e.tot.staticLen == old(e.tot.staticLen) + Cost(LitFreqs(e.tb.tokens), FixedLengths(), LitExtra(), L_CODES)
                               + Cost(DistFreqs(e.tb.tokens), FixedDistances(), DistExtra(), D_CODES)
    ensures Grown(e.tb.tokens, e.lt.len[..lmax + 1], e.dt.len[..dmax + 1], lgrown, dgrown)
  {
    hide SumTo, Cost, LitFreqs, DistFreqs, CompleteFor, Holds, FullExtra, Pow2, FixedLengths, FixedDistances, GrownFrom,
         Depth, Shortest;
    ghost var ts := e.tb.tokens;
    ghost var lf, df := LitFreqs(ts), DistFreqs(ts);
    FreqTotals(ts);
    TreeSizesFit();
    StaticLengths(e);
    lmax, lgrown := BuildCode(e.hp, e.lt, e.tot, L_CODES, 15, EXTRA_LBITS, LITERALS + 1, true, e.sl.len[..], lf);
    ghost var llen: seq<nat> := e.lt.len[..];
    dmax, dgrown := BuildCode(e.hp, e.dt, e.tot, D_CODES, 15, EXTRA_DBITS, 0, true, e.sd.len[..], df);
    ReadyBounds(lf, llen, lmax, L_CODES, 15);
    ReadyBounds(df, e.dt.len[..], dmax, D_CODES, 15);
    assert llen[..lmax + 1] == e.lt.len[..lmax + 1] && e.dt.len[..][..dmax + 1] == e.dt.len[..dmax + 1];
    TreesBuilt(ts, llen, lmax, e.dt.len[..], dmax);
  }

  lemma TreeSizesFit()
    ensures L_CODES <= Pow2(15) && D_CODES <= Pow2(15)
    ensures forall x :: 0 <= x < 3 ==> At(FullExtra(EXTRA_LBITS, 257), x) == 0
    ensures forall x :: 0 <= x < 3 ==> At(FullExtra(EXTRA_DBITS, 0), x) == 0
  {
    assert Pow2(5) == 32 && Pow2(9) == 512;
    Pow2Monotone(9, 15);
  }

  lemma StaticLengths(e: Encoder)
    requires e.Sizes() && e.Statics()
    ensures e.sl.len[..] == FixedLengths() && e.sd.len[..] == FixedDistances()
    ensures |FixedLengths()| >= L_CODES && |FixedDistances()| >= D_CODES
  {
    hide Coded;
    assert e.sl.len[..288] == e.sl.len[..] && e.sd.len[..D_CODES] == e.sd.len[..];
  }

  lemma TreesBuilt(ts: seq<Token>, llen: seq<nat>, lmax: nat, dlen: seq<nat>, dmax: nat)
    requires AllWellFormed(ts) && CompleteFor(LitFreqs(ts), llen, lmax, L_CODES, 15)
    requires CompleteFor(DistFreqs(ts), dlen, dmax, D_CODES, 15)
    ensures TreesFor(ts, llen[..lmax + 1], dlen[..dmax + 1]) && llen[lmax] > 0
  {
    hide Used, LitFreqs, DistFreqs;
    EndPositive(ts);
  }

  lemma StaticsHold(sl: CtData, sd: CtData)
    requires sl.len[..] == FixedLengths() && Coded(FixedLengths(), sl.code[..])
    requires sd.len[..] == FixedDistances() && Coded(FixedDistances(), sd.code[..])
    ensures Holds(sl, FixedLengths()) && Holds(sd, FixedDistances())
  {
    hide Coded;
    assert sl.len[..|FixedLengths()|] == sl.len[..] && sd.len[..|FixedDistances()|] == sd.len[..];
  }

  lemma FirstFreqs(lt: CtData, dt: CtData)
    requires lt.freq.Length >= L_CODES && dt.freq.Length >= D_CODES && lt.freq != dt.freq
    requires forall x :: 0 <= x < L_CODES ==> lt.freq[x] == if x == END_BLOCK then 1 else 0
    requires forall x :: 0 <= x < D_CODES ==> dt.freq[x] == 0
    ensures Counted(lt, dt, [])
  {
  }

  lemma FreqsApart(e: Encoder)
    requires e.Layout()
    ensures e.lt.freq != e.dt.freq && e.lt.freq != e.bt.freq && e.dt.freq != e.bt.freq
    ensures e.tb.dBuf != e.lt.freq && e.tb.dBuf != e.dt.freq && e.tb.dBuf != e.bt.freq
  {
  }

  /** The dynamic encoding that flush_block works out: the lengths of the three codes and the trees that gave the
      first two. */
  datatype Plan = Plan(ll: seq<nat>, dl: seq<nat>, bl: seq<nat>, hclen: nat, lgrown: HTree, dgrown: HTree)

  ghost predicate PlanFor(p: Plan, ts: seq<Token>) {
    && TreesFor(ts, p.ll, p.dl) && Transmittable(p.ll, p.dl, p.bl, p.hclen) && AllSendable(p.ll, p.dl, ts)
    && AllSendable(FixedLengths(), FixedDistances(), ts) && Grown(ts, p.ll, p.dl, p.lgrown, p.dgrown)
  }

  ghost function PlanBits(p: Plan, ts: seq<Token>, eof: bool): seq<bool>
    requires PlanFor(p, ts)
  {
    DynamicBits(p.ll, p.dl, p.bl, p.hclen, ts, eof)
  }

  /** The trees of the block's tokens are ready to be sent, and the totals are the lengths of the two compressed
      encodings. */
  ghost predicate Planned(e: Encoder, ts: seq<Token>, p: Plan)
    reads e.lt.len, e.lt.code, e.dt.len, e.dt.code, e.bt.len, e.bt.code, e.tot
  {
    && PlanFor(p, ts) && Holds(e.lt, p.ll) && Holds(e.dt, p.dl) && Holds(e.bt, p.bl)
    && |p.ll| < e.lt.len.Length && e.lt.len[|p.ll|] == GUARD && |p.dl| < e.dt.len.Length && e.dt.len[|p.dl|] == GUARD
    && e.tot.optLen + 3 == |PlanBits(p, ts, false)| && e.tot.staticLen + 3 == |FixedBits(ts, false)|
  }

  lemma PlanHolds(e: Encoder, ts: seq<Token>, p: Plan)
    requires TreesFor(ts, p.ll, p.dl) && Announced(p.ll, p.dl, p.bl, p.hclen)
    requires Grown(ts, p.ll, p.dl, p.lgrown, p.dgrown)
    requires Holds(e.lt, p.ll) && Holds(e.dt, p.dl) && Holds(e.bt, p.bl)
    requires |p.ll| < e.lt.len.Length && e.lt.len[|p.ll|] == GUARD && |p.dl| < e.dt.len.Length
    requires e.dt.len[|p.dl|] == GUARD
    requires e.tot.optLen
             == Cost(LitFreqs(ts), p.ll, LitExtra(), L_CODES) + Cost(DistFreqs(ts), p.dl, DistExtra(), D_CODES)
                             + Cost(ItemFreqs(BothItems(p.ll, p.dl)), p.bl, FullExtra(EXTRA_BLBITS, 0), 19) +
                               3 * p.hclen + 5 + 5 + 4
    requires e.tot.staticLen
             == Cost(LitFreqs(ts), FixedLengths(), LitExtra(), L_CODES) +
               Cost(DistFreqs(ts), FixedDistances(), DistExtra(), D_CODES)
    ensures Planned(e, ts, p)
  {
    hide CodesFor, Transmittable, Holds, AllSendable, FixedBits, DynamicBits, Cost, LitFreqs, DistFreqs, ItemFreqs,
         Coverable, Readable, TreeItems, Grown,
         Complete;
    TreesSendable(ts, p.ll, p.dl);
    TreesWellFormed(ts, p.ll, p.dl);
    FixedCost(ts, false);
    DynamicCost(ts, p.ll, p.dl, p.bl, p.hclen, false);
  }

  lemma TreesWellFormed(ts: seq<Token>, ll: seq<nat>, dl: seq<nat>)
    requires TreesFor(ts, ll, dl)
    ensures AllWellFormed(ts) && 257 <= |ll| <= L_CODES && 1 <= |dl| <= D_CODES
  {
  }

  lemma StillHolds(t: CtData, len: seq<nat>, n: nat)
    requires n < |len| == t.len.Length && Holds'(len, t.code[..], n) && t.len[..] == len[n := GUARD]
    ensures Holds(t, len[..n]) && t.len[n] == GUARD && t.len[..n] == len[..n]
  {
    hide Coded;
  }

  /** What Holds says, on values. */
  ghost predicate Holds'(len: seq<nat>, code: seq<nat>, n: nat) {
    n <= |len| && Coded(len[..n], code) && LengthsUpTo(len[..n], 16)
  }

  /** Builds all three trees of a block. */
  method PlanBlock(e: Encoder) returns (lmax: nat, dmax: nat, maxBlIndex: nat, ghost plan: Plan)
    requires e.Layout() && e.Sizes() && e.Statics() && |e.tb.tokens| < LIT_BUFSIZE && Counted(e.lt, e.dt, e.tb.tokens)
    requires e.BlClear()
    requires e.tot.optLen == 0 && e.tot.staticLen == 0
    modifies e.hp, e.hp.heap, e.hp.depth, e.tot, e.tot.blCount
    modifies e.lt.freq, e.lt.dad, e.lt.len, e.lt.code, e.dt.freq, e.dt.dad, e.dt.len, e.dt.code, e.bt.freq, e.bt.dad,
             e.bt.len, e.bt.code
    ensures |plan.ll| == lmax + 1 && |plan.dl| == dmax + 1 && plan.hclen == maxBlIndex + 1
    ensures Planned(e, e.tb.tokens, plan)
  {
    hide TreesFor, Transmittable, Cost, LitFreqs, DistFreqs, ItemFreqs, BothItems, Announced, Coded,
         Planned, FixedLengths, FixedDistances, CodeLengths, Grown;
    ghost var lgrown, dgrown;
    lmax, dmax, lgrown, dgrown := BuildTokenTrees(e);
    ghost var ts := e.tb.tokens;
    ghost var llen: seq<nat>, dlen: seq<nat> := e.lt.len[..], e.dt.len[..];
    ghost var ll, dl := llen[..lmax + 1], dlen[..dmax + 1];
    assert e.lt.len[..lmax + 1] == ll && e.dt.len[..dmax + 1] == dl;
    TreesWellFormed(ts, ll, dl);
    TreesDecodable(ts, ll, dl);
    maxBlIndex := BuildBlTree(e.hp, e.lt, e.dt, e.bt, e.tot, lmax, dmax);
    StillHolds(e.lt, llen, lmax + 1);
    StillHolds(e.dt, dlen, dmax + 1);
    plan := Plan(ll, dl, e.bt.len[..19], maxBlIndex + 1, lgrown, dgrown);
    PlanHolds(e, ts, plan);
  }

  /** The encoding that flush_block chooses: by length in whole bytes, and stored only if the data is still in the
      window. */
  ghost function Choice(ts: seq<Token>, data: seq<byte>, kept: bool, pos: nat, eof: bool, dyn: seq<bool>): seq<bool>
    requires AllSendable(FixedLengths(), FixedDistances(), ts) && (kept ==> |data| < 65536)
  {
    var fixed := FixedBits(ts, eof);
    if kept && |data| + 4 <= BytesFor(|fixed|) && |data| + 4 <= BytesFor(|dyn|) then StoredBits(pos, data, eof)
    else if BytesFor(|fixed|) <= BytesFor(|dyn|) then fixed
    else dyn
  }

  method SendHead(out: Output, kind: nat, eof: bool)
    requires out.Valid() && kind < 3
    modifies out, out.outbuf
    ensures out.Valid() && out.Sent() == old(out.Sent()) + BlockHead(kind, eof)
  {
    hide Output.Sent, Output.Valid, Lsb;
    assert Pow2(3) == 8;
    out.SendBits(2 * kind + if eof then 1 else 0, 3);
  }

  method SendStored(out: Output, buf: seq<byte>, eof: bool)
    requires out.Valid() && |buf| < 65536
    modifies out, out.outbuf
    ensures out.Valid() && out.Sent() == old(out.Sent()) + StoredBits(|old(out.Sent())|, buf, eof)
  {
    hide Output.Sent, Output.Valid, Lsb, BytesToBits, BlockHead, Align;
    ghost var before := out.Sent();
    SendHead(out, STORED_BLOCK, eof);
    out.CopyBlock(buf, true);
    ghost var h, a, b := BlockHead(STORED_BLOCK, eof), Lsb(0, Align(|before| + 3)),
        (Lsb(|buf|, 16) + Lsb(65535 - |buf|, 16)) + BytesToBits(buf);
    Assoc(before, h, a);
    Assoc(before, h + a, b);
    Assoc(h, a, b);
  }

  method SendFixed(e: Encoder, eof: bool)
    requires e.out.Valid() && e.tb.Valid() && Saved(e.tb) && Correct(e.tab) && e.Statics() && e.Layout()
    requires AllSendable(FixedLengths(), FixedDistances(), e.tb.tokens)
    modifies e.out, e.out.outbuf
    ensures e.out.Valid() && e.out.Sent() == old(e.out.Sent()) + FixedBits(e.tb.tokens, eof)
  {
    hide Output.Sent, Output.Valid, Saved, Correct, Holds, BlockHead, BodyBits, AllSendable, FixedLengths,
         FixedDistances;
    ghost var before := e.out.Sent();
    FixedEnd();
    SendHead(e.out, STATIC_TREES, eof);
    Compress(e.out, e.tb, e.tab, e.sl, e.sd, FixedLengths(), FixedDistances());
    Assoc(before, BlockHead(STATIC_TREES, eof), BodyBits(FixedLengths(), FixedDistances(), e.tb.tokens));
  }

  method SendDynamic(e: Encoder, eof: bool, lcodes: nat, dcodes: nat, blcodes: nat, ghost plan: Plan)
    requires e.out.Valid() && e.tb.Valid() && Saved(e.tb) && Correct(e.tab) && e.Layout() && e.Sizes()
    requires |plan.ll| == lcodes && |plan.dl| == dcodes && plan.hclen == blcodes && Planned(e, e.tb.tokens, plan)
    modifies e.out, e.out.outbuf
    ensures e.out.Valid()
    ensures e.out.Sent() == old(e.out.Sent()) + PlanBits(plan, e.tb.tokens, eof)
  {
    hide Output.Sent, Output.Valid, Saved, Correct, BlockHead, BodyBits, AllSendable, CodesFor, Complete, HeaderBits,
         FixedBits, Coded, LengthsUpTo, CodeLengths, Coverable,
         Grown;
    ghost var before := e.out.Sent();
    ghost var ll, dl, bl := plan.ll, plan.dl, plan.bl;
    PlanSizes(e, plan);
    TreesSendable(e.tb.tokens, ll, dl);
    SendHead(e.out, DYN_TREES, eof);
    SendAllTrees(e.out, e.lt, e.dt, e.bt, lcodes, dcodes, blcodes);
    Compress(e.out, e.tb, e.tab, e.lt, e.dt, ll, dl);
    ghost var h, t, b := BlockHead(DYN_TREES, eof), HeaderBits(ll, dl, bl, blcodes), BodyBits(ll, dl, e.tb.tokens);
    Assoc(before, h, t);
    Assoc(before, h + t, b);
    Assoc(h, t, b);
  }

  lemma StoredLength(pos: nat, data: seq<byte>, eof: bool)
    requires |data| < 65536
    ensures pos + |StoredBits(pos, data, eof)| == (pos + 3 + 7) / 8 * 8 + (|data| + 4) * 8
  {
    hide BytesToBits, Lsb;
  }

  lemma HeadOnlyDiffers(ts: seq<Token>, p: Plan, eof: bool)
    requires PlanFor(p, ts)
    ensures |PlanBits(p, ts, eof)| == |PlanBits(p, ts, false)| && |FixedBits(ts, eof)| == |FixedBits(ts, false)|
  {
    hide Transmittable, AllSendable, HeaderBits, BodyBits, TreesFor, Grown;
  }

  lemma PlanSizes(e: Encoder, p: Plan)
    requires Planned(e, e.tb.tokens, p)
    ensures 1 <= |p.ll| && 1 <= |p.dl| && |p.bl| == 19 && p.ll == e.lt.len[..|p.ll|] && p.dl == e.dt.len[..|p.dl|]
    ensures 19 <= e.bt.len.Length && p.bl == e.bt.len[..19]
  {
    hide TreesFor, AllSendable, Coded, PlanBits, FixedBits, Grown;
  }

  /** Writes a stored block and counts its bits. */
  method WriteStored(e: Encoder, data: seq<byte>, eof: bool) returns (ghost block: seq<bool>)
    requires e.out.Valid() && |data| < 65536 && Counts(e.compressedLen, |e.out.Sent()|, e.skip)
    modifies e`compressedLen, e.out, e.out.outbuf
    ensures e.out.Valid() && e.out.Sent() == old(e.out.Sent()) + block
    ensures Counts(e.compressedLen, |e.out.Sent()|, e.skip) && block == StoredBits(|old(e.out.Sent())|, data, eof)
  {
    hide Output.Sent, Output.Valid, StoredBits, Counts;
    block := StoredBits(|e.out.Sent()|, data, eof);
    StoredLength(|e.out.Sent()|, data, eof);
    CountStored(e.compressedLen, |e.out.Sent()|, e.skip, |data|);
    e.compressedLen := (e.compressedLen + 3 + 7) % ULONG_SIZE / 8 * 8;
    e.compressedLen := (e.compressedLen + (|data| + 4) * 8) % ULONG_SIZE;
    SendStored(e.out, data, eof);
  }

  /** Writes the planned block in the encoding of the least bytes, and counts its bits. */
  method WriteBlock(e: Encoder, buf: Option<seq<byte>>, storedLen: nat, eof: bool, lmax: nat, dmax: nat,
                    maxBlIndex: nat, ghost ts: seq<Token>, ghost plan: Plan)
    returns (ghost block: seq<bool>)
    requires e.out.Valid() && e.tb.Valid() && Saved(e.tb) && Correct(e.tab) && e.Statics() && e.Layout() && e.Sizes()
    requires ts == e.tb.tokens && |plan.ll| == lmax + 1 && |plan.dl| == dmax + 1 && plan.hclen == maxBlIndex + 1
    requires Planned(e, ts, plan)
    requires buf.Some? ==> |buf.value| == storedLen < 65536
    requires Counts(e.compressedLen, |e.out.Sent()|, e.skip)
    modifies e`compressedLen, e.out, e.out.outbuf
    ensures e.out.Valid() && e.out.Sent() == old(e.out.Sent()) + block
    ensures Counts(e.compressedLen, |e.out.Sent()|, e.skip)
    ensures block == Choice(ts, Kept(buf), buf.Some?, |old(e.out.Sent())|, eof, PlanBits(plan, ts, eof))
  {
    hide Output.Sent, Output.Valid, Saved, Correct, Holds, AllSendable, Transmittable, TreesFor, FixedBits, PlanBits,
         StoredBits, Grown, Tokens.Valid, Encoder.Statics, Encoder.Layout, Encoder.Sizes, Counts;
    HeadOnlyDiffers(ts, plan, eof);
    var optLenb := (e.tot.optLen + 3 + 7) / 8;
    var staticLenb := (e.tot.staticLen + 3 + 7) / 8;
    if staticLenb <= optLenb { optLenb := staticLenb; }
    if storedLen + 4 <= optLenb && buf.Some? {
      block := WriteStored(e, buf.value, eof);
    } else if staticLenb == optLenb {
      block := FixedBits(ts, eof);
      CountMore(e.compressedLen, |e.out.Sent()|, e.skip, |block|);
      SendFixed(e, eof);
      e.compressedLen := (e.compressedLen + 3 + e.tot.staticLen) % ULONG_SIZE;
    } else {
      block := PlanBits(plan, ts, eof);
      CountMore(e.compressedLen, |e.out.Sent()|, e.skip, |block|);
      SendDynamic(e, eof, lmax + 1, dmax + 1, maxBlIndex + 1, plan);
      e.compressedLen := (e.compressedLen + 3 + e.tot.optLen) % ULONG_SIZE;
    }
  }

  /** `block` is the encoding that flush_block chooses for the tokens, with the plan it made for a dynamic block. */
  ghost predicate Chosen(block: seq<bool>, ts: seq<Token>, data: seq<byte>, kept: bool, pos: nat, eof: bool,
                         plan: Plan) {
    PlanFor(plan, ts) && (kept ==> |data| < 65536) && block == Choice(ts, data, kept, pos, eof, PlanBits(plan, ts, eof))
  }

  lemma ChosenEncodes(block: seq<bool>, ts: seq<Token>, data: seq<byte>, kept: bool, pos: nat, eof: bool, plan: Plan,
                      before: seq<byte>)
    requires Chosen(block, ts, data, kept, pos, eof, plan) && Expand(before, ts) == Some(before + data)
    ensures Encodes(block, pos, before, data, eof)
  {
    hide Encodes, Expand, AllSendable, Transmittable, TreesFor, FixedBits, StoredBits, DynamicBits, Grown;
    FixedEncodes(pos, before, data, ts, eof);
    DynamicEncodes(pos, before, data, ts, plan.ll, plan.dl, plan.bl, plan.hclen, eof);
    if kept { StoredEncodes(pos, before, data, eof); }
  }

  /** The head of the block says which encoding it is: stored if the data is there and that takes no more bytes than
      either of the others, else the fixed codes if these take no more bytes than the dynamic ones. */
  lemma ChosenKind(block: seq<bool>, ts: seq<Token>, data: seq<byte>, kept: bool, pos: nat, eof: bool, plan: Plan)
    requires Chosen(block, ts, data, kept, pos, eof, plan)
    ensures |block| >= 3 && block[0] == eof
    ensures var fixed, dyn, stored := (|FixedBits(ts, eof)| + 7) / 8, (|PlanBits(plan, ts, eof)| + 7) / 8, |data| + 4;
            Value(block[1..3]) == if kept && stored <= fixed && stored <= dyn then 0 else if fixed <= dyn then 1 else 2
  {
    hide AllSendable, Transmittable, TreesFor, FixedBits, StoredBits, PlanBits, Grown, Value, Lsb;
    if kept { StoredHead(pos, data, eof); }
    FixedHead(ts, eof);
    PlanHead(plan, ts, eof);
  }

  lemma HeadOf(block: seq<bool>, kind: nat, last: bool, body: seq<bool>)
    requires kind < 3 && block == BlockHead(kind, last) + body
    ensures |block| >= 3 && block[0] == last && Value(block[1..3]) == kind
  {
    hide Lsb, Value;
    assert block[0..3] == BlockHead(kind, last);
    HeadRoundTrip(kind, last, block, 0);
  }

  lemma StoredHead(pos: nat, data: seq<byte>, eof: bool)
    requires |data| < 65536
    ensures var b := StoredBits(pos, data, eof); |b| >= 3 && b[0] == eof && Value(b[1..3]) == 0
  {
    hide BlockHead, Value, Lsb, BytesToBits;
    var b := StoredBits(pos, data, eof);
    HeadOf(b, STORED_BLOCK, eof,
           Lsb(0, Align(pos + 3)) + ((Lsb(|data|, 16) + Lsb(65535 - |data|, 16)) + BytesToBits(data)));
  }

  lemma FixedHead(ts: seq<Token>, eof: bool)
    requires AllSendable(FixedLengths(), FixedDistances(), ts)
    ensures var b := FixedBits(ts, eof); |b| >= 3 && b[0] == eof && Value(b[1..3]) == 1
  {
    hide BlockHead, Value, BodyBits, AllSendable, FixedLengths, FixedDistances;
    FixedEnd();
    HeadOf(FixedBits(ts, eof), STATIC_TREES, eof, BodyBits(FixedLengths(), FixedDistances(), ts));
  }

  lemma PlanHead(p: Plan, ts: seq<Token>, eof: bool)
    requires PlanFor(p, ts)
    ensures var b := PlanBits(p, ts, eof); |b| >= 3 && b[0] == eof && Value(b[1..3]) == 2
  {
    hide BlockHead, Value, BodyBits, HeaderBits, AllSendable, Grown;
    HeadOf(PlanBits(p, ts, eof), DYN_TREES, eof, HeaderBits(p.ll, p.dl, p.bl, p.hclen) + BodyBits(p.ll, p.dl, ts));
  }

  /** A block is never more than ten bits longer than the whole bytes of the best of the three encodings. */
  lemma ChosenIsShort(block: seq<bool>, ts: seq<Token>, data: seq<byte>, kept: bool, pos: nat, eof: bool, plan: Plan)
    requires Chosen(block, ts, data, kept, pos, eof, plan)
    ensures |block| <= 8 * BytesFor(|FixedBits(ts, eof)|) + 10
    ensures |block| <= 8 * BytesFor(|PlanBits(plan, ts, eof)|) + 10
    ensures kept ==> |block| <= 8 * (|data| + 4) + 10
  {
    hide AllSendable, Transmittable, TreesFor, FixedBits, StoredBits, PlanBits, Grown;
    if kept { StoredLength(pos, data, eof); }
  }

  /** If neither tree is too deep, no other codes for the tokens, whatever their lengths, would make the block shorter
      behind the same head: it is never longer than with them, but for rounding up and ten bits. */
  lemma ChosenIsBest(block: seq<bool>, ts: seq<Token>, data: seq<byte>, kept: bool, pos: nat, eof: bool, plan: Plan,
                     ll: seq<nat>, dl: seq<nat>, u: nat, v: nat)
    requires Chosen(block, ts, data, kept, pos, eof, plan) && Depth(plan.lgrown) <= 15 && Depth(plan.dgrown) <= 15
    requires CodesFor(ts, ll, dl) && NotOversubscribed(ll, u) && NotOversubscribed(dl, v)
    ensures AllSendable(ll, dl, ts) && END_BLOCK < |ll|
    ensures |block| <= 8 * BytesFor(3 + |HeaderBits(plan.ll, plan.dl, plan.bl, plan.hclen)| +
            |BodyBits(ll, dl, ts)|) + 10
  {
    hide AllSendable, Transmittable, CodesFor, FixedBits, StoredBits, HeaderBits, BodyBits, NotOversubscribed, Shortest,
         GrownFrom, Depth, Complete,
         LitFreqs, DistFreqs;
    ChosenIsShort(block, ts, data, kept, pos, eof, plan);
    ShortestBody(ts, plan.ll, plan.dl, ll, dl, u, v);
    var n, m := |PlanBits(plan, ts, eof)|,
        3 + |HeaderBits(plan.ll, plan.dl, plan.bl, plan.hclen)| + |BodyBits(ll, dl, ts)|;
    assert n <= m;
    MoreBytes(n, m);
  }

  lemma MoreBytes(n: nat, m: nat)
    requires n <= m
    ensures BytesFor(n) <= BytesFor(m)
  {
  }

  /** No part of what building the trees changes. */
  ghost predicate Untouched(e: Encoder, a: array<nat>) {
    Clear(a, e.lt) && Clear(a, e.dt) && Clear(a, e.bt) && a != e.hp.heap && a != e.tot.blCount
  }

  lemma BuffersApart(e: Encoder)
    requires e.Layout()
    ensures Untouched(e, e.sl.len) && Untouched(e, e.sl.code) && Untouched(e, e.sd.len) && Untouched(e, e.sd.code)
    ensures Untouched(e, e.tb.dBuf) && e.out.outbuf != e.tb.flagBuf
    ensures e.hp.depth != e.out.outbuf && e.hp.depth != e.tb.lBuf && e.hp.depth != e.tb.flagBuf
  {
  }

  /** Saves the flags and builds the trees. */
  method PrepareBlock(e: Encoder) returns (lmax: nat, dmax: nat, maxBlIndex: nat, ghost plan: Plan)
    requires e.Valid()
    modifies e.hp, e.hp.heap, e.hp.depth, e.tot, e.tot.blCount, e.tb.flagBuf
    modifies e.lt.freq, e.lt.dad, e.lt.len, e.lt.code, e.dt.freq, e.dt.dad, e.dt.len, e.dt.code, e.bt.freq, e.bt.dad,
             e.bt.len, e.bt.code
    ensures e.tb.Valid() && Saved(e.tb) && e.Statics() && e.out.Valid()
    ensures |plan.ll| == lmax + 1 && |plan.dl| == dmax + 1 && plan.hclen == maxBlIndex + 1
    ensures Planned(e, e.tb.tokens, plan)
  {
    hide Saved, Planned, Tokens.LitsKept, Tokens.DistsKept, Tokens.FlagsKept, Holds, Correct, Counted, Encoder.BlClear,
         Encoder.Layout, Encoder.Sizes, Output.Valid;
    BuffersApart(e);
    SaveFlags(e.tb);
    lmax, dmax, maxBlIndex, plan := PlanBlock(e);
  }

  /** The bytes of the block, if they are still in the window. */
  function Kept(buf: Option<seq<byte>>): seq<byte> { if buf.Some? then buf.value else [] }

  /** Builds the trees and writes the block with the tokens collected so far. */
  method PutBlock(e: Encoder, buf: Option<seq<byte>>, storedLen: nat, eof: bool)
    returns (ghost block: seq<bool>, ghost plan: Plan)
    requires e.Valid() && Counts(e.compressedLen, |e.out.Sent()|, e.skip)
    requires buf.Some? ==> |buf.value| == storedLen < 65536
    modifies e.Parts()
    ensures e.out.Valid() && e.Statics()
    ensures Chosen(block, old(e.tb.tokens), Kept(buf), buf.Some?, |old(e.out.Sent())|, eof, plan)
    ensures e.out.Sent() == old(e.out.Sent()) + block && Counts(e.compressedLen, |e.out.Sent()|, e.skip)
    ensures e.skip == old(e.skip) && e.log == old(e.log)
  {
    hide Saved, Planned, Tokens.LitsKept, Tokens.DistsKept, Tokens.FlagsKept, Tokens.Valid, Holds, Correct, Counted,
         Output.Valid, Output.Sent, Choice, Chosen, Encoder.BlClear, Encoder.Sizes, Encoder.Layout, PlanBits, Counts;
    ghost var ts := e.tb.tokens;
    var lmax, dmax, maxBlIndex;
    lmax, dmax, maxBlIndex, plan := PrepareBlock(e);
    block := WriteBlock(e, buf, storedLen, eof, lmax, dmax, maxBlIndex, ts, plan);
    PlanChosen(e, block, ts, Kept(buf), buf.Some?, |old(e.out.Sent())|, eof, plan);
  }

  /** Writes the block with the tokens collected so far and starts a new one. */
  method EmitBlock(e: Encoder, buf: Option<seq<byte>>, storedLen: nat, eof: bool)
    returns (ghost block: seq<bool>, ghost plan: Plan)
    requires e.Valid() && Counts(e.compressedLen, |e.out.Sent()|, e.skip)
    requires buf.Some? ==> |buf.value| == storedLen < 65536
    modifies e.Parts()
    ensures e.Valid() && e.tb.tokens == []
    ensures Chosen(block, old(e.tb.tokens), Kept(buf), buf.Some?, |old(e.out.Sent())|, eof, plan)
    ensures e.out.Sent() == old(e.out.Sent()) + block && Counts(e.compressedLen, |e.out.Sent()|, e.skip)
    ensures e.skip == old(e.skip) && e.log == old(e.log)
  {
    hide Tokens.Valid, Correct, Counted, Output.Valid, Output.Sent, Chosen, Encoder.BlClear, Encoder.Sizes,
         Encoder.Layout, Holds, Counts;
    block, plan := PutBlock(e, buf, storedLen, eof);
    StaticsApart(e);
    e.InitBlock();
  }

  lemma StaticsApart(e: Encoder)
    requires e.Layout()
    ensures Clear(e.lt.freq, e.sl) && Clear(e.dt.freq, e.sl) && Clear(e.bt.freq, e.sl)
    ensures Clear(e.lt.freq, e.sd) && Clear(e.dt.freq, e.sd) && Clear(e.bt.freq, e.sd)
  {
  }

  /** Writes the block with the tokens collected so far; returns the number of bytes written. */
  method FlushBlock(e: Encoder, buf: Option<seq<byte>>, storedLen: nat, eof: bool)
    returns (r: nat, ghost block: seq<bool>, ghost plan: Plan)
    requires e.Valid() && Counts(e.compressedLen, |e.out.Sent()|, e.skip)
    requires buf.Some? ==> |buf.value| == storedLen < 65536
    modifies e.Parts()
    ensures e.Valid() && e.tb.tokens == []
    ensures Chosen(block, old(e.tb.tokens), Kept(buf), buf.Some?, |old(e.out.Sent())|, eof, plan)
    ensures e.out.Sent() == (old(e.out.Sent()) + block) + if eof then Lsb(0, Align(|old(e.out.Sent()) + block|)) else []
    ensures Counts(e.compressedLen, |old(e.out.Sent()) + block| + (if eof then 7 else 0), e.skip)
    ensures e.skip == old(e.skip) && e.log == old(e.log)
    ensures r == e.compressedLen / 8
    ensures eof ==> e.out.Sent() == BytesToBits(e.out.bytes) && e.out.biValid == 0
  {
    hide Tokens.Valid, Correct, Counted, Output.Valid, Output.Sent, Chosen, Lsb, BytesToBits, Encoder.BlClear,
         Encoder.Statics, Encoder.Sizes, Encoder.Layout;
    block, plan := EmitBlock(e, buf, storedLen, eof);
    if eof {
      LayoutBytes(e);
      CountMore(e.compressedLen, |e.out.Sent()|, e.skip, 7);
      e.out.BiWindup();
      e.compressedLen := (e.compressedLen + 7) % ULONG_SIZE;
    }
    r := e.compressedLen / 8;
  }

  lemma LayoutBytes(e: Encoder)
    requires e.Layout()
    ensures e.out.outbuf != e.tb.lBuf && e.out.outbuf != e.tb.flagBuf
  {
  }

  lemma PlanChosen(e: Encoder, block: seq<bool>, ts: seq<Token>, data: seq<byte>, kept: bool, pos: nat, eof: bool,
                   plan: Plan)
    requires Planned(e, ts, plan) && (kept ==> |data| < 65536)
    requires block == Choice(ts, data, kept, pos, eof, PlanBits(plan, ts, eof))
    ensures Chosen(block, ts, data, kept, pos, eof, plan)
  {
    hide PlanFor, Holds, Choice, PlanBits, FixedBits;
  }
}
