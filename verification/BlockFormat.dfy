/** The three kinds of deflate blocks as bit strings, and that the decoder reads each back (section 3.2.3 of RFC
    1951). */
module BlockFormat {
  import opened Bits
  import opened Canonical
  import opened Lz77
  import opened DeflateTables
  import opened Inflate
  import opened DeflateFormat
  import opened DynamicHeader

  const STORED_BLOCK := 0
  const STATIC_TREES := 1
  const DYN_TREES := 2

  /** The three bits in front of a block. */
  ghost function BlockHead(kind: nat, last: bool): (b: seq<bool>)
    requires kind < 3
    ensures |b| == 3
  {
    Lsb(2 * kind + if last then 1 else 0, 3)
  }

  ghost function StoredBits(pos: nat, data: seq<byte>, last: bool): seq<bool>
    requires |data| < 65536
  {
    BlockHead(STORED_BLOCK, last) +
      (Lsb(0, Align(pos + 3)) + ((Lsb(|data|, 16) + Lsb(65535 - |data|, 16)) + BytesToBits(data)))
  }

  /** The tokens and the end of the block. */
  ghost function BodyBits(ll: seq<nat>, dl: seq<nat>, ts: seq<Token>): seq<bool>
    requires AllSendable(ll, dl, ts) && END_BLOCK < |ll|
  {
    TokensBits(ll, dl, ts) + CodeBits(ll, END_BLOCK)
  }

  ghost function FixedBits(ts: seq<Token>, last: bool): seq<bool>
    requires AllSendable(FixedLengths(), FixedDistances(), ts)
  {
    BlockHead(STATIC_TREES, last) + BodyBits(FixedLengths(), FixedDistances(), ts)
  }

  ghost function DynamicBits(ll: seq<nat>, dl: seq<nat>, bl: seq<nat>, hclen: nat, ts: seq<Token>,
                             last: bool): seq<bool>
    requires Transmittable(ll, dl, bl, hclen) && AllSendable(ll, dl, ts)
  {
    BlockHead(DYN_TREES, last) + (HeaderBits(ll, dl, bl, hclen) + BodyBits(ll, dl, ts))
  }

  lemma HeadBits(kind: nat, last: bool)
    requires kind < 3
    ensures BlockHead(kind, last) == [last] + Lsb(kind, 2)
  {
    var b := if last then 1 else 0;
    assert Lsb(2 * kind + b, 3) == [last] + Lsb((2 * kind + b) / 2, 2);
  }

  lemma HeadRoundTrip(kind: nat, last: bool, bits: seq<bool>, pos: nat)
    requires kind < 3 && StandsAt(bits, pos, BlockHead(kind, last))
    ensures pos + 3 <= |bits| && bits[pos] == last && Value(bits[pos + 1..pos + 3]) == kind
  {
    hide Lsb, Value;
    HeadBits(kind, last);
    StandsConcat(bits, pos, [last], Lsb(kind, 2));
    assert bits[pos..pos + 1][0] == last;
    assert Pow2(2) == 4;
    ReadField(bits, pos + 1, kind, 2);
  }

  lemma {:induction false} BytesRoundTrip(data: seq<byte>, bits: seq<bool>, pos: nat, n: nat)
    requires n <= |data| && pos + |BytesToBits(data[..n])| <= |bits| && StandsAt(bits, pos, BytesToBits(data[..n]))
    ensures DecodeBytes(bits, pos, n) == Good(data[..n], pos + 8 * n) && |BytesToBits(data[..n])| == 8 * n
  {
    hide StandsAt, BytesToBits, Lsb, Field;
    if n == 0 {
      assert data[..0] == [];
      NoBytes();
    } else {
      assert data[..n] == data[..n - 1] + [data[n - 1]];
      BytesToBitsConcat(data[..n - 1], [data[n - 1]]);
      BytesToBitsOne(data[n - 1]);
      StandsConcat(bits, pos, BytesToBits(data[..n - 1]), Lsb(data[n - 1], 8));
      BytesRoundTrip(data, bits, pos, n - 1);
      Pow2Words();
      ReadField(bits, pos + 8 * (n - 1), data[n - 1], 8);
    }
  }

  lemma NoBytes()
    ensures BytesToBits([]) == []
  {
  }

  /** The part of a stored block behind its head. */
  lemma StoredBody(data: seq<byte>, bits: seq<bool>, pos: nat)
    requires |data| < 65536
    requires StandsAt(bits, pos, Lsb(0, Align(pos)) + ((Lsb(|data|, 16) + Lsb(65535 - |data|, 16)) + BytesToBits(data)))
    ensures DecodeStored(bits, pos) == Good(data, pos + Align(pos) + 32 + |BytesToBits(data)|)
  {
    hide Lsb, BytesToBits, Align, DecodeBytes, StandsAt, Field;
    var a, n, c, b := Lsb(0, Align(pos)), Lsb(|data|, 16), Lsb(65535 - |data|, 16), BytesToBits(data);
    var p := pos + Align(pos);
    StandsConcat(bits, pos, a, (n + c) + b);
    StandsConcat(bits, p, n + c, b);
    StandsConcat(bits, p, n, c);
    Pow2Words();
    ReadField(bits, p, |data|, 16);
    ReadField(bits, p + 16, 65535 - |data|, 16);
    assert data[..|data|] == data;
    StandsInside(bits, p + 32, b);
    BytesRoundTrip(data, bits, p + 32, |data|);
  }

  lemma StandsInside(bits: seq<bool>, pos: nat, b: seq<bool>)
    requires StandsAt(bits, pos, b)
    ensures pos + |b| <= |bits|
  {
  }

  lemma StoredRoundTrip(data: seq<byte>, last: bool, bits: seq<bool>, pos: nat, out: seq<byte>)
    requires |data| < 65536 && StandsAt(bits, pos, StoredBits(pos, data, last))
    ensures DecodeBlock(bits, pos, out) == Good((last, out + data), pos + |StoredBits(pos, data, last)|)
  {
    hide Lsb, BytesToBits, BlockHead, Align, StandsAt, DecodeStored, DecodeTokens, DecodeTrees, Value;
    var h, a, n, c, b := BlockHead(STORED_BLOCK, last), Lsb(0, Align(pos + 3)), Lsb(|data|, 16),
        Lsb(65535 - |data|, 16), BytesToBits(data);
    StandsConcat(bits, pos, h, a + ((n + c) + b));
    HeadRoundTrip(STORED_BLOCK, last, bits, pos);
    StoredBody(data, bits, pos + 3);
  }

  /** The fixed codes can be decoded. */
  lemma FixedDecodable()
    ensures Decodable(FixedLengths(), FixedDistances())
  {
    FixedLengthsFit();
    FixedDistancesFit();
  }

  lemma FixedRoundTrip(ts: seq<Token>, last: bool, bits: seq<bool>, pos: nat, out: seq<byte>)
    requires AllSendable(FixedLengths(), FixedDistances(), ts) && StandsAt(bits, pos, FixedBits(ts, last))
    requires Expand(out, ts).Some?
    ensures DecodeBlock(bits, pos, out) == Good((last, Expand(out, ts).value), pos + |FixedBits(ts, last)|)
  {
    hide CodeBits, TokensBits, Lsb, BlockHead, Expand, Decodable, DecodeTokens, FixedLengths, FixedDistances,
         AllSendable;
    var ll, dl := FixedLengths(), FixedDistances();
    FixedEnd();
    FixedDecodable();
    StandsConcat(bits, pos, BlockHead(STATIC_TREES, last), BodyBits(ll, dl, ts));
    HeadRoundTrip(STATIC_TREES, last, bits, pos);
    TokensRoundTrip(ll, dl, bits, pos + 3, ts);
  }

  lemma FixedEnd()
    ensures END_BLOCK < |FixedLengths()| && FixedLengths()[END_BLOCK] > 0
  {
  }

  lemma DynamicRoundTrip(ll: seq<nat>, dl: seq<nat>, bl: seq<nat>, hclen: nat, ts: seq<Token>, last: bool,
                         bits: seq<bool>, pos: nat, out: seq<byte>)
    requires Transmittable(ll, dl, bl, hclen) && AllSendable(ll, dl, ts) && Decodable(ll, dl) && ll[END_BLOCK] > 0
    requires StandsAt(bits, pos, DynamicBits(ll, dl, bl, hclen, ts, last)) && Expand(out, ts).Some?
    ensures DecodeBlock(bits, pos, out)
            == Good((last, Expand(out, ts).value), pos + |DynamicBits(ll, dl, bl, hclen, ts, last)|)
  {
    hide CodeBits, TokensBits, Lsb, BlockHead, Expand, Decodable, DecodeTokens, DecodeTrees, AllSendable, HeaderBits;
    EnoughCodes(ll, dl, bl, hclen);
    var h, t, b := BlockHead(DYN_TREES, last), HeaderBits(ll, dl, bl, hclen), BodyBits(ll, dl, ts);
    StandsConcat(bits, pos, h, t + b);
    StandsConcat(bits, pos + 3, t, b);
    HeadRoundTrip(DYN_TREES, last, bits, pos);
    HeaderRoundTrip(ll, dl, bl, hclen, bits, pos + 3);
    TokensRoundTrip(ll, dl, bits, pos + 3 + |t|, ts);
  }

  lemma EnoughCodes(ll: seq<nat>, dl: seq<nat>, bl: seq<nat>, hclen: nat)
    requires Transmittable(ll, dl, bl, hclen)
    ensures END_BLOCK < |ll|
  {
  }

  // ---- the fixed codes

  /** Counting in a stretch of equal lengths. */
  lemma {:induction false} CountStretch(lens: seq<nat>, from: nat, end: nat, l: nat, b: nat)
    requires from <= end <= |lens| && forall i :: from <= i < end ==> lens[i] == l
    ensures Count(lens[..end], b) == Count(lens[..from], b) + (if b == l then end - from else 0)
    decreases end - from
  {
    if from < end {
      CountStretch(lens, from, end - 1, l, b);
      assert lens[..end][..end - 1] == lens[..end - 1] && lens[..end][end - 1] == l;
    }
  }

  lemma FixedCounts(b: nat)
    ensures Count(FixedLengths(), b) == if b == 7 then 24 else if b == 8 then 152 else if b == 9 then 112 else 0
  {
    hide Count;
    var s := FixedLengths();
    CountStretch(s, 0, 144, 8, b);
    CountStretch(s, 144, 256, 9, b);
    CountStretch(s, 256, 280, 7, b);
    CountStretch(s, 280, 288, 8, b);
    assert s[..288] == s && s[..0] == [];
    CountOfNone(b);
  }

  lemma CountOfNone(b: nat)
    ensures Count([], b) == 0
  {
  }

  lemma {:induction false} NoneUsed(lens: seq<nat>, b: nat)
    requires forall c: nat :: 1 <= c <= b ==> Count(lens, c) == 0
    ensures Used(lens, b) == 0
  {
    if b > 0 { NoneUsed(lens, b - 1); }
  }

  lemma FixedLengthsFit()
    ensures NotOversubscribed(FixedLengths(), 9)
  {
    hide Count, FixedLengths;
    var s := FixedLengths();
    forall b: nat ensures Count(s, b) == if b == 7 then 24 else if b == 8 then 152 else if b == 9 then 112 else 0 {
      FixedCounts(b);
    }
    NoneUsed(s, 6);
    assert Used(s, 7) == 24;
    assert Used(s, 8) == 200;
    assert Used(s, 9) == 512;
    assert Pow2(5) == 32 && Pow2(7) == 128 && Pow2(9) == 512;
    FixedLengthsBound();
  }

  lemma FixedLengthsBound()
    ensures LengthsUpTo(FixedLengths(), 9)
  {
  }

  lemma FixedDistancesFit()
    ensures NotOversubscribed(FixedDistances(), 5)
  {
    hide Count;
    var s := FixedDistances();
    forall b: nat ensures Count(s, b) == if b == 5 then 30 else 0 {
      CountStretch(s, 0, 30, 5, b);
      assert s[..30] == s && s[..0] == [];
      CountOfNone(b);
    }
    NoneUsed(s, 4);
    assert Used(s, 5) == 30;
    assert Pow2(5) == 32;
  }

  /** A distance's fixed code is its number in five bits. */
  lemma FixedDistanceCode(n: nat)
    requires n < D_CODES
    ensures CodeBits(FixedDistances(), n) == Msb(n, 5)
  {
    hide Count;
    var s := FixedDistances();
    forall b: nat | 1 <= b <= 4 ensures Count(s, b) == 0 {
      CountStretch(s, 0, 30, 5, b);
      assert s[..30] == s && s[..0] == [];
      CountOfNone(b);
    }
    NoneUsed(s, 4);
    CountStretch(s, 0, n, 5, 5);
    assert s[..0] == [];
    CountOfNone(5);
  }
}
