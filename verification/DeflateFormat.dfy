/** The bits of tokens under given code lengths, and that the decoder reads them back. */
module DeflateFormat {
  import opened Bits
  import opened Canonical
  import opened Lz77
  import opened DeflateTables
  import opened Inflate

  lemma StandsConcat(bits: seq<bool>, pos: nat, a: seq<bool>, b: seq<bool>)
    ensures StandsAt(bits, pos, a + b) <==> StandsAt(bits, pos, a) && StandsAt(bits, pos + |a|, b)
  {
    if StandsAt(bits, pos, a + b) {
      assert bits[pos..pos + |a|] == (a + b)[..|a|] && bits[pos + |a|..pos + |a| + |b|] == (a + b)[|a|..];
    }
    if StandsAt(bits, pos, a) && StandsAt(bits, pos + |a|, b) {
      assert bits[pos..pos + |a + b|] == bits[pos..pos + |a|] + bits[pos + |a|..pos + |a| + |b|];
    }
  }

  lemma ReadField(bits: seq<bool>, pos: nat, v: nat, n: nat)
    requires StandsAt(bits, pos, Lsb(v, n)) && v < Pow2(n)
    ensures Field(bits, pos, n) == Good(v, pos + n)
  {
    ValueOfLsb(v, n);
  }

  /** All symbols of token `t` have codes. */
  ghost predicate Sendable(ll: seq<nat>, dl: seq<nat>, t: Token) {
    match t
    case Literal(c) => c < |ll| && ll[c] > 0
    case Match(len, dist) =>
      && 3 <= len <= 258 && 1 <= dist <= 32768
      && LITERALS + 1 + LengthCode(len) < |ll| && ll[LITERALS + 1 + LengthCode(len)] > 0
      && DistCode(dist) < |dl| && dl[DistCode(dist)] > 0
  }

  /** Length code and extra bits of a match. */
  ghost function LengthBits(ll: seq<nat>, len: nat): seq<bool>
    requires 3 <= len <= 258 && LITERALS + 1 + LengthCode(len) < |ll|
  {
    var c := LengthCode(len);
    LengthCodeFits(len);
    CodeBits(ll, LITERALS + 1 + c) + Lsb(len - LENGTH_BASE[c], EXTRA_LBITS[c])
  }

  /** Distance code and extra bits of a match. */
  ghost function DistBits(dl: seq<nat>, dist: nat): seq<bool>
    requires 1 <= dist <= 32768 && DistCode(dist) < |dl|
  {
    var c := DistCode(dist);
    DistCodeFits(dist);
    CodeBits(dl, c) + Lsb(dist - DIST_BASE[c], EXTRA_DBITS[c])
  }

  ghost function TokenBits(ll: seq<nat>, dl: seq<nat>, t: Token): seq<bool>
    requires Sendable(ll, dl, t)
  {
    match t
    case Literal(c) => CodeBits(ll, c)
    case Match(len, dist) => LengthBits(ll, len) + DistBits(dl, dist)
  }

  ghost predicate AllSendable(ll: seq<nat>, dl: seq<nat>, ts: seq<Token>) {
    forall i :: 0 <= i < |ts| ==> Sendable(ll, dl, ts[i])
  }

  /** The bits of the tokens, without the end of the block. */
  ghost function TokensBits(ll: seq<nat>, dl: seq<nat>, ts: seq<Token>): seq<bool>
    requires AllSendable(ll, dl, ts)
  {
    if ts == [] then [] else TokensBits(ll, dl, ts[..|ts| - 1]) + TokenBits(ll, dl, ts[|ts| - 1])
  }

  lemma {:induction false} TokensBitsFront(ll: seq<nat>, dl: seq<nat>, ts: seq<Token>)
    requires ts != [] && AllSendable(ll, dl, ts)
    ensures TokensBits(ll, dl, ts) == TokenBits(ll, dl, ts[0]) + TokensBits(ll, dl, ts[1..])
  {
    hide TokenBits, Sendable;
    var n := |ts| - 1;
    if n == 0 {
      assert ts[..0] == [] && ts[1..] == [];
    } else {
      TokensBitsFront(ll, dl, ts[..n]);
      assert ts[1..][..n - 1] == ts[..n][1..];
      Assoc(TokenBits(ll, dl, ts[0]), TokensBits(ll, dl, ts[..n][1..]), TokenBits(ll, dl, ts[n]));
    }
  }

  /** Both codes of a block can be decoded. */
  ghost predicate Decodable(ll: seq<nat>, dl: seq<nat>) {
    (exists m :: NotOversubscribed(ll, m)) && (exists m :: NotOversubscribed(dl, m))
  }

  lemma DistRoundTrip(dl: seq<nat>, bits: seq<bool>, pos: nat, c: nat, le: nat, dist: nat, md: nat)
    requires c < LENGTH_CODES && le < Pow2(EXTRA_LBITS[c]) && NotOversubscribed(dl, md)
    requires 1 <= dist <= 32768 && DistCode(dist) < |dl| && dl[DistCode(dist)] > 0
    requires StandsAt(bits, pos, Lsb(le, EXTRA_LBITS[c])) && StandsAt(bits, pos + EXTRA_LBITS[c], DistBits(dl, dist))
    ensures DecodeMatch(dl, bits, pos, c)
            == Good(Some(Match(LENGTH_BASE[c] + le, dist)), pos + EXTRA_LBITS[c] + |DistBits(dl, dist)|)
  {
    hide Lsb, CodeBits, DistCode, StandsAt, Field, DecodeSymbol, NotOversubscribed, Pow2;
    var d := DistCode(dist);
    DistCodeFits(dist);
    var q := pos + EXTRA_LBITS[c];
    StandsConcat(bits, q, CodeBits(dl, d), Lsb(dist - DIST_BASE[d], EXTRA_DBITS[d]));
    ReadField(bits, pos, le, EXTRA_LBITS[c]);
    DecodeCode(dl, bits, q, d, md);
    ReadField(bits, q + dl[d], dist - DIST_BASE[d], EXTRA_DBITS[d]);
  }

  lemma SymbolThenMatch(ll: seq<nat>, dl: seq<nat>, bits: seq<bool>, pos: nat, s: nat)
    requires s < |ll| && LITERALS < s < L_CODES && DecodeSymbol(ll, bits, pos) == Some(s)
    ensures DecodeToken(ll, dl, bits, pos) == DecodeMatch(dl, bits, pos + ll[s], s - (LITERALS + 1))
  {
    hide DecodeSymbol, DecodeMatch;
  }

  lemma MatchBits(ll: seq<nat>, dl: seq<nat>, len: nat, dist: nat)
    requires Sendable(ll, dl, Match(len, dist))
    ensures var c := LengthCode(len);
            && 3 <= len <= 258 && 1 <= dist <= 32768 && DistCode(dist) < |dl| && dl[DistCode(dist)] > 0
            && LITERALS + 1 + c < |ll| && ll[LITERALS + 1 + c] > 0
            && c < LENGTH_CODES && LENGTH_BASE[c] <= len < LENGTH_BASE[c] + Pow2(EXTRA_LBITS[c])
            && TokenBits(ll, dl, Match(len, dist))
               == (CodeBits(ll, LITERALS + 1 + c) + Lsb(len - LENGTH_BASE[c], EXTRA_LBITS[c])) + DistBits(dl, dist)
  {
    hide Lsb, CodeBits, LengthCode, DistCode, Pow2, DistBits;
    LengthCodeFits(len);
  }

  lemma MatchRoundTrip(ll: seq<nat>, dl: seq<nat>, bits: seq<bool>, pos: nat, len: nat, dist: nat)
    requires Decodable(ll, dl) && Sendable(ll, dl, Match(len, dist))
    requires StandsAt(bits, pos, TokenBits(ll, dl, Match(len, dist)))
    ensures DecodeToken(ll, dl, bits, pos) == Good(Some(Match(len, dist)), pos + |TokenBits(ll, dl, Match(len, dist))|)
  {
    hide Lsb, CodeBits, LengthCode, DistCode, StandsAt, DecodeSymbol, NotOversubscribed, Pow2, DecodeMatch, DistBits,
         TokenBits, DecodeToken, Sendable, LengthBits;
    var c := LengthCode(len);
    var ml, md :| NotOversubscribed(ll, ml) && NotOversubscribed(dl, md);
    MatchBits(ll, dl, len, dist);
    var lc, le := CodeBits(ll, LITERALS + 1 + c), Lsb(len - LENGTH_BASE[c], EXTRA_LBITS[c]);
    StandsConcat(bits, pos, lc + le, DistBits(dl, dist));
    StandsConcat(bits, pos, lc, le);
    DecodeCode(ll, bits, pos, LITERALS + 1 + c, ml);
    SymbolThenMatch(ll, dl, bits, pos, LITERALS + 1 + c);
    DistRoundTrip(dl, bits, pos + |lc|, c, len - LENGTH_BASE[c], dist, md);
  }

  lemma TokenRoundTrip(ll: seq<nat>, dl: seq<nat>, bits: seq<bool>, pos: nat, t: Token)
    requires Decodable(ll, dl) && Sendable(ll, dl, t) && StandsAt(bits, pos, TokenBits(ll, dl, t))
    ensures DecodeToken(ll, dl, bits, pos) == Good(Some(t), pos + |TokenBits(ll, dl, t)|)
  {
    match t
    case Literal(c) =>
      var ml :| NotOversubscribed(ll, ml);
      DecodeCode(ll, bits, pos, c, ml);
    case Match(len, dist) => MatchRoundTrip(ll, dl, bits, pos, len, dist);
  }

  /** Tokens followed by the end of the block are decoded wherever they stand. */
  lemma {:induction false} TokensRoundTrip(ll: seq<nat>, dl: seq<nat>, bits: seq<bool>, pos: nat, ts: seq<Token>)
    requires Decodable(ll, dl) && AllSendable(ll, dl, ts) && END_BLOCK < |ll| && ll[END_BLOCK] > 0
    requires StandsAt(bits, pos, TokensBits(ll, dl, ts) + CodeBits(ll, END_BLOCK))
    ensures DecodeTokens(ll, dl, bits, pos) == Good(ts, pos + |TokensBits(ll, dl, ts)| + ll[END_BLOCK])
    decreases |ts|
  {
    hide StandsAt, CodeBits, TokenBits, DecodeToken, Sendable;
    if ts == [] {
      assert TokensBits(ll, dl, ts) + CodeBits(ll, END_BLOCK) == CodeBits(ll, END_BLOCK);
      EndRoundTrip(ll, dl, bits, pos);
    } else {
      var t, rest := ts[0], ts[1..];
      TokensBitsFront(ll, dl, ts);
      Assoc(TokenBits(ll, dl, t), TokensBits(ll, dl, rest), CodeBits(ll, END_BLOCK));
      StandsConcat(bits, pos, TokenBits(ll, dl, t), TokensBits(ll, dl, rest) + CodeBits(ll, END_BLOCK));
      TokenRoundTrip(ll, dl, bits, pos, t);
      TokensRoundTrip(ll, dl, bits, pos + |TokenBits(ll, dl, t)|, rest);
      assert [t] + rest == ts;
    }
  }

  lemma EndRoundTrip(ll: seq<nat>, dl: seq<nat>, bits: seq<bool>, pos: nat)
    requires Decodable(ll, dl) && END_BLOCK < |ll| && ll[END_BLOCK] > 0 && StandsAt(bits, pos, CodeBits(ll, END_BLOCK))
    ensures DecodeToken(ll, dl, bits, pos) == Good(None, pos + ll[END_BLOCK])
  {
    var ml :| NotOversubscribed(ll, ml);
    DecodeCode(ll, bits, pos, END_BLOCK, ml);
  }
}
