/** compress_block of gzip.c: unpacking the tokens and sending them. */
module CompressBlock {
  import opened Bits
  import opened Canonical
  import opened Lz77
  import opened DeflateTables
  import opened DeflateFormat
  import opened BlockFormat
  import opened BlockCost
  import opened BitWriter
  import opened HuffmanBuild
  import opened TreeSend
  import opened StaticTables
  import opened TokenBuffer

  function Least(a: nat, b: nat): nat { if a < b then a else b }

  /** The flags of all tokens are in the flag buffer. */
  ghost predicate Saved(tb: Tokens)
    reads tb`tokens, tb.flagBuf
  {
    var k := Kinds(tb.tokens);
    && tb.flagBuf.Length == LIT_BUFSIZE / 8 && |k| < LIT_BUFSIZE
    && forall j :: 0 <= j && 8 * j < |k| ==> tb.flagBuf[j] == Value(k[8 * j..Least(8 * j + 8, |k|)])
  }

  /** Saves the flags of the last tokens. */
  method SaveFlags(tb: Tokens)
    requires tb.Valid()
    modifies tb.flagBuf
    ensures tb.Valid() && Saved(tb)
  {
    hide Value, Pow2;
    ghost var k := Kinds(tb.tokens);
    ghost var n := tb.lastFlags;
    IncompleteByte(k[8 * n..]);
    tb.flagBuf[tb.lastFlags] := tb.flags;
    forall j | 0 <= j && 8 * j < |k| ensures tb.flagBuf[j] == Value(k[8 * j..Least(8 * j + 8, |k|)]) {
      if j == n { assert k[8 * n..] == k[8 * n..Least(8 * n + 8, |k|)]; }
    }
  }

  lemma IncompleteByte(s: seq<bool>)
    requires |s| < 8
    ensures Value(s) < 256
  {
    ValueBound(s);
    Pow2Words();
    Pow2Monotone(|s|, 8);
  }

  lemma FlagStep(k: seq<bool>, i: nat, end: nat)
    requires i < end <= |k|
    ensures Value(k[i..end]) % 2 == 1 <==> k[i]
    ensures Value(k[i..end]) / 2 == Value(k[i + 1..end])
  {
    assert k[i..end][1..] == k[i + 1..end];
  }

  lemma {:induction false} DistsPrefix(ts: seq<Token>, i: nat)
    requires i <= |ts|
    ensures Dists(ts[..i]) <= Dists(ts)
    decreases |ts| - i
  {
    if i == |ts| {
      assert ts[..i] == ts;
    } else {
      assert ts[..i + 1] == ts[..i] + [ts[i]];
      DistsSnoc(ts[..i], ts[i]);
      DistsPrefix(ts, i + 1);
    }
  }

  lemma DistAt(ts: seq<Token>, i: nat)
    requires i < |ts|
    ensures |Dists(ts[..i + 1])| == |Dists(ts[..i])| + if ts[i].Match? then 1 else 0
    ensures ts[i].Match? ==> |Dists(ts[..i])| < |Dists(ts)| && Dists(ts)[|Dists(ts[..i])|] == ts[i].dist - 1
  {
    hide Dists;
    assert ts[..i + 1] == ts[..i] + [ts[i]];
    DistsSnoc(ts[..i], ts[i]);
    DistsPrefix(ts, i + 1);
  }

  lemma ExtraValues(t: Token)
    requires WellFormed(t) && t.Match?
    ensures var c, d := LengthCode(t.len), DistCode(t.dist);
            && 0 <= t.len - LENGTH_BASE[c] < Pow2(EXTRA_LBITS[c]) && EXTRA_LBITS[c] <= 5
            && 0 <= t.dist - DIST_BASE[d] < Pow2(EXTRA_DBITS[d]) && EXTRA_DBITS[d] <= 13
            && (EXTRA_LBITS[c] == 0 ==> Lsb(t.len - LENGTH_BASE[c], EXTRA_LBITS[c]) == [])
            && (EXTRA_DBITS[d] == 0 ==> Lsb(t.dist - DIST_BASE[d], EXTRA_DBITS[d]) == [])
  {
    hide LengthCode, DistCode;
    LengthCodeFits(t.len);
    DistCodeFits(t.dist);
    ExtraBounds(LengthCode(t.len));
    ExtraBounds(DistCode(t.dist));
  }

  /** Sends the length of a match. */
  method SendLength(out: Output, tab: Tables, lt: CtData, ghost ll: seq<nat>, lc: nat, ghost t: Token)
    requires out.Valid() && Correct(tab) && Holds(lt, ll)
    requires t.Match? && WellFormed(t) && lc == t.len - MIN_MATCH
    requires LITERALS + 1 + LengthCode(t.len) < |ll| && ll[LITERALS + 1 + LengthCode(t.len)] > 0
    modifies out, out.outbuf
    ensures out.Valid() && out.Sent() == old(out.Sent()) + LengthBits(ll, t.len)
  {
    hide CodeBits, Lsb, Output.Sent, Output.Valid, Pow2, Holds, LengthCode, DistCode;
    ghost var before := out.Sent();
    var code := tab.lengthCode[lc];
    assert code == NormalLengthCode(lc);
    ExtraValues(t);
    ghost var cb, eb := CodeBits(ll, code + LITERALS + 1), Lsb(t.len - LENGTH_BASE[code], EXTRA_LBITS[code]);
    SendCode(out, lt, code + LITERALS + 1, ll);
    var extra := EXTRA_LBITS[code];
    if extra != 0 {
      assert tab.baseLength[code] + MIN_MATCH == LENGTH_BASE[code];
      out.SendBits(lc - tab.baseLength[code], extra);
    }
    Assoc(before, cb, eb);
  }

  /** Sends the distance of a match. */
  method SendDist(out: Output, tab: Tables, dt: CtData, ghost dl: seq<nat>, dist: nat, ghost t: Token)
    requires out.Valid() && Correct(tab) && Holds(dt, dl)
    requires t.Match? && WellFormed(t) && dist == t.dist - 1
    requires DistCode(t.dist) < |dl| && dl[DistCode(t.dist)] > 0
    modifies out, out.outbuf
    ensures out.Valid() && out.Sent() == old(out.Sent()) + DistBits(dl, t.dist)
  {
    hide CodeBits, Lsb, Output.Sent, Output.Valid, Pow2, Holds, LengthCode, DistCode;
    ghost var before := out.Sent();
    var code := DCode(tab, dist);
    assert code == NormalDistCode(dist);
    ExtraValues(t);
    ghost var cb, eb := CodeBits(dl, code), Lsb(t.dist - DIST_BASE[code], EXTRA_DBITS[code]);
    SendCode(out, dt, code, dl);
    var extra := EXTRA_DBITS[code];
    if extra != 0 {
      out.SendBits(dist - tab.baseDist[code], extra);
    }
    Assoc(before, cb, eb);
  }

  /** Sends one token. */
  method SendToken(out: Output, tab: Tables, lt: CtData, dt: CtData, ghost ll: seq<nat>, ghost dl: seq<nat>, lc: byte,
                   isMatch: bool, dist: nat, ghost t: Token)
    requires out.Valid() && Correct(tab) && Holds(lt, ll) && Holds(dt, dl) && Sendable(ll, dl, t) && WellFormed(t)
    requires lc == LitByte(t) && isMatch == t.Match? && (isMatch ==> dist == t.dist - 1)
    modifies out, out.outbuf
    ensures out.Valid() && out.Sent() == old(out.Sent()) + TokenBits(ll, dl, t)
  {
    hide CodeBits, Output.Sent, Output.Valid, Holds, Correct, LengthBits, DistBits, LengthCode, DistCode;
    if !isMatch {
      SendCode(out, lt, lc, ll);
    } else {
      ghost var before := out.Sent();
      SendLength(out, tab, lt, ll, lc, t);
      SendDist(out, tab, dt, dl, dist, t);
      Assoc(before, LengthBits(ll, t.len), DistBits(dl, t.dist));
    }
  }

  lemma TokensBitsSnoc(ll: seq<nat>, dl: seq<nat>, ts: seq<Token>, i: nat)
    requires i < |ts| && AllSendable(ll, dl, ts)
    ensures AllSendable(ll, dl, ts[..i]) && AllSendable(ll, dl, ts[..i + 1])
    ensures TokensBits(ll, dl, ts[..i + 1]) == TokensBits(ll, dl, ts[..i]) + TokenBits(ll, dl, ts[i])
  {
    hide TokenBits, Sendable;
    assert ts[..i + 1][..i] == ts[..i];
  }

  /** What is read next from the buffers. */
  ghost predicate Reading(ts: seq<Token>, lx: nat, dx: nat, fx: nat, flag: nat) {
    lx <= |ts| && dx == |Dists(ts[..lx])| && fx == (lx + 7) / 8 && flag == Value(Kinds(ts)[lx..Least(8 * fx, |ts|)])
  }

  lemma ReadNext(ts: seq<Token>, lx: nat, dx: nat, flag: nat)
    requires lx < |ts| && dx == |Dists(ts[..lx])| && flag == Value(Kinds(ts)[lx..Least(8 * (lx / 8 + 1), |ts|)])
    ensures flag % 2 == 1 <==> ts[lx].Match?
    ensures Reading(ts, lx + 1, if ts[lx].Match? then dx + 1 else dx, lx / 8 + 1, flag / 2)
    ensures ts[lx].Match? ==> dx < |Dists(ts)| && Dists(ts)[dx] == ts[lx].dist - 1
  {
    hide Dists, Value, Kinds;
    FlagStep(Kinds(ts), lx, Least(8 * (lx / 8 + 1), |ts|));
    DistAt(ts, lx);
  }

  /** Sends all tokens of the block and its end. */
  method Compress(out: Output, tb: Tokens, tab: Tables, lt: CtData, dt: CtData, ghost ll: seq<nat>, ghost dl: seq<nat>)
    requires out.Valid() && tb.Valid() && Saved(tb) && Correct(tab) && Holds(lt, ll) && Holds(dt, dl)
    requires out.outbuf != tb.lBuf && out.outbuf != tb.flagBuf
    requires AllSendable(ll, dl, tb.tokens) && END_BLOCK < |ll| && ll[END_BLOCK] > 0
    modifies out, out.outbuf
    ensures out.Valid() && out.Sent() == old(out.Sent()) + BodyBits(ll, dl, tb.tokens)
  {
    hide CodeBits, Output.Sent, Output.Valid, Holds, Correct, TokensBits, TokenBits, Value, Kinds, Dists, Sendable;
    ghost var before := out.Sent();
    ghost var ts := tb.tokens;
    var lx, dx, fx, flag := 0, 0, 0, 0;
    StartReading(ll, dl, ts, before);
    while lx < tb.lastLit
      invariant out.Valid() && Reading(ts, lx, dx, fx, flag) && AllSendable(ll, dl, ts[..lx])
      invariant out.Sent() == before + TokensBits(ll, dl, ts[..lx])
    {
      if lx % 8 == 0 {
        flag := tb.flagBuf[fx];
        fx := fx + 1;
      }
      var lc := tb.lBuf[lx];
      ReadNext(ts, lx, dx, flag);
      TokensBitsSnoc(ll, dl, ts, lx);
      Assoc(before, TokensBits(ll, dl, ts[..lx]), TokenBits(ll, dl, ts[lx]));
      if flag % 2 == 0 {
        SendToken(out, tab, lt, dt, ll, dl, lc, false, 0, ts[lx]);
      } else {
        SendToken(out, tab, lt, dt, ll, dl, lc, true, tb.dBuf[dx], ts[lx]);
        dx := dx + 1;
      }
      lx := lx + 1;
      flag := flag / 2;
    }
    assert ts[..lx] == ts;
    SendCode(out, lt, END_BLOCK, ll);
    Assoc(before, TokensBits(ll, dl, ts), CodeBits(ll, END_BLOCK));
  }

  lemma StartReading(ll: seq<nat>, dl: seq<nat>, ts: seq<Token>, before: seq<bool>)
    ensures Reading(ts, 0, 0, 0, 0) && AllSendable(ll, dl, ts[..0]) && before == before + TokensBits(ll, dl, ts[..0])
  {
    assert Kinds(ts)[0..0] == [];
    assert ts[..0] == [];
  }
}
