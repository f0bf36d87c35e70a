/** The blocks written so far and the tokens waiting, as an encoding of the input consumed. */
module BlockStream {
  import opened Bits
  import opened Lz77
  import opened Canonical
  import opened Inflate
  import opened BlockFormat
  import opened BitWriter
  import opened StaticTables
  import opened TokenBuffer
  import opened BlockEncoder
  import HashChains

  /** Whatever follows the bits sent, a decoder that starts at `start` has read `data` when it comes to their end. */
  ghost predicate Decoded(sent: seq<bool>, start: nat, data: seq<byte>) {
    start <= |sent| && forall bits :: sent <= bits ==> DecodeBlocks(bits, start, []) == DecodeBlocks(bits, |sent|, data)
  }

  lemma DecodedStart(sent: seq<bool>)
    ensures Decoded(sent, |sent|, [])
  {
  }

  lemma StandsAfter(bits: seq<bool>, sent: seq<bool>, block: seq<bool>)
    requires sent + block <= bits
    ensures sent <= bits && StandsAt(bits, |sent|, block) && |sent| + |block| <= |bits|
  {
    assert (sent + block)[|sent|..] == block;
    assert bits[..|sent + block|] == sent + block;
    assert bits[|sent|..|sent| + |block|] == (sent + block)[|sent|..];
    assert sent == (sent + block)[..|sent|] == bits[..|sent|];
  }

  lemma BlockNotEmpty(block: seq<bool>, pos: nat, before: seq<byte>, data: seq<byte>, last: bool)
    requires Encodes(block, pos, before, data, last)
    ensures |block| >= 3
  {
    hide DecodeStored, DecodeTokens, DecodeTrees;
    var bits := seq(pos, i => false) + block;
    assert bits[pos..pos + |block|] == block;
    assert StandsAt(bits, pos, block);
    assert |bits| == pos + |block|;
  }

  /** One more block continues the decoding. */
  lemma DecodedBlock(sent: seq<bool>, start: nat, before: seq<byte>, data: seq<byte>, block: seq<bool>)
    requires Decoded(sent, start, before) && Encodes(block, |sent|, before, data, false)
    ensures Decoded(sent + block, start, before + data)
  {
    hide DecodeBlock, StandsAt;
    BlockNotEmpty(block, |sent|, before, data, false);
    forall bits | sent + block <= bits
      ensures DecodeBlocks(bits, start, []) == DecodeBlocks(bits, |sent + block|, before + data)
    {
      StandsAfter(bits, sent, block);
    }
  }

  /** The last block ends the decoding. */
  lemma DecodedLast(sent: seq<bool>, start: nat, before: seq<byte>, data: seq<byte>, block: seq<bool>, bits: seq<bool>)
    requires Decoded(sent, start, before) && Encodes(block, |sent|, before, data, true) && sent + block <= bits
    ensures DecodeBlocks(bits, start, []) == Good(before + data, |sent + block|)
  {
    hide DecodeBlock, StandsAt;
    StandsAfter(bits, sent, block);
  }

  /** Token `t` stands for the input from `done` on. */
  ghost predicate TokenFits(all: seq<byte>, done: nat, t: Token) {
    match t
    case Literal(c) => done < |all| && all[done] == c
    case Match(len, dist) => 1 <= dist <= done && done + len <= |all| && forall i :: done <= i < done + len ==>
      all[i] == all[i - dist]
  }

  lemma ExpandNext(all: seq<byte>, bs: nat, done: nat, ts: seq<Token>, t: Token)
    requires bs <= done <= |all| && Expand(all[..bs], ts) == Some(all[..done]) && TokenFits(all, done, t)
    ensures done + TokenLength(t) <= |all| && Expand(all[..bs], ts + [t]) == Some(all[..done + TokenLength(t)])
  {
    hide Expand;
    ExpandSnoc(all[..bs], ts, t, all[..done]);
    match t
    case Literal(c) => assert all[..done] + [c] == all[..done + 1];
    case Match(len, dist) => CopyMatches(all, done, dist, len);
  }

  /** Every match has a length and a distance that deflate promises. */
  ghost predicate Near(ts: seq<Token>) {
    forall i :: 0 <= i < |ts| && ts[i].Match? ==> 3 <= ts[i].len <= 258 && 1 <= ts[i].dist <= HashChains.MAX_DIST
  }

  /** The tokens stand for the input up to `done`. */
  ghost predicate Replays(ts: seq<Token>, all: seq<byte>, done: int) {
    0 <= done <= |all| && Expand([], ts) == Some(all[..done]) && Near(ts)
  }

  lemma ReplaysNext(ts: seq<Token>, all: seq<byte>, done: nat, dist: nat, lc: byte)
    requires Replays(ts, all, done) && TokenFits(all, done, TokenFor(dist, lc)) && dist <= HashChains.MAX_DIST
    ensures Replays(ts + [TokenFor(dist, lc)], all, done + TokenLength(TokenFor(dist, lc)))
  {
    hide Expand, TokenFits;
    assert all[..0] == [];
    ExpandNext(all, 0, done, ts, TokenFor(dist, lc));
  }

  /** All input up to `done` is encoded: up to `bs` in finished blocks, the rest in the tokens waiting. */
  ghost predicate Encoded(e: Encoder, all: seq<byte>, bs: int, done: int, head: seq<bool>)
    reads e.Repr()
  {
    && e.Valid() && Counts(e.compressedLen, |e.out.Sent()|, e.skip)
    && 0 <= bs <= done <= |all| && head <= e.out.Sent() && Decoded(e.out.Sent(), |head|, all[..bs])
    && Expand(all[..bs], e.tb.tokens) == Some(all[..done]) && Replays(e.log, all, done) && EndsIn(e.log, e.tb.tokens)
  }

  /** The tokens waiting are the last ones. */
  ghost predicate EndsIn(log: seq<Token>, tokens: seq<Token>) {
    |tokens| <= |log| && log[|log| - |tokens|..] == tokens
  }

  lemma EndsInNext(log: seq<Token>, tokens: seq<Token>, t: Token)
    requires EndsIn(log, tokens)
    ensures EndsIn(log + [t], tokens + [t])
  {
  }

  /** Tokens for more than the input read so far: reading on changes nothing. */
  lemma EncodedMore(e: Encoder, all: seq<byte>, more: seq<byte>, bs: int, done: int, head: seq<bool>)
    requires Encoded(e, all, bs, done, head) && all <= more
    ensures Encoded(e, more, bs, done, head)
  {
    assert more[..bs] == all[..bs] && more[..done] == all[..done];
  }

  /** Adds one token for the next input. */
  method AddToken(e: Encoder, dist: nat, lc: byte, inLength: nat, ghost all: seq<byte>, ghost bs: int, ghost done: int,
                  ghost head: seq<bool>)
    returns (flush: bool)
    requires Encoded(e, all, bs, done, head) && |e.tb.tokens| + 1 < LIT_BUFSIZE && dist <= HashChains.MAX_DIST
    requires TokenFits(all, done, TokenFor(dist, lc))
    modifies e.Parts()
    ensures Encoded(e, all, bs, done + TokenLength(TokenFor(dist, lc)), head)
    ensures !flush ==> |e.tb.tokens| + 1 < LIT_BUFSIZE
    ensures e.out.Sent() == old(e.out.Sent()) && e.log == old(e.log) + [TokenFor(dist, lc)]
  {
    hide Decoded, Expand, TokenFits, Tokens.LitsKept, Tokens.DistsKept, Tokens.FlagsKept, Output.Valid, Output.Sent,
         Correct, BlockEncoder.Encoder.Statics,
         BlockEncoder.Encoder.BlClear;
    hide Replays, EndsIn;
    EndsInNext(e.log, e.tb.tokens, TokenFor(dist, lc));
    ExpandNext(all, bs, done, e.tb.tokens, TokenFor(dist, lc));
    ReplaysNext(e.log, all, done, dist, lc);
    e.log := e.log + [TokenFor(dist, lc)];
    flush := e.tb.Tally(e.tab, e.lt, e.dt, dist, lc, inLength);
  }

  /** Writes the waiting tokens as a block that is not the last. */
  method EndBlock(e: Encoder, buf: Option<seq<byte>>, storedLen: nat, ghost all: seq<byte>, ghost bs: int,
                  ghost done: int, ghost head: seq<bool>)
    requires Encoded(e, all, bs, done, head) && storedLen == done - bs
    requires buf.Some? ==> buf.value == all[bs..done] && storedLen < 65536
    modifies e.Parts()
    ensures Encoded(e, all, done, done, head) && e.tb.tokens == [] && e.log == old(e.log)
  {
    hide Decoded, Encodes, Expand, Output.Sent, Chosen, Encoder.Valid, Counts, Replays;
    ghost var sent := e.out.Sent();
    ghost var ts := e.tb.tokens;
    var r, block, plan := FlushBlock(e, buf, storedLen, false);
    assert all[..bs] + all[bs..done] == all[..done];
    NotKept(block, ts, all[bs..done], buf, |sent|, false, plan);
    ChosenEncodes(block, ts, all[bs..done], buf.Some?, |sent|, false, plan, all[..bs]);
    DecodedBlock(sent, |head|, all[..bs], all[bs..done], block);
    NothingExpands(all[..done]);
    assert (sent + block) + [] == sent + block;
  }

  lemma NothingExpands(data: seq<byte>)
    ensures Expand(data, []) == Some(data)
  {
  }

  /** The data does not matter when it is no longer kept. */
  lemma NotKept(block: seq<bool>, ts: seq<Token>, data: seq<byte>, buf: Option<seq<byte>>, pos: nat, eof: bool,
                plan: Plan)
    requires Chosen(block, ts, Kept(buf), buf.Some?, pos, eof, plan)
    requires (buf.Some? ==> buf.value == data)
    ensures Chosen(block, ts, data, buf.Some?, pos, eof, plan)
  {
    hide PlanFor, PlanBits, FixedBits, StoredBits;
  }

  /** Writes the waiting tokens as the last block: the output decodes to all input. */
  method EndLastBlock(e: Encoder, buf: Option<seq<byte>>, storedLen: nat, ghost all: seq<byte>, ghost bs: int,
                      ghost head: seq<bool>)
    returns (r: nat, ghost end: nat)
    requires Encoded(e, all, bs, |all|, head) && storedLen == |all| - bs
    requires buf.Some? ==> buf.value == all[bs..] && storedLen < 65536
    modifies e.Parts()
    ensures e.out.Valid() && e.out.biValid == 0 && e.out.Sent() == BytesToBits(e.out.bytes)
    ensures end <= |e.out.Sent()| < end + 8 && head <= e.out.Sent() && e.log == old(e.log)
    ensures forall bits :: e.out.Sent() <= bits ==> DecodeBlocks(bits, |head|, []) == Good(all, end)
  {
    hide Decoded, Encodes, Expand, Replays, Output.Sent, Output.Valid, Chosen, Counts, Lsb, BytesToBits, DecodeBlocks,
         Encoder.Layout, Encoder.Sizes,
         Encoder.Statics, Encoder.BlClear, Tokens.Valid, Counted, Correct;
    ghost var sent := e.out.Sent();
    ghost var ts := e.tb.tokens;
    ghost var block, plan;
    r, block, plan := FlushBlock(e, buf, storedLen, true);
    assert all[..bs] + all[bs..] == all && all[..|all|] == all;
    NotKept(block, ts, all[bs..], buf, |sent|, true, plan);
    ChosenEncodes(block, ts, all[bs..], buf.Some?, |sent|, true, plan, all[..bs]);
    end := |sent + block|;
    forall bits | e.out.Sent() <= bits ensures DecodeBlocks(bits, |head|, []) == Good(all, end) {
      assert sent + block <= e.out.Sent();
      DecodedLast(sent, |head|, all[..bs], all[bs..], block, bits);
    }
  }
}
