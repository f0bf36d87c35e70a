/** The token encoder of lzo1x_9x.c: code_match, STORE_RUN, code_run and len_of_coded_match, over any parse of the
    input. */
module Lzo999 {
  import opened Bits
  import Lz77
  import opened LzoFormat
  import opened LzoDecode
  import LzoDecodes
  import opened LzoSize
  import opened LzoEncode
  import opened LzoCompress

  /** The form of a match after `lit` literals. */
  function KindAfter(len: nat, off: nat, lit: nat): Kind {
    if len == 2 then M1
    else if len <= M2_MAX_LEN && off <= M2_MAX_OFFSET then M2
    else if len == 3 && off <= M2_MAX_OFFSET + M1_MAX_OFFSET && lit >= 4 then MX
    else if off <= M3_MAX_OFFSET then M3
    else M4
  }

  /** The matches that can be coded after `lit` literals. */
  predicate Codable(len: nat, off: nat, lit: nat) {
    1 <= off <= M4_MAX_OFFSET && (len >= 3 || (len == 2 && off <= M1_MAX_OFFSET && 0 < lit < 4))
  }

  lemma CodableInRange(len: nat, off: nat, lit: nat)
    requires Codable(len, off, lit)
    ensures InRange(KindAfter(len, off, lit), len, off)
  {
  }

  /** How many bytes a match takes, or -1 if it cannot be coded. */
  function CodedLength(len: nat, off: nat, lit: nat): int
    requires off >= 1
  {
    if Codable(len, off, lit) then
      CodableInRange(len, off, lit);
      |MatchHead(KindAfter(len, off, lit), len, off, 0)|
    else -1
  }

  /** len_of_coded_match gives the exact number of bytes that code_match writes. */
  method LenOfCodedMatch(mLen: nat, mOff: nat, lit: nat) returns (n: int)
    requires mOff >= 1
    ensures n == CodedLength(mLen, mOff, lit)
  {
    hide LongNumber;
    n := 4;
    if mLen < 2 { return -1; }
    if mLen == 2 { return if mOff <= M1_MAX_OFFSET && lit > 0 && lit < 4 then 2 else -1; }
    if mLen <= M2_MAX_LEN && mOff <= M2_MAX_OFFSET { return 2; }
    if mLen == 3 && mOff <= M2_MAX_OFFSET + M1_MAX_OFFSET && lit >= 4 { return 2; }
    var left := mLen;
    if mOff <= M3_MAX_OFFSET {
      if mLen <= M3_MAX_LEN { return 3; }
      left := left - M3_MAX_LEN;
    } else if mOff <= M4_MAX_OFFSET {
      if mLen <= M4_MAX_LEN { return 3; }
      left := left - M4_MAX_LEN;
    } else {
      return -1;
    }
    ghost var first := left;
    while left > 255
      invariant left > 0 && n + |LongNumber(left)| == 4 + |LongNumber(first)|
    {
      LongStep(left);
      left := left - 255;
      n := n + 1;
    }
    LongLast(left);
  }

  /** The encoder's state: the output, and how many literals came before the next match. */
  class Coder {
    const out: array<byte>
    var r1Lit: nat

    constructor (size: nat)
      ensures out.Length == size && fresh(out)
    {
      out := new byte[size];
      r1Lit := 0;
    }

    /** Writes a match. */
    method CodeMatch(op: nat, mLen: nat, mOff: nat) returns (p: nat)
      requires Codable(mLen, mOff, r1Lit) && op + CodedLength(mLen, mOff, r1Lit) <= out.Length
      modifies out
      ensures p == op + CodedLength(mLen, mOff, r1Lit)
      ensures InRange(KindAfter(mLen, mOff, r1Lit), mLen, mOff)
      ensures out[..p] == old(out[..op]) + MatchHead(KindAfter(mLen, mOff, r1Lit), mLen, mOff, 0)
    {
      hide LongNumber, LengthHead, OffsetBytes;
      if mLen == 2 {
        LzoDecodes.M1Fields(mOff - 1, 0);
        p := PutTwo(out, op, (mOff - 1) % 4 * 4, (mOff - 1) / 4);
      } else if mLen <= M2_MAX_LEN && mOff <= M2_MAX_OFFSET {
        p := PutM2(out, op, mLen, mOff);
      } else if mLen == 3 && mOff <= M2_MAX_OFFSET + M1_MAX_OFFSET && r1Lit >= 4 {
        var o := mOff - 1 - M2_MAX_OFFSET;
        LzoDecodes.M1Fields(o, 0);
        p := PutTwo(out, op, o % 4 * 4, o / 4);
      } else if mOff <= M3_MAX_OFFSET {
        p := PutM3(out, op, mLen, mOff);
      } else {
        p := PutM4(out, op, mLen, mOff);
      }
    }

    /** Writes the literals before a match. */
    method CodeRun(op: nat, data: seq<byte>, ii: nat, lit: nat, ghost ins: seq<Instr>) returns (p: nat)
      requires AllSound(ins) && (ins == [] || EndsInMatch(ins)) && ii + lit <= |data| && (op == 0 <==> ins == [])
      requires AllSound(LastLits(ins, data[ii..ii + lit])) && |Stream(LastLits(ins, data[ii..ii + lit]))| <= out.Length
      requires op <= out.Length && out[..op] == Stream(ins)
      modifies this`r1Lit, out
      ensures r1Lit == lit && p <= out.Length && out[..p] == Stream(LastLits(ins, data[ii..ii + lit]))
    {
      hide Stream, LastLits, Sound, EndsInMatch;
      p := op;
      if lit > 0 {
        p := StoreLast(out, op, data, ii, lit, ins);
      } else {
        NoLits(ins, data[ii..ii + lit]);
      }
      r1Lit := lit;
    }
  }

  // ---- whole parses

  /** A piece of a parse: some literals, then a match. */
  datatype Piece = Piece(lit: nat, len: nat, off: nat)

  /** The pieces parse `data` from `pos` on, within what code_match and code_run assert; the last bytes are literals. */
  ghost predicate Parses(data: seq<byte>, pos: nat, pieces: seq<Piece>)
    decreases |pieces|
  {
    pos <= |data| && (pieces != [] ==>
      var p := pieces[0];
      && Codable(p.len, p.off, p.lit) && Repeats(data, pos + p.lit, p.off, p.len) && (pos == 0 ==> p.lit > 0)
      && Parses(data, pos + p.lit + p.len, pieces[1..]))
  }

  /** The test of lzo1x_999_compress_internal: no match of three bytes from far behind four or more literals. */
  ghost predicate Sparing(pieces: seq<Piece>) {
    forall i :: 0 <= i < |pieces| && pieces[i].lit >= 4 && pieces[i].len == 3 ==>
      pieces[i].off <= M2_MAX_OFFSET + M1_MAX_OFFSET
  }

  /** The match of a piece is no shorter than its code, and longer behind a run. */
  lemma PieceThrifty(p: Piece, st: State)
    requires Codable(p.len, p.off, p.lit) && (st == AfterRun ==> p.lit >= 4)
    requires p.lit >= 4 && p.len == 3 ==> p.off <= M2_MAX_OFFSET + M1_MAX_OFFSET
    ensures Thrifty(st, Copy(KindAfter(p.len, p.off, p.lit), p.len, p.off, []))
  {
    hide LongNumber;
    CodableInRange(p.len, p.off, p.lit);
  }

  ghost function AddPiece(data: seq<byte>, pos: nat, ins: seq<Instr>, p: Piece): seq<Instr>
    requires pos + p.lit <= |data|
  {
    LastLits(ins, data[pos..pos + p.lit]) + [Copy(KindAfter(p.len, p.off, p.lit), p.len, p.off, [])]
  }

  /** The instructions for a parse, after `ins`. */
  ghost function CodeAll(data: seq<byte>, pos: nat, ins: seq<Instr>, pieces: seq<Piece>): seq<Instr>
    requires Parses(data, pos, pieces)
    decreases |pieces|
  {
    if pieces == [] then LastLits(ins, data[pos..])
    else CodeAll(data, pos + pieces[0].lit + pieces[0].len, AddPiece(data, pos, ins, pieces[0]), pieces[1..])
  }

  /** The lengths and distances of the matches in a stream. */
  ghost function MatchesOf(ins: seq<Instr>): seq<(nat, nat)> {
    if ins == [] then []
    else
      var i := ins[|ins| - 1];
      MatchesOf(ins[..|ins| - 1]) + if i.Copy? then [(i.len, i.off)] else []
  }

  lemma MatchesSnoc(ins: seq<Instr>, i: Instr)
    ensures MatchesOf(ins + [i]) == MatchesOf(ins) + if i.Copy? then [(i.len, i.off)] else []
  {
    assert (ins + [i])[..|ins|] == ins;
  }

  lemma LitsKeepMatches(ins: seq<Instr>, lits: seq<byte>)
    ensures MatchesOf(LastLits(ins, lits)) == MatchesOf(ins)
  {
    if lits != [] {
      if ins == [] && |lits| <= 238 {
        MatchesSnoc([], First(lits));
        assert [] + [First(lits)] == [First(lits)];
      } else if |lits| <= 3 && EndsInMatch(ins) {
        var n := |ins| - 1;
        MatchesSnoc(ins[..n], ins[n]);
        MatchesSnoc(ins[..n], ins[n].(tail := lits));
      } else {
        MatchesSnoc(ins, Run(lits));
      }
    }
  }

  /** The matches of a parse are coded as they are, and no others. */
  lemma {:induction false} MatchesCoded(data: seq<byte>, pos: nat, ins: seq<Instr>, pieces: seq<Piece>)
    requires Parses(data, pos, pieces)
    ensures MatchesOf(CodeAll(data, pos, ins, pieces))
         == MatchesOf(ins) + seq(|pieces|, i requires 0 <= i < |pieces| => (pieces[i].len, pieces[i].off))
    decreases |pieces|
  {
    hide LastLits, Codable, Repeats, MatchesOf;
    if pieces == [] {
      LitsKeepMatches(ins, data[pos..]);
    } else {
      var p, rest := pieces[0], pieces[1..];
      var next := AddPiece(data, pos, ins, p);
      LitsKeepMatches(ins, data[pos..pos + p.lit]);
      MatchesSnoc(LastLits(ins, data[pos..pos + p.lit]), Copy(KindAfter(p.len, p.off, p.lit), p.len, p.off, []));
      MatchesCoded(data, pos + p.lit + p.len, next, rest);
      assert seq(|pieces|, i requires 0 <= i < |pieces| => (pieces[i].len, pieces[i].off))
          == [(p.len, p.off)] + seq(|rest|, i requires 0 <= i < |rest| => (rest[i].len, rest[i].off));
    }
  }

  /** No form that may stand behind `lit` literals codes a match in fewer bytes. */
  lemma KindIsShortest(len: nat, off: nat, lit: nat, k: Kind)
    requires InRange(k, len, off) && (k == M1 ==> 0 < lit < 4) && (k == MX ==> lit >= 4)
    ensures Codable(len, off, lit) && CodedLength(len, off, lit) <= |MatchHead(k, len, off, 0)|
  {
    hide LongNumber;
  }

  /** What is known between two pieces. */
  ghost predicate Between(ins: seq<Instr>, data: seq<byte>, pos: nat, lean: bool) {
    pos <= |data| && Good(ins, data[..pos], lean) && (ins == [] || EndsInMatch(ins)) && (ins == [] <==> pos == 0)
  }

  lemma LitsGood(ins: seq<Instr>, data: seq<byte>, pos: nat, lit: nat, lean: bool)
    requires Between(ins, data, pos, lean) && pos + lit <= |data| && (pos == 0 ==> lit > 0)
    ensures Good(LastLits(ins, data[pos..pos + lit]), data[..pos + lit], lean)
    ensures LastLits(ins, data[pos..pos + lit]) != []
    ensures var st := After(Start, LastLits(ins, data[pos..pos + lit]));
      st != Start && (0 < lit < 4 ==> st == AfterShort) && (lit >= 4 <==> st == AfterRun)
  {
    hide Good;
    var lits := data[pos..pos + lit];
    assert data[..pos] + lits == data[..pos + lit];
    LastGood(ins, data[..pos], lits, lean);
    if ins != [] { GoodLits(ins, data[..pos], lits, lean); }
  }

  lemma PieceGood(ins: seq<Instr>, data: seq<byte>, pos: nat, p: Piece, lean: bool)
    requires Between(ins, data, pos, lean) && Codable(p.len, p.off, p.lit)
    requires Repeats(data, pos + p.lit, p.off, p.len) && (pos == 0 ==> p.lit > 0)
    requires lean && p.lit >= 4 && p.len == 3 ==> p.off <= M2_MAX_OFFSET + M1_MAX_OFFSET
    ensures Between(AddPiece(data, pos, ins, p), data, pos + p.lit + p.len, lean)
  {
    hide Good, LastLits, MatchHead, Lz77.CopyFrom, Thrifty;
    var at := pos + p.lit;
    LitsGood(ins, data, pos, p.lit, lean);
    if lean { PieceThrifty(p, After(Start, LastLits(ins, data[pos..at]))); }
    CodableInRange(p.len, p.off, p.lit);
    Lz77.CopyMatches(data, at, p.off, p.len);
    assert data[..at + p.len] + [] == data[..at + p.len];
    GoodSnoc(LastLits(ins, data[pos..at]), data[..at], Copy(KindAfter(p.len, p.off, p.lit), p.len, p.off, []), lean);
  }

  /** Every parse is coded by a well-formed stream for exactly the data, and a sparing one by a lean stream. */
  lemma {:induction false} CodeAllGood(data: seq<byte>, pos: nat, ins: seq<Instr>, pieces: seq<Piece>, lean: bool)
    requires Between(ins, data, pos, lean) && Parses(data, pos, pieces) && (lean ==> Sparing(pieces))
    ensures Good(CodeAll(data, pos, ins, pieces), data, lean)
    decreases |pieces|
  {
    hide Good, LastLits, AddPiece, EndsInMatch;
    if pieces == [] {
      assert data[..pos] + data[pos..] == data;
      LastGood(ins, data[..pos], data[pos..], lean);
    } else {
      PieceGood(ins, data, pos, pieces[0], lean);
      CodeAllGood(data, pos + pieces[0].lit + pieces[0].len, AddPiece(data, pos, ins, pieces[0]), pieces[1..], lean);
    }
  }

  /** Streams only grow. */
  lemma LitsGrow(ins: seq<Instr>, lits: seq<byte>)
    requires AllSound(ins) && (ins == [] || EndsInMatch(ins)) && AllSound(LastLits(ins, lits))
    requires (1 <= |lits| <= 3 ==> ins == [] || EndsInMatch(ins))
    ensures |Stream(ins)| <= |Stream(LastLits(ins, lits))|
  {
    hide Stream, Sound, EndsInMatch;
    if ins == [] {
      EmptyStream();
    } else if lits != [] && |lits| <= 3 {
      PatchedStream(ins, lits);
    } else if lits != [] {
      RunSound(lits);
      StreamSnoc(ins, Run(lits));
    }
  }

  lemma {:induction false} CodeAllGrows(data: seq<byte>, pos: nat, ins: seq<Instr>, pieces: seq<Piece>)
    requires Between(ins, data, pos, false) && Parses(data, pos, pieces)
    ensures AllSound(ins) && AllSound(CodeAll(data, pos, ins, pieces))
    ensures |Stream(ins)| <= |Stream(CodeAll(data, pos, ins, pieces))|
    decreases |pieces|
  {
    hide Good, LastLits, AddPiece, Stream, EndsInMatch;
    GoodIsSound(ins, data[..pos]);
    CodeAllGood(data, pos, ins, pieces, false);
    GoodIsSound(CodeAll(data, pos, ins, pieces), data);
    if pieces == [] {
      LitsGrow(ins, data[pos..]);
    } else {
      PieceGrows(ins, data, pos, pieces[0]);
      PieceGood(ins, data, pos, pieces[0], false);
      CodeAllGrows(data, pos + pieces[0].lit + pieces[0].len, AddPiece(data, pos, ins, pieces[0]), pieces[1..]);
    }
  }

  lemma GoodIsSound(ins: seq<Instr>, data: seq<byte>)
    requires Good(ins, data, false)
    ensures AllSound(ins)
  {
  }

  lemma PieceGrows(ins: seq<Instr>, data: seq<byte>, pos: nat, p: Piece)
    requires Between(ins, data, pos, false) && Codable(p.len, p.off, p.lit)
    requires Repeats(data, pos + p.lit, p.off, p.len) && (pos == 0 ==> p.lit > 0)
    ensures AllSound(ins) && AllSound(AddPiece(data, pos, ins, p)) && AllSound(LastLits(ins, data[pos..pos + p.lit]))
    ensures |Stream(ins)| <= |Stream(LastLits(ins, data[pos..pos + p.lit]))|
    ensures InRange(KindAfter(p.len, p.off, p.lit), p.len, p.off)
    ensures Stream(AddPiece(data, pos, ins, p))
            == Stream(LastLits(ins, data[pos..pos + p.lit])) +
              MatchHead(KindAfter(p.len, p.off, p.lit), p.len, p.off, 0)
  {
    hide Good, LastLits, Stream, EndsInMatch, MatchHead;
    var lits := data[pos..pos + p.lit];
    GoodIsSound(ins, data[..pos]);
    LitsGood(ins, data, pos, p.lit, false);
    GoodIsSound(LastLits(ins, lits), data[..pos + p.lit]);
    LitsGrow(ins, lits);
    CodableInRange(p.len, p.off, p.lit);
    var i := Copy(KindAfter(p.len, p.off, p.lit), p.len, p.off, []);
    StreamSnoc(LastLits(ins, lits), i);
    assert Bytes(i) == MatchHead(i.kind, p.len, p.off, 0) + [];
  }

  /** Encodes a whole parse; the stream stands for exactly the data, and is decoded back. */
  method Encode(c: Coder, data: seq<byte>, pieces: seq<Piece>) returns (outLen: nat, ghost ins: seq<Instr>)
    requires Parses(data, 0, pieces) && AllSound(CodeAll(data, 0, [], pieces))
    requires |File(CodeAll(data, 0, [], pieces))| <= c.out.Length
    modifies c, c.out
    ensures ins == CodeAll(data, 0, [], pieces) && Good(ins, data, Sparing(pieces)) && AllSound(ins)
    ensures outLen <= c.out.Length && c.out[..outLen] == File(ins)
    ensures 1 <= outLen && (outLen < 0x1_0000_0000 ==> Decode(c.out[..outLen], outLen, |data|) == Halt(Ok, data))
  {
    hide Good, LastLits, AddPiece, Stream, EndsInMatch, MatchHead;
    ghost var goal := CodeAll(data, 0, [], pieces);
    var pos: nat, op: nat, k: nat := 0, 0, 0;
    ins := [];
    NoPieces(data, pieces, c.out[..0]);
    CodeAllGood(data, 0, [], pieces, Sparing(pieces));
    while k < |pieces|
      invariant k <= |pieces| && Between(ins, data, pos, false) && Parses(data, pos, pieces[k..])
      invariant CodeAll(data, pos, ins, pieces[k..]) == goal
      invariant op <= c.out.Length && AllSound(ins) && c.out[..op] == Stream(ins)
    {
      var p := pieces[k];
      ghost var next := AddPiece(data, pos, ins, p);
      assert pieces[k..][0] == p && pieces[k..][1..] == pieces[k + 1..];
      PieceGrows(ins, data, pos, p);
      PieceGood(ins, data, pos, p, false);
      CodeAllGrows(data, pos + p.lit + p.len, next, pieces[k + 1..]);
      StartOrNot(ins, op);
      op := c.CodeRun(op, data, pos, p.lit, ins);
      op := c.CodeMatch(op, p.len, p.off);
      pos := pos + p.lit + p.len;
      ins := next;
      k := k + 1;
    }
    assert pieces[k..] == [];
    assert data[pos..] == data[pos..pos + (|data| - pos)];
    StartOrNot(ins, op);
    if pos < |data| {
      op := StoreLast(c.out, op, data, pos, |data| - pos, ins);
    } else {
      NoLits(ins, data[pos..]);
    }
    ins := goal;
    outLen := PutEnd(c.out, op);
    if outLen < 0x1_0000_0000 { RoundTrip(ins, data, c.out[..outLen], |data|, Sparing(pieces)); }
  }

  lemma NoPieces(data: seq<byte>, pieces: seq<Piece>, none: seq<byte>)
    requires none == []
    ensures Between([], data, 0, true) && Between([], data, 0, false) && none == Stream([]) && pieces[0..] == pieces
  {
    assert data[..0] == [];
  }

  lemma StartOrNot(ins: seq<Instr>, op: nat)
    requires AllSound(ins) && op == |Stream(ins)|
    ensures op == 0 <==> ins == []
  {
    if ins != [] { StreamNotEmpty(ins); }
  }
}
