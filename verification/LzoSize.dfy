/** How much an LZO1X stream can exceed its data, and why decompressing in place is safe (lzop.c). */
module LzoSize {
  import opened Bits
  import Lz77
  import opened LzoFormat
  import opened LzoDecode
  import opened LzoDecodes
  import opened LzoDecompress

  function MaxCompressedSize(x: nat): nat { x + x / 16 + 64 + 3 }

  /** A match is no shorter than its code, and longer where it stands right behind a run. */
  ghost predicate Thrifty(st: State, i: Instr) {
    i.Copy? && Sound(i) ==>
      var size := |MatchHead(i.kind, i.len, i.off, |i.tail|)|;
      size <= i.len && (st == AfterRun ==> size < i.len)
  }

  ghost predicate Lean(st: State, ins: seq<Instr>)
    decreases |ins|
  {
    ins == [] || (Thrifty(st, ins[0]) && Lean(Next(ins[0]), ins[1..]))
  }

  lemma {:induction false} LeanSnoc(st: State, ins: seq<Instr>, i: Instr)
    ensures Lean(st, ins + [i]) <==> Lean(st, ins) && Thrifty(After(st, ins), i)
    decreases |ins|
  {
    hide Thrifty, Next;
    if ins == [] {
      assert ins + [i] == [i] && [i][1..] == [];
    } else {
      assert (ins + [i])[1..] == ins[1..] + [i];
      LeanSnoc(Next(ins[0]), ins[1..], i);
    }
  }

  lemma RunHeadSize(n: nat)
    requires n >= 4
    ensures 16 * |RunHead(n)| <= n + 16
  {
    hide LongNumber;
  }

  /** What the instructions before may have cost beyond their data; a run spends what the match before it left. */
  function Debt(st: State): nat {
    match st
    case Start => 32
    case AfterMatch => 16
    case AfterShort => 16
    case AfterRun => 0
  }

  lemma InstrSize(st: State, i: Instr, out: seq<byte>)
    requires Allowed(st, i) && Sound(i) && Apply(out, i).Some? && Thrifty(st, i)
    ensures 16 * |Bytes(i)| + Debt(Next(i)) <= 17 * (|Apply(out, i).value| - |out|) + Debt(st)
  {
    hide MatchHead, RunHead, Lz77.CopyFrom;
    if i.Run? { RunHeadSize(|i.lits|); }
  }

  /** A stream, or the rest of one, exceeds its data by at most a sixteenth and two bytes. */
  lemma {:induction false} SizeBound(st: State, ins: seq<Instr>, out: seq<byte>)
    requires WellFormed(st, ins) && AllSound(ins) && Lean(st, ins) && Expand(out, ins).Some?
    ensures 16 * |Stream(ins)| <= 17 * (|Expand(out, ins).value| - |out|) + Debt(st)
    decreases |ins|
  {
    hide Bytes, Apply, Allowed, Sound, MatchHead, Next, Debt, Thrifty;
    if ins != [] {
      StreamFront(ins);
      InstrSize(st, ins[0], out);
      SizeBound(Next(ins[0]), ins[1..], Apply(out, ins[0]).value);
    }
  }

  /** With the stream at the end of a buffer of the maximal size, the output never reaches what is still to be read. */
  lemma {:induction false} RoomInPlace(st: State, ins: seq<Instr>, pos: nat, out: seq<byte>, n: nat, size: nat,
                                       end: nat)
    requires WellFormed(st, ins) && AllSound(ins) && Lean(st, ins) && Expand(out, ins).Some?
    requires |Expand(out, ins).value| == n
    requires size >= MaxCompressedSize(n) && pos + |File(ins)| == end
    ensures Spacious(ins, pos, out, size - end)
    decreases |ins|
  {
    hide Bytes, Apply, Allowed, Sound, MatchHead, Thrifty;
    SizeBound(st, ins, out);
    ExpandGrows(out, ins);
    if ins != [] {
      StreamFront(ins);
      RoomInPlace(Next(ins[0]), ins[1..], pos + |Bytes(ins[0])|, Apply(out, ins[0]).value, n, size, end);
    }
  }

  /** Decompresses a block that was read into the very end of the buffer, as lzo_decompress lays it out. */
  method DecompressInPlace(mem: array<byte>, buf: nat, size: nat, srcLen: nat, dstLen: nat, ghost ins: seq<Instr>)
    returns (code: Code, outLen: nat)
    requires buf + size <= mem.Length && 3 <= srcLen <= size && srcLen < 0x1_0000_0000
    requires size >= MaxCompressedSize(dstLen)
    requires WellFormed(Start, ins) && AllSound(ins) && Lean(Start, ins)
    requires mem[buf + size - srcLen..buf + size] == File(ins)
    requires Expand([], ins).Some? && |Expand([], ins).value| == dstLen
    modifies mem
    ensures code == Ok && outLen == dstLen && mem[buf..buf + dstLen] == Expand([], ins).value
  {
    hide WellFormed, AllSound, Lean, Expand, Stream, Spacious, Roomy, Within, Result, MaxCompressedSize;
    var a := buf + size - srcLen;
    ghost var s := mem[a..a + srcLen];
    SizeAtLeast(dstLen);
    assert s == mem[a..buf + size] == File(ins);
    assert Has(s, 0, File(ins));
    RoomInPlace(Start, ins, 0, [], dstLen, size, srcLen);
    StreamDecodes(s, srcLen, dstLen, Start, ins, 0, [], a - buf, END_MARKER);
    OkStaysWithin(s, srcLen, dstLen, Conf(Begin, 0, []));
    code, outLen := Decompress(mem, a, srcLen, srcLen, buf, dstLen);
  }

  lemma SizeAtLeast(n: nat)
    ensures n <= MaxCompressedSize(n)
  {
  }
}
