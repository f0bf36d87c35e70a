/** Writing LZO1X instructions to a buffer: the literal runs and matches of lzo1x_c.c and lzo1x_9x.c. */
module LzoEncode {
  import opened Bits
  import Lz77
  import opened LzoFormat
  import LzoDecodes
  import opened LzoSize

  lemma StreamSnoc(ins: seq<Instr>, i: Instr)
    requires AllSound(ins) && Sound(i)
    ensures AllSound(ins + [i]) && Stream(ins + [i]) == Stream(ins) + Bytes(i)
  {
    hide Bytes, Sound;
    assert (ins + [i])[..|ins|] == ins;
  }

  /** The last instruction is a match without literals behind it. */
  ghost predicate EndsInMatch(ins: seq<Instr>) { ins != [] && ins[|ins| - 1].Copy? && ins[|ins| - 1].tail == [] }

  /** Up to three literals go into the last match, more become a run. */
  ghost function AddLits(ins: seq<Instr>, lits: seq<byte>): seq<Instr> {
    if lits == [] then ins
    else if |lits| <= 3 && EndsInMatch(ins) then
      var n := |ins| - 1;
      ins[..n] + [ins[n].(tail := lits)]
    else ins + [Run(lits)]
  }

  /** A good stream so far: well formed, standing for `data`, and lean if that is asked for. */
  ghost predicate Good(ins: seq<Instr>, data: seq<byte>, gain: bool) {
    WellFormed(Start, ins) && AllSound(ins) && (gain ==> Lean(Start, ins)) && Expand([], ins) == Some(data)
  }

  lemma {:induction false} ExpandFront(out: seq<byte>, ins: seq<Instr>)
    requires ins != [] && Expand(out, ins).Some?
    ensures Expand(out, ins[..|ins| - 1]).Some?
    ensures Apply(Expand(out, ins[..|ins| - 1]).value, ins[|ins| - 1]) == Expand(out, ins)
    decreases |ins|
  {
    hide Apply;
    var n := |ins| - 1;
    if n == 0 {
      assert ins[..0] == [] && ins[1..] == [];
    } else {
      assert ins[..n][0] == ins[0] && ins[..n][1..] == ins[1..][..n - 1];
      ExpandFront(Apply(out, ins[0]).value, ins[1..]);
    }
  }

  lemma GoodSnoc(ins: seq<Instr>, data: seq<byte>, i: Instr, gain: bool)
    requires Good(ins, data, gain) && Allowed(After(Start, ins), i) && Sound(i) && Apply(data, i).Some?
    requires gain ==> Thrifty(After(Start, ins), i)
    ensures Good(ins + [i], Apply(data, i).value, gain)
  {
    hide WellFormed, AllSound, Lean, Expand, Allowed, Sound, Apply, MatchHead, Stream, Thrifty;
    WellFormedSnoc(Start, ins, i);
    StreamSnoc(ins, i);
    LeanSnoc(Start, ins, i);
    ExpandSnoc([], ins, i, data);
  }

  lemma GoodFront(ins: seq<Instr>, data: seq<byte>, gain: bool) returns (before: seq<byte>)
    requires Good(ins, data, gain) && ins != []
    ensures Good(ins[..|ins| - 1], before, gain) && Apply(before, ins[|ins| - 1]) == Some(data)
    ensures Allowed(After(Start, ins[..|ins| - 1]), ins[|ins| - 1])
    ensures gain ==> Thrifty(After(Start, ins[..|ins| - 1]), ins[|ins| - 1])
  {
    hide WellFormed, Lean, Thrifty, Expand, Allowed, Sound, Apply, MatchHead;
    var n := |ins| - 1;
    assert ins == ins[..n] + [ins[n]];
    WellFormedSnoc(Start, ins[..n], ins[n]);
    LeanSnoc(Start, ins[..n], ins[n]);
    ExpandFront([], ins);
    before := Expand([], ins[..n]).value;
  }

  lemma HeadLength(k: Kind, len: nat, off: nat, tail: nat)
    requires InRange(k, len, off) && tail <= 3
    ensures |MatchHead(k, len, off, tail)| == |MatchHead(k, len, off, 0)|
  {
    hide LongNumber;
  }

  /** Adding literals keeps the stream good. */
  lemma GoodLits(ins: seq<Instr>, data: seq<byte>, lits: seq<byte>, gain: bool)
    requires Good(ins, data, gain) && (ins == [] || EndsInMatch(ins)) && (1 <= |lits| <= 3 ==> ins != [])
    ensures Good(AddLits(ins, lits), data + lits, gain)
    ensures lits != [] ==>
            AddLits(ins, lits) != [] &&
              After(Start, AddLits(ins, lits)) == (if |lits| <= 3 then AfterShort else AfterRun)
  {
    hide Good, MatchHead, Lz77.CopyFrom;
    if lits == [] {
      assert data + lits == data;
    } else if |lits| <= 3 {
      var n := |ins| - 1;
      var i := ins[n];
      var before := GoodFront(ins, data, gain);
      HeadLength(i.kind, i.len, i.off, |lits|);
      GoodSound(ins, data, n, gain);
      GoodSnoc(ins[..n], before, i.(tail := lits), gain);
      assert Lz77.CopyFrom(before, i.off, i.len) + [] == Lz77.CopyFrom(before, i.off, i.len);
    } else {
      GoodSnoc(ins, data, Run(lits), gain);
    }
  }

  lemma GoodSound(ins: seq<Instr>, data: seq<byte>, n: nat, gain: bool)
    requires Good(ins, data, gain) && n < |ins|
    ensures Sound(ins[n])
  {
  }

  /** A good stream for at most `n` bytes leaves room for the end marker in a buffer of the maximal size. */
  lemma GoodFits(ins: seq<Instr>, data: seq<byte>, n: nat)
    requires Good(ins, data, true) && |data| <= n
    ensures AllSound(ins) && |Stream(ins)| + 60 <= MaxCompressedSize(n)
  {
    SizeBound(Start, ins, []);
  }

  // ---- writing

  /** Writes a number above zero: a zero byte for each 255, and the rest. */
  method PutLong(out: array<byte>, op: nat, n: nat) returns (p: nat)
    requires n > 0 && op + |LongNumber(n)| <= out.Length
    modifies out
    ensures p == op + |LongNumber(n)| && out[..p] == old(out[..op]) + LongNumber(n)
  {
    hide LongNumber;
    p := op;
    var tt: nat := n;
    ghost var before := out[..op];
    ghost var zeros: seq<byte> := [];
    LongSize(n);
    while tt > 255
      invariant 0 < tt && op <= p && p + |LongNumber(tt)| == op + |LongNumber(n)| && out[..p] == before + zeros
      invariant zeros + LongNumber(tt) == LongNumber(n)
    {
      LongStep(tt);
      Assoc(zeros, [0], LongNumber(tt - 255));
      tt := tt - 255;
      out[p] := 0;
      p := p + 1;
      assert out[..p] == (before + zeros) + [0];
      Assoc(before, zeros, [0]);
      zeros := zeros + [0];
    }
    LongLast(tt);
    out[p] := tt;
    p := p + 1;
    assert out[..p] == (before + zeros) + [tt];
    Assoc(before, zeros, [tt]);
  }

  lemma LongSize(n: nat)
    requires n > 0
    ensures |LongNumber(n)| > 0
  {
  }

  lemma LongStep(n: nat)
    requires n > 255
    ensures LongNumber(n) == [0] + LongNumber(n - 255)
  {
  }

  lemma LongLast(n: nat)
    requires 0 < n <= 255
    ensures LongNumber(n) == [n]
  {
  }

  /** Copies `t` literals from the input. */
  method PutLiterals(out: array<byte>, op: nat, data: seq<byte>, ii: nat, t: nat) returns (p: nat)
    requires op + t <= out.Length && ii + t <= |data|
    modifies out
    ensures p == op + t && out[..p] == old(out[..op]) + data[ii..ii + t]
  {
    p := op;
    for k := 0 to t
      invariant p == op + k && out[..p] == old(out[..op]) + data[ii..ii + k]
    {
      out[p] := data[ii + k];
      p := p + 1;
      assert out[..p] == (old(out[..op]) + data[ii..ii + k]) + [data[ii + k]];
    }
  }

  lemma BitOrStep(x: nat, y: nat)
    ensures BitOr(x, y) == 2 * BitOr(x / 2, y / 2) + (if x % 2 == 1 || y % 2 == 1 then 1 else 0)
  {
  }

  lemma BitOrLow(x: nat, t: nat)
    requires t < 4 && x % 4 == 0
    ensures BitOr(x, t) == x + t
  {
    hide BitOr;
    BitOrStep(x, t);
    BitOrStep(x / 2, t / 2);
    BitOrZero(x / 2 / 2);
  }

  /** The low bits of the last byte but one of a match hold its number of literals. */
  lemma PatchedHead(k: Kind, len: nat, off: nat, t: nat)
    requires InRange(k, len, off) && t <= 3
    ensures var h, g := MatchHead(k, len, off, 0), MatchHead(k, len, off, t);
            |h| == |g| >= 2 && h[|h| - 2] % 4 == 0 && h[|h| - 2] + t < 256 && g == h[|h| - 2 := h[|h| - 2] + t]
  {
    hide LongNumber;
  }

  /** Writing the literals of a short run into the last match. */
  lemma PatchedStream(ins: seq<Instr>, lits: seq<byte>)
    requires AllSound(ins) && EndsInMatch(ins) && 1 <= |lits| <= 3
    ensures var s := Stream(ins);
            |s| >= 2 && s[|s| - 2] % 4 == 0 && s[|s| - 2] + |lits| < 256
            && AllSound(AddLits(ins, lits)) && Stream(AddLits(ins, lits)) == s[|s| - 2 := s[|s| - 2] + |lits|] + lits
  {
    hide MatchHead, Stream;
    var n := |ins| - 1;
    var u, i := ins[..n], ins[n];
    assert ins == u + [i] && Sound(i);
    var h, g := MatchHead(i.kind, i.len, i.off, 0), MatchHead(i.kind, i.len, i.off, |lits|);
    PatchedHead(i.kind, i.len, i.off, |lits|);
    assert Bytes(i) == h;
    StreamSnoc(u, i);
    StreamSnoc(u, i.(tail := lits));
    Assoc(Stream(u), g, lits);
    PatchAfter(Stream(u), h, h[|h| - 2] + |lits|);
  }

  lemma PatchAfter(a: seq<byte>, h: seq<byte>, v: byte)
    requires |h| >= 2
    ensures (a + h)[|a + h| - 2] == h[|h| - 2] && (a + h)[|a + h| - 2 := v] == a + h[|h| - 2 := v]
  {
  }

  /** Stores a run of at most three literals: their number goes into the match before them. */
  method PutShort(out: array<byte>, op: nat, data: seq<byte>, ii: nat, t: nat, ghost ins: seq<Instr>) returns (p: nat)
    requires AllSound(ins) && EndsInMatch(ins) && 1 <= t <= 3 && ii + t <= |data|
    requires op == |Stream(ins)| && op + t <= out.Length && out[..op] == Stream(ins)
    modifies out
    ensures AllSound(AddLits(ins, data[ii..ii + t])) && p == op + t
    ensures out[..p] == Stream(AddLits(ins, data[ii..ii + t]))
  {
    hide Stream, AddLits;
    PatchedStream(ins, data[ii..ii + t]);
    assert out[op - 2] == Stream(ins)[op - 2];
    BitOrLow(out[op - 2], t);
    out[op - 2] := BitOr(out[op - 2], t);
    assert out[..op] == Stream(ins)[op - 2 := Stream(ins)[op - 2] + t];
    p := PutLiterals(out, op, data, ii, t);
  }

  /** Stores a run of at least four literals. */
  method PutRun(out: array<byte>, op: nat, data: seq<byte>, ii: nat, t: nat, ghost ins: seq<Instr>) returns (p: nat)
    requires AllSound(ins) && t >= 4 && ii + t <= |data|
    requires op == |Stream(ins)| && op + |RunHead(t)| + t <= out.Length && out[..op] == Stream(ins)
    modifies out
    ensures AllSound(ins + [Run(data[ii..ii + t])]) && p == op + |RunHead(t)| + t
    ensures out[..p] == Stream(ins + [Run(data[ii..ii + t])])
  {
    hide Stream, LongNumber, Sound;
    ghost var before := out[..op];
    ghost var lits := data[ii..ii + t];
    RunSound(lits);
    StreamSnoc(ins, Run(lits));
    p := op;
    if t <= 18 {
      out[p] := t - 3;
      p := p + 1;
      assert out[..p] == before + RunHead(t);
    } else {
      out[p] := 0;
      p := p + 1;
      assert out[..p] == before + [0];
      p := PutLong(out, p, t - 18);
      Assoc(before, [0], LongNumber(t - 18));
    }
    p := PutLiterals(out, p, data, ii, t);
    Assoc(before, RunHead(t), lits);
  }

  lemma RunSound(lits: seq<byte>)
    requires |lits| >= 4
    ensures Sound(Run(lits))
  {
  }

  /** Stores the literals between two matches. */
  method StoreLiterals(out: array<byte>, op: nat, data: seq<byte>, ii: nat, t: nat, ghost ins: seq<Instr>)
    returns (p: nat)
    requires AllSound(ins) && (ins == [] || EndsInMatch(ins)) && 1 <= t && (t <= 3 ==> ins != []) && ii + t <= |data|
    requires AllSound(AddLits(ins, data[ii..ii + t])) && |Stream(AddLits(ins, data[ii..ii + t]))| <= out.Length
    requires op <= out.Length && out[..op] == Stream(ins)
    modifies out
    ensures p <= out.Length && out[..p] == Stream(AddLits(ins, data[ii..ii + t]))
  {
    hide Stream, LongNumber, Sound, EndsInMatch;
    ghost var lits := data[ii..ii + t];
    if t <= 3 {
      PatchedStream(ins, lits);
      p := PutShort(out, op, data, ii, t, ins);
    } else {
      RunSound(lits);
      StreamSnoc(ins, Run(lits));
      RunBytes(lits);
      p := PutRun(out, op, data, ii, t, ins);
    }
  }

  lemma RunBytes(lits: seq<byte>)
    requires |lits| >= 4
    ensures Sound(Run(lits)) && Bytes(Run(lits)) == RunHead(|lits|) + lits
  {
  }

  method PutTwo(out: array<byte>, op: nat, x: byte, y: byte) returns (p: nat)
    requires op + 2 <= out.Length
    modifies out
    ensures p == op + 2 && out[..p] == old(out[..op]) + [x, y]
  {
    out[op] := x;
    out[op + 1] := y;
    p := op + 2;
  }

  /** The two bytes of a distance in an M3 or M4 match. */
  method PutOffset(out: array<byte>, op: nat, off: nat) returns (p: nat)
    requires op + 2 <= out.Length && off < 0x8000
    modifies out
    ensures p == op + 2 && out[..p] == old(out[..op]) + OffsetBytes(off % 0x4000, 0)
  {
    OffsetParts(off);
    p := PutTwo(out, op, off % 64 * 4, off / 64 % 256);
  }

  lemma OffsetParts(off: nat)
    requires off < 0x8000
    ensures off % 0x4000 % 64 == off % 64 && off % 0x4000 / 64 == off / 64 % 256
  {
  }

  /** The marker and length of an M3 or M4 match. */
  method PutLength(out: array<byte>, op: nat, marker: nat, max: nat, len: nat) returns (p: nat)
    requires 3 <= len && 3 <= max && marker + max < 256 && op + |LengthHead(marker, max, len)| <= out.Length
    modifies out
    ensures p == op + |LengthHead(marker, max, len)| && out[..p] == old(out[..op]) + LengthHead(marker, max, len)
  {
    hide LongNumber;
    ghost var before := out[..op];
    p := op + 1;
    if len <= max {
      out[op] := marker + (len - 2);
      assert out[..p] == before + [marker + (len - 2)];
    } else {
      out[op] := marker;
      assert out[..p] == before + [marker];
      p := PutLong(out, p, len - max);
      Assoc(before, [marker], LongNumber(len - max));
    }
  }

  method PutM2(out: array<byte>, op: nat, len: nat, off: nat) returns (p: nat)
    requires InRange(M2, len, off) && op + 2 <= out.Length
    modifies out
    ensures p == op + 2 && out[..p] == old(out[..op]) + MatchHead(M2, len, off, 0)
  {
    LzoDecodes.M2Fields(len, off, 0);
    p := PutTwo(out, op, (len - 1) * 32 + (off - 1) % 8 * 4, (off - 1) / 8);
  }

  method PutM3(out: array<byte>, op: nat, len: nat, off: nat) returns (p: nat)
    requires InRange(M3, len, off) && op + |MatchHead(M3, len, off, 0)| <= out.Length
    modifies out
    ensures p == op + |MatchHead(M3, len, off, 0)| && out[..p] == old(out[..op]) + MatchHead(M3, len, off, 0)
  {
    hide LengthHead, OffsetBytes;
    ghost var before := out[..op];
    p := PutLength(out, op, 32, M3_MAX_LEN, len);
    p := PutOffset(out, p, off - 1);
    Assoc(before, LengthHead(32, M3_MAX_LEN, len), OffsetBytes(off - 1, 0));
  }

  method PutM4(out: array<byte>, op: nat, len: nat, off: nat) returns (p: nat)
    requires InRange(M4, len, off) && op + |MatchHead(M4, len, off, 0)| <= out.Length
    modifies out
    ensures p == op + |MatchHead(M4, len, off, 0)| && out[..p] == old(out[..op]) + MatchHead(M4, len, off, 0)
  {
    hide LengthHead, OffsetBytes;
    ghost var before := out[..op];
    var o := off - 0x4000;
    ghost var m := 16 + o / 0x4000 * 8;
    p := PutLength(out, op, 16 + o / 0x4000 * 8, M4_MAX_LEN, len);
    p := PutOffset(out, p, o);
    Assoc(before, LengthHead(m, M4_MAX_LEN, len), OffsetBytes(o % 0x4000, 0));
  }

  /** The form that do_compress chooses for a match. */
  function KindFor(len: nat, off: nat): Kind {
    if len <= M2_MAX_LEN && off <= M2_MAX_OFFSET then M2 else if off <= M3_MAX_OFFSET then M3 else M4
  }

  /** Codes a match of at least three bytes. */
  method PutMatch(out: array<byte>, op: nat, len: nat, off: nat) returns (p: nat)
    requires len >= 3 && 1 <= off <= M4_MAX_OFFSET && op + |MatchHead(KindFor(len, off), len, off, 0)| <= out.Length
    modifies out
    ensures p == op + |MatchHead(KindFor(len, off), len, off, 0)|
    ensures out[..p] == old(out[..op]) + MatchHead(KindFor(len, off), len, off, 0)
  {
    hide MatchHead;
    if len <= M2_MAX_LEN && off <= M2_MAX_OFFSET {
      LzoDecodes.ShortHeads(M2, len, off, 0);
      p := PutM2(out, op, len, off);
    } else if off <= M3_MAX_OFFSET {
      p := PutM3(out, op, len, off);
    } else {
      p := PutM4(out, op, len, off);
    }
  }

  /** The matches that do_compress takes gain at least a byte. */
  lemma MatchGains(len: nat, off: nat)
    requires len >= 3 && 1 <= off <= M4_MAX_OFFSET && (off > M2_MAX_OFFSET ==> len >= 4)
    ensures |MatchHead(KindFor(len, off), len, off, 0)| < len
  {
    hide LongNumber;
  }
}
