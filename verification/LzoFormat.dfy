/** The LZO1X stream: its instructions, their bytes and their meaning (lzo1x_d.c, liblzo.h). */
module LzoFormat {
  import opened Bits
  import opened Lz77

  const M1_MAX_OFFSET := 0x0400
  const M2_MAX_OFFSET := 0x0800
  const M3_MAX_OFFSET := 0x4000
  const M4_MAX_OFFSET := 0xbfff
  const M2_MAX_LEN := 8
  const M3_MAX_LEN := 33
  const M4_MAX_LEN := 9

  /** The five ways to code a match; MX is the form of M1 after a literal run. */
  datatype Kind = M1 | MX | M2 | M3 | M4

  /** An instruction: literals at the very start, a run of literals, or a match followed by up to three literals. */
  datatype Instr = First(lits: seq<byte>) | Run(lits: seq<byte>) | Copy(kind: Kind, len: nat, off: nat, tail: seq<byte>)

  /** What came before, as far as it changes the meaning of the next byte. */
  datatype State = Start | AfterRun | AfterShort | AfterMatch

  ghost predicate InRange(k: Kind, len: nat, off: nat) {
    match k
    case M1 => len == 2 && 1 <= off <= M1_MAX_OFFSET
    case MX => len == 3 && M2_MAX_OFFSET < off <= M2_MAX_OFFSET + M1_MAX_OFFSET
    case M2 => 3 <= len <= M2_MAX_LEN && 1 <= off <= M2_MAX_OFFSET
    case M3 => 3 <= len && 1 <= off <= M3_MAX_OFFSET
    case M4 => 3 <= len && M3_MAX_OFFSET < off <= M4_MAX_OFFSET
  }

  ghost predicate Allowed(st: State, i: Instr) {
    match i
    case First(lits) => st == Start && 1 <= |lits| <= 238
    case Run(lits) => (st == Start || st == AfterMatch) && |lits| >= 4
    case Copy(k, len, off, tail) =>
      InRange(k, len, off) && |tail| <= 3 && st != Start && (k == M1 ==> st == AfterShort) &&
        (k == MX ==> st == AfterRun)
  }

  function Next(i: Instr): State {
    match i
    case First(lits) => if |lits| < 4 then AfterShort else AfterRun
    case Run(_) => AfterRun
    case Copy(_, _, _, tail) => if tail == [] then AfterMatch else AfterShort
  }

  /** Every instruction is allowed where it stands. */
  ghost predicate WellFormed(st: State, ins: seq<Instr>)
    decreases |ins|
  {
    ins == [] || (Allowed(st, ins[0]) && WellFormed(Next(ins[0]), ins[1..]))
  }

  /** The output after one instruction, if its match does not reach before the start. */
  ghost function Apply(out: seq<byte>, i: Instr): Option<seq<byte>> {
    match i
    case First(lits) => Some(out + lits)
    case Run(lits) => Some(out + lits)
    case Copy(_, len, off, tail) => if 1 <= off <= |out| then Some(CopyFrom(out, off, len) + tail) else None
  }

  ghost function Expand(out: seq<byte>, ins: seq<Instr>): Option<seq<byte>>
    decreases |ins|
  {
    if ins == [] then Some(out)
    else
      match Apply(out, ins[0])
      case None => None
      case Some(o) => Expand(o, ins[1..])
  }

  /** A number above zero as zero bytes for each 255 and a last byte that is not zero. */
  function LongNumber(n: nat): (s: seq<byte>)
    requires n > 0
    ensures |s| == 1 + (n - 1) / 255
    decreases n
  {
    if n <= 255 then [n] else [0] + LongNumber(n - 255)
  }

  /** The head of a run of `n` literals. */
  function RunHead(n: nat): seq<byte>
    requires n >= 4
  {
    if n <= 18 then [n - 3] else [0] + LongNumber(n - 18)
  }

  /** The marker and the length of an M3 or M4 match. */
  function LengthHead(marker: nat, max: nat, len: nat): seq<byte>
    requires 3 <= len && 3 <= max && marker + max < 256
  {
    if len <= max then [marker + (len - 2)] else [marker] + LongNumber(len - max)
  }

  /** The distance in two bytes; the low two bits of the first hold the number of literals that follow. */
  function OffsetBytes(off: nat, tail: nat): (s: seq<byte>)
    requires off < 0x4000 && tail <= 3
    ensures |s| == 2
  {
    [off % 64 * 4 + tail, off / 64]
  }

  /** The bytes of a match, without the literals that follow. */
  function MatchHead(k: Kind, len: nat, off: nat, tail: nat): seq<byte>
    requires InRange(k, len, off) && tail <= 3
  {
    match k
    case M1 => [(off - 1) % 4 * 4 + tail, (off - 1) / 4]
    case MX => [(off - 1 - M2_MAX_OFFSET) % 4 * 4 + tail, (off - 1 - M2_MAX_OFFSET) / 4]
    case M2 => [(len - 1) * 32 + (off - 1) % 8 * 4 + tail, (off - 1) / 8]
    case M3 => LengthHead(32, M3_MAX_LEN, len) + OffsetBytes(off - 1, tail)
    case M4 => var o := off - 0x4000;
               LengthHead(16 + o / 0x4000 * 8, M4_MAX_LEN, len) + OffsetBytes(o % 0x4000, tail)
  }

  ghost predicate Sound(i: Instr) {
    match i
    case First(lits) => 1 <= |lits| <= 238
    case Run(lits) => |lits| >= 4
    case Copy(k, len, off, tail) => InRange(k, len, off) && |tail| <= 3
  }

  ghost function Bytes(i: Instr): seq<byte>
    requires Sound(i)
  {
    match i
    case First(lits) => [17 + |lits|] + lits
    case Run(lits) => RunHead(|lits|) + lits
    case Copy(k, len, off, tail) => MatchHead(k, len, off, |tail|) + tail
  }

  ghost predicate AllSound(ins: seq<Instr>) { forall i :: 0 <= i < |ins| ==> Sound(ins[i]) }

  /** The bytes of all instructions, without the end marker. */
  ghost function Stream(ins: seq<Instr>): seq<byte>
    requires AllSound(ins)
  {
    if ins == [] then [] else Stream(ins[..|ins| - 1]) + Bytes(ins[|ins| - 1])
  }

  /** The end marker: an M4 match with distance zero. */
  const END_MARKER: seq<byte> := [17, 0, 0]

  /** What the decoder takes for an end: such a match of any length and with any number of literals announced. */
  ghost predicate EndMark(e: seq<byte>) {
    var n := |e|;
    && n >= 3 && e[n - 1] == 0 && e[n - 2] < 4
    && (if n == 3 then 17 <= e[0] <= 23 else e[0] == 16 && e[n - 3] != 0 && forall i :: 1 <= i < n - 3 ==> e[i] == 0)
  }

  ghost function File(ins: seq<Instr>): seq<byte>
    requires AllSound(ins)
  {
    Stream(ins) + END_MARKER
  }

  lemma {:induction false} WellFormedSound(st: State, ins: seq<Instr>)
    requires WellFormed(st, ins)
    ensures AllSound(ins)
    decreases |ins|
  {
    if ins != [] {
      WellFormedSound(Next(ins[0]), ins[1..]);
      forall i | 0 <= i < |ins| ensures Sound(ins[i]) { if i > 0 { assert ins[i] == ins[1..][i - 1]; } }
    }
  }

  /** The state after instructions that started in `st`. */
  ghost function After(st: State, ins: seq<Instr>): State { if ins == [] then st else Next(ins[|ins| - 1]) }

  lemma {:induction false} WellFormedSnoc(st: State, ins: seq<Instr>, i: Instr)
    ensures WellFormed(st, ins + [i]) <==> WellFormed(st, ins) && Allowed(After(st, ins), i)
    decreases |ins|
  {
    hide Allowed, Next;
    if ins == [] {
      assert ins + [i] == [i] && [i][1..] == [];
    } else {
      assert (ins + [i])[1..] == ins[1..] + [i];
      WellFormedSnoc(Next(ins[0]), ins[1..], i);
    }
  }

  lemma {:induction false} ExpandSnoc(out: seq<byte>, ins: seq<Instr>, i: Instr, mid: seq<byte>)
    requires Expand(out, ins) == Some(mid)
    ensures Expand(out, ins + [i]) == Apply(mid, i)
    decreases |ins|
  {
    hide Apply;
    if ins == [] {
      assert ins + [i] == [i] && [i][1..] == [];
    } else {
      assert (ins + [i])[0] == ins[0] && (ins + [i])[1..] == ins[1..] + [i];
      ExpandSnoc(Apply(out, ins[0]).value, ins[1..], i, mid);
    }
  }

  lemma {:induction false} StreamFront(ins: seq<Instr>)
    requires ins != [] && AllSound(ins)
    ensures Stream(ins) == Bytes(ins[0]) + Stream(ins[1..])
  {
    hide Bytes, Sound;
    var n := |ins| - 1;
    if n == 0 {
      assert ins[..0] == [] && ins[1..] == [];
    } else {
      StreamFront(ins[..n]);
      assert ins[1..][..n - 1] == ins[..n][1..];
      Assoc(Bytes(ins[0]), Stream(ins[..n][1..]), Bytes(ins[n]));
    }
  }
}
