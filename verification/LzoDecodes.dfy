/** Every well-formed LZO1X stream is decoded to what it stands for. */
module LzoDecodes {
  import opened Bits
  import Lz77
  import opened LzoFormat
  import opened LzoDecode

  /** `frag` stands in `s` at `pos`. */
  ghost predicate Has(s: seq<byte>, pos: nat, frag: seq<byte>) { pos + |frag| <= |s| && s[pos..pos + |frag|] == frag }

  lemma HasConcat(s: seq<byte>, pos: nat, a: seq<byte>, b: seq<byte>)
    ensures Has(s, pos, a + b) <==> Has(s, pos, a) && Has(s, pos + |a|, b)
  {
    if Has(s, pos, a + b) {
      assert s[pos..pos + |a|] == (a + b)[..|a|] && s[pos + |a|..pos + |a| + |b|] == (a + b)[|a|..];
    }
    if Has(s, pos, a) && Has(s, pos + |a|, b) {
      assert s[pos..pos + |a + b|] == s[pos..pos + |a|] + s[pos + |a|..pos + |a| + |b|];
    }
  }

  lemma HasAt(s: seq<byte>, pos: nat, frag: seq<byte>, i: nat)
    requires Has(s, pos, frag) && i < |frag|
    ensures At(s, pos + i) == frag[i]
  {
    assert s[pos..pos + |frag|][i] == s[pos + i];
  }

  lemma HasSlice(s: seq<byte>, pos: nat, frag: seq<byte>)
    requires Has(s, pos, frag)
    ensures Slice(s, pos, |frag|) == frag
  {
    forall i | 0 <= i < |frag| ensures Slice(s, pos, |frag|)[i] == frag[i] { HasAt(s, pos, frag, i); }
  }

  lemma {:induction false} ReadsLong(s: seq<byte>, pos: nat, end: nat, n: nat)
    requires n > 0 && Has(s, pos, LongNumber(n)) && pos + |LongNumber(n)| <= end
    ensures ReadLong(s, pos, end) == Some((n, pos + |LongNumber(n)|))
    decreases n
  {
    HasAt(s, pos, LongNumber(n), 0);
    if n > 255 {
      HasConcat(s, pos, [0], LongNumber(n - 255));
      ReadsLong(s, pos + 1, end, n - 255);
    }
  }

  lemma OffsetRead(s: seq<byte>, pos: nat, off: nat, tail: nat)
    requires off < 0x4000 && tail <= 3 && Has(s, pos, OffsetBytes(off, tail))
    ensures Offset(s, pos) == off && At(s, pos) % 4 == tail
  {
    HasAt(s, pos, OffsetBytes(off, tail), 0);
    HasAt(s, pos, OffsetBytes(off, tail), 1);
  }

  lemma M2Fields(len: nat, off: nat, tail: nat)
    requires 3 <= len <= 8 && 1 <= off <= M2_MAX_OFFSET && tail <= 3
    ensures var t := (len - 1) * 32 + (off - 1) % 8 * 4 + tail;
            64 <= t < 256 && t / 32 + 1 == len && 1 + t / 4 % 8 + (off - 1) / 8 * 8 == off
  {
    var b := (off - 1) % 8;
    var t := (len - 1) * 32 + b * 4 + tail;
    assert t / 4 == (len - 1) * 8 + b;
  }

  lemma M1Fields(o: nat, tail: nat)
    requires o < M1_MAX_OFFSET && tail <= 3
    ensures var t := o % 4 * 4 + tail; t < 16 && t / 4 + o / 4 * 4 == o
  {
  }

  lemma M4Fields(b: nat, n: nat)
    requires b < 2 && n < 8
    ensures var t := 16 + b * 8 + n; 16 <= t < 32 && t % 8 == n && t / 8 % 2 == b
  {
    assert (16 + b * 8 + n) / 8 == 2 + b;
  }

  lemma CopyFits(cap: nat, out: seq<byte>, off: nat, len: nat, p: nat)
    requires 1 <= off <= |out| && |out| + len <= cap
    ensures CopyMatch(cap, out, off, len, p) == Conf(Done, p, Lz77.CopyFrom(out, off, len))
  {
  }

  lemma HeadM2(s: seq<byte>, end: nat, cap: nat, pos: nat, out: seq<byte>, t: nat, len: nat, off: nat)
    requires t >= 64 && t / 32 + 1 == len && 1 + t / 4 % 8 + At(s, pos) * 8 == off
    ensures StepHead(s, end, cap, pos, out, t) == CopyMatch(cap, out, off, len, pos + 1)
  {
  }

  lemma HeadM1(s: seq<byte>, end: nat, cap: nat, pos: nat, out: seq<byte>, t: nat, off: nat)
    requires t < 16 && 1 + t / 4 + At(s, pos) * 4 == off
    ensures StepHead(s, end, cap, pos, out, t) == CopyMatch(cap, out, off, 2, pos + 1)
  {
  }

  lemma HeadM3(s: seq<byte>, end: nat, cap: nat, pos: nat, out: seq<byte>, t: nat)
    requires 32 < t < 64
    ensures StepHead(s, end, cap, pos, out, t) == CopyMatch(cap, out, 1 + Offset(s, pos), t - 30, pos + 2)
  {
    hide CopyMatch, ReadLong, Offset, Lz77.CopyFrom;
  }

  lemma HeadM3Long(s: seq<byte>, end: nat, cap: nat, pos: nat, out: seq<byte>, v: nat, p: nat)
    requires ReadLong(s, pos, end) == Some((v, p))
    ensures StepHead(s, end, cap, pos, out, 32) == CopyMatch(cap, out, 1 + Offset(s, p), v + 33, p + 2)
  {
    hide CopyMatch, ReadLong, Offset;
  }

  lemma HeadM4(s: seq<byte>, end: nat, cap: nat, pos: nat, out: seq<byte>, t: nat, high: nat)
    requires 16 <= t < 32 && t % 8 > 0 && high == t / 8 % 2 * 0x4000
    ensures StepHead(s, end, cap, pos, out, t) == StepM4(s, end, cap, pos, out, high, t % 8)
  {
    hide CopyMatch, ReadLong, StepM4, Offset, Lz77.CopyFrom;
  }

  lemma HeadM4Long(s: seq<byte>, end: nat, cap: nat, pos: nat, out: seq<byte>, t: nat, high: nat, v: nat, p: nat)
    requires 16 <= t < 32 && t % 8 == 0 && high == t / 8 % 2 * 0x4000 && ReadLong(s, pos, end) == Some((v, p))
    ensures StepHead(s, end, cap, pos, out, t) == StepM4(s, end, cap, p, out, high, 7 + v)
  {
    hide CopyMatch, ReadLong, StepM4, Offset;
  }

  lemma M2Decodes(s: seq<byte>, end: nat, cap: nat, pos: nat, out: seq<byte>, len: nat, off: nat, tail: nat)
    requires InRange(M2, len, off) && tail <= 3 && Has(s, pos, MatchHead(M2, len, off, tail)) && off <= |out|
    requires |out| + len <= cap
    ensures StepHead(s, end, cap, pos + 1, out, MatchHead(M2, len, off, tail)[0])
            == Conf(Done, pos + 2, Lz77.CopyFrom(out, off, len))
  {
    hide CopyMatch, Has, At, StepHead, Lz77.CopyFrom;
    HasAt(s, pos, MatchHead(M2, len, off, tail), 1);
    M2Fields(len, off, tail);
    HeadM2(s, end, cap, pos + 1, out, MatchHead(M2, len, off, tail)[0], len, off);
    CopyFits(cap, out, off, len, pos + 2);
  }

  lemma M1Decodes(s: seq<byte>, end: nat, cap: nat, pos: nat, out: seq<byte>, len: nat, off: nat, tail: nat)
    requires InRange(M1, len, off) && tail <= 3 && Has(s, pos, MatchHead(M1, len, off, tail)) && off <= |out|
    requires |out| + len <= cap
    ensures StepHead(s, end, cap, pos + 1, out, MatchHead(M1, len, off, tail)[0])
            == Conf(Done, pos + 2, Lz77.CopyFrom(out, off, len))
  {
    hide CopyMatch, Has, At, StepHead, Lz77.CopyFrom;
    HasAt(s, pos, MatchHead(M1, len, off, tail), 1);
    M1Fields(off - 1, tail);
    HeadM1(s, end, cap, pos + 1, out, MatchHead(M1, len, off, tail)[0], off);
    CopyFits(cap, out, off, len, pos + 2);
  }

  lemma LengthMarks(m: nat, max: nat, len: nat, o: nat, tail: nat, s: seq<byte>, pos: nat)
    requires 3 <= len && 3 <= max && m + max < 256 && o < 0x4000 && tail <= 3
    requires Has(s, pos, LengthHead(m, max, len) + OffsetBytes(o, tail))
    ensures m <= At(s, pos) && At(s, pos + |LengthHead(m, max, len)|) % 4 == tail
  {
    hide Has, At, LongNumber, OffsetBytes, Offset;
    var h := LengthHead(m, max, len);
    HasAt(s, pos, h + OffsetBytes(o, tail), 0);
    HasConcat(s, pos, h, OffsetBytes(o, tail));
    OffsetRead(s, pos + |h|, o, tail);
  }

  /** The first byte tells the kind of the match, and the low bits of the last but one the literals behind it. */
  lemma MatchMarks(s: seq<byte>, pos: nat, k: Kind, len: nat, off: nat, tail: nat)
    requires InRange(k, len, off) && tail <= 3 && Has(s, pos, MatchHead(k, len, off, tail))
    ensures var h := MatchHead(k, len, off, tail); |h| >= 2 && At(s, pos) == h[0] && At(s, pos + |h| - 2) % 4 == tail
    ensures k == M1 || k == MX <==> At(s, pos) < 16
  {
    hide Has, At, LengthHead, OffsetBytes;
    var h := MatchHead(k, len, off, tail);
    match k
    case M1 =>
      HasAt(s, pos, h, 0);
      M1Fields(off - 1, tail);
    case MX =>
      HasAt(s, pos, h, 0);
      M1Fields(off - 1 - M2_MAX_OFFSET, tail);
    case M2 =>
      HasAt(s, pos, h, 0);
      M2Fields(len, off, tail);
      M2Low(len, off, tail);
    case M3 =>
      NotEmpty(32, M3_MAX_LEN, len);
      HasAt(s, pos, h, 0);
      LengthMarks(32, M3_MAX_LEN, len, off - 1, tail, s, pos);
    case M4 =>
      var o := off - 0x4000;
      NotEmpty(16 + o / 0x4000 * 8, M4_MAX_LEN, len);
      HasAt(s, pos, h, 0);
      LengthMarks(16 + o / 0x4000 * 8, M4_MAX_LEN, len, o % 0x4000, tail, s, pos);
  }

  lemma M2Low(len: nat, off: nat, tail: nat)
    requires 3 <= len && off >= 1 && tail <= 3
    ensures ((len - 1) * 32 + (off - 1) % 8 * 4 + tail) % 4 == tail
  {
    FourTimes((len - 1) * 8 + (off - 1) % 8, tail);
  }

  lemma FourTimes(q: nat, r: nat)
    requires r < 4
    ensures (4 * q + r) % 4 == r
  {
  }

  lemma RunDoneMX(s: seq<byte>, cap: nat, pos: nat, out: seq<byte>, off: nat)
    requires At(s, pos) < 16 && 1 + M2_MAX_OFFSET + At(s, pos) / 4 + At(s, pos + 1) * 4 == off
    ensures StepRunDone(s, cap, pos, out) == CopyMatch(cap, out, off, 3, pos + 2)
  {
  }

  lemma MXDecodes(s: seq<byte>, cap: nat, pos: nat, out: seq<byte>, len: nat, off: nat, tail: nat)
    requires InRange(MX, len, off) && tail <= 3 && Has(s, pos, MatchHead(MX, len, off, tail)) && off <= |out|
    requires |out| + len <= cap
    ensures StepRunDone(s, cap, pos, out) == Conf(Done, pos + 2, Lz77.CopyFrom(out, off, len))
  {
    hide CopyMatch, Has, At, StepRunDone, Lz77.CopyFrom;
    HasAt(s, pos, MatchHead(MX, len, off, tail), 0);
    HasAt(s, pos, MatchHead(MX, len, off, tail), 1);
    M1Fields(off - 1 - M2_MAX_OFFSET, tail);
    RunDoneMX(s, cap, pos, out, off);
    CopyFits(cap, out, off, len, pos + 2);
  }

  lemma M3Shape(len: nat, off: nat, tail: nat)
    requires tail <= 3 && InRange(M3, len, off)
    ensures len <= M3_MAX_LEN ==> MatchHead(M3, len, off, tail) == [32 + (len - 2)] + OffsetBytes(off - 1, tail)
    ensures len > M3_MAX_LEN ==>
            MatchHead(M3, len, off, tail) == ([32] + LongNumber(len - M3_MAX_LEN)) + OffsetBytes(off - 1, tail)
  {
    hide LongNumber, OffsetBytes;
  }

  lemma M4Shape(len: nat, off: nat, tail: nat)
    requires tail <= 3 && InRange(M4, len, off)
    ensures var o := off - 0x4000;
            MatchHead(M4, len, off, tail)
              == LengthHead(16 + o / 0x4000 * 8, M4_MAX_LEN, len) + OffsetBytes(o % 0x4000, tail)
  {
    hide LengthHead, OffsetBytes;
  }

  lemma M3Short(s: seq<byte>, end: nat, cap: nat, pos: nat, out: seq<byte>, n: nat, low: nat, tail: nat)
    requires 1 <= n <= 31 && low < 0x4000 && tail <= 3 && Has(s, pos, [32 + n] + OffsetBytes(low, tail)) && low < |out|
    requires |out| + n + 2 <= cap
    ensures StepHead(s, end, cap, pos + 1, out, 32 + n) == Conf(Done, pos + 3, Lz77.CopyFrom(out, low + 1, n + 2))
  {
    hide CopyMatch, Has, At, ReadLong, StepHead, Offset, OffsetBytes, Lz77.CopyFrom;
    HasConcat(s, pos, [32 + n], OffsetBytes(low, tail));
    OffsetRead(s, pos + 1, low, tail);
    CopyFits(cap, out, low + 1, n + 2, pos + 3);
    HeadM3(s, end, cap, pos + 1, out, 32 + n);
  }

  lemma M3Long(s: seq<byte>, end: nat, cap: nat, pos: nat, out: seq<byte>, v: nat, low: nat, tail: nat)
    requires v > 0 && low < 0x4000 && tail <= 3 && Has(s, pos, ([32] + LongNumber(v)) + OffsetBytes(low, tail))
    requires low < |out| && |out| + v + 33 <= cap && pos + 1 + |LongNumber(v)| <= end
    ensures StepHead(s, end, cap, pos + 1, out, 32)
            == Conf(Done, pos + 1 + |LongNumber(v)| + 2, Lz77.CopyFrom(out, low + 1, v + 33))
  {
    hide CopyMatch, Has, At, ReadLong, StepHead, Offset, LongNumber, OffsetBytes, Lz77.CopyFrom;
    var p := pos + 1 + |LongNumber(v)|;
    HasConcat(s, pos, [32] + LongNumber(v), OffsetBytes(low, tail));
    HasConcat(s, pos, [32], LongNumber(v));
    OffsetRead(s, p, low, tail);
    CopyFits(cap, out, low + 1, v + 33, p + 2);
    ReadsLong(s, pos + 1, end, v);
    HeadM3Long(s, end, cap, pos + 1, out, v, p);
  }

  lemma M3Decodes(s: seq<byte>, end: nat, cap: nat, pos: nat, out: seq<byte>, len: nat, off: nat, tail: nat)
    requires InRange(M3, len, off) && tail <= 3 && Has(s, pos, MatchHead(M3, len, off, tail)) && off <= |out|
    requires |out| + len <= cap
    requires pos + |MatchHead(M3, len, off, tail)| <= end
    ensures StepHead(s, end, cap, pos + 1, out, MatchHead(M3, len, off, tail)[0])
         == Conf(Done, pos + |MatchHead(M3, len, off, tail)|, Lz77.CopyFrom(out, off, len))
  {
    hide Has, StepHead, LongNumber, OffsetBytes, MatchHead, Lz77.CopyFrom;
    M3Shape(len, off, tail);
    if len <= M3_MAX_LEN {
      M3Short(s, end, cap, pos, out, len - 2, off - 1, tail);
    } else {
      M3Long(s, end, cap, pos, out, len - M3_MAX_LEN, off - 1, tail);
    }
  }

  lemma M4Copies(s: seq<byte>, end: nat, cap: nat, p: nat, out: seq<byte>, high: nat, n: nat, len: nat, off: nat)
    requires off > 0x4000 && high + Offset(s, p) == off - 0x4000 && n + 2 == len
    ensures StepM4(s, end, cap, p, out, high, n) == CopyMatch(cap, out, off, len, p + 2)
  {
    hide Offset, Lz77.CopyFrom;
  }

  lemma M4Short(s: seq<byte>, end: nat, cap: nat, pos: nat, out: seq<byte>, n: nat, b: nat, low: nat, tail: nat)
    requires 1 <= n <= 7 && b < 2 && low < 0x4000 && b + low > 0 && tail <= 3
    requires Has(s, pos, [16 + b * 8 + n] + OffsetBytes(low, tail))
    requires (b + 1) * 0x4000 + low <= |out| && |out| + n + 2 <= cap
    ensures StepHead(s, end, cap, pos + 1, out, 16 + b * 8 + n)
            == Conf(Done, pos + 3, Lz77.CopyFrom(out, (b + 1) * 0x4000 + low, n + 2))
  {
    hide CopyMatch, Has, At, ReadLong, StepHead, StepM4, Offset, OffsetBytes, Lz77.CopyFrom;
    HasConcat(s, pos, [16 + b * 8 + n], OffsetBytes(low, tail));
    OffsetRead(s, pos + 1, low, tail);
    CopyFits(cap, out, (b + 1) * 0x4000 + low, n + 2, pos + 3);
    M4Fields(b, n);
    HeadM4(s, end, cap, pos + 1, out, 16 + b * 8 + n, b * 0x4000);
    M4Copies(s, end, cap, pos + 1, out, b * 0x4000, n, n + 2, (b + 1) * 0x4000 + low);
  }

  lemma M4Long(s: seq<byte>, end: nat, cap: nat, pos: nat, out: seq<byte>, v: nat, b: nat, low: nat, tail: nat)
    requires v > 0 && b < 2 && low < 0x4000 && b + low > 0 && tail <= 3
    requires Has(s, pos, ([16 + b * 8] + LongNumber(v)) + OffsetBytes(low, tail))
    requires (b + 1) * 0x4000 + low <= |out| && |out| + v + 9 <= cap && pos + 1 + |LongNumber(v)| <= end
    ensures StepHead(s, end, cap, pos + 1, out, 16 + b * 8)
         == Conf(Done, pos + 1 + |LongNumber(v)| + 2, Lz77.CopyFrom(out, (b + 1) * 0x4000 + low, v + 9))
  {
    hide CopyMatch, Has, At, ReadLong, StepHead, StepM4, Offset, LongNumber, OffsetBytes, Lz77.CopyFrom;
    var p, off := pos + 1 + |LongNumber(v)|, (b + 1) * 0x4000 + low;
    HasConcat(s, pos, [16 + b * 8] + LongNumber(v), OffsetBytes(low, tail));
    HasConcat(s, pos, [16 + b * 8], LongNumber(v));
    OffsetRead(s, p, low, tail);
    CopyFits(cap, out, off, v + 9, p + 2);
    ReadsLong(s, pos + 1, end, v);
    M4Fields(b, 0);
    HeadM4Long(s, end, cap, pos + 1, out, 16 + b * 8, b * 0x4000, v, p);
    M4Copies(s, end, cap, p, out, b * 0x4000, 7 + v, v + 9, off);
  }

  lemma M4DecodesAt(s: seq<byte>, end: nat, cap: nat, pos: nat, out: seq<byte>, len: nat, b: nat, low: nat, tail: nat)
    requires b < 2 && low < 0x4000 && b + low > 0 && len >= 3 && tail <= 3
    requires Has(s, pos, LengthHead(16 + b * 8, M4_MAX_LEN, len) + OffsetBytes(low, tail))
    requires (b + 1) * 0x4000 + low <= |out| && |out| + len <= cap
    requires pos + |LengthHead(16 + b * 8, M4_MAX_LEN, len)| + 2 <= end
    ensures StepHead(s, end, cap, pos + 1, out, LengthHead(16 + b * 8, M4_MAX_LEN, len)[0])
         == Conf(Done, pos + |LengthHead(16 + b * 8, M4_MAX_LEN, len)| +
           2, Lz77.CopyFrom(out, (b + 1) * 0x4000 + low, len))
  {
    hide Has, StepHead, LongNumber, OffsetBytes, Lz77.CopyFrom;
    if len <= M4_MAX_LEN {
      M4Short(s, end, cap, pos, out, len - 2, b, low, tail);
    } else {
      M4Long(s, end, cap, pos, out, len - M4_MAX_LEN, b, low, tail);
    }
  }

  lemma M4Decodes(s: seq<byte>, end: nat, cap: nat, pos: nat, out: seq<byte>, len: nat, off: nat, tail: nat)
    requires InRange(M4, len, off) && tail <= 3 && Has(s, pos, MatchHead(M4, len, off, tail)) && off <= |out|
    requires |out| + len <= cap
    requires pos + |MatchHead(M4, len, off, tail)| <= end
    ensures StepHead(s, end, cap, pos + 1, out, MatchHead(M4, len, off, tail)[0])
         == Conf(Done, pos + |MatchHead(M4, len, off, tail)|, Lz77.CopyFrom(out, off, len))
  {
    hide Has, StepHead, LengthHead, OffsetBytes, MatchHead, Lz77.CopyFrom;
    M4Shape(len, off, tail);
    var o := off - 0x4000;
    NotEmpty(16 + o / 0x4000 * 8, M4_MAX_LEN, len);
    M4DecodesAt(s, end, cap, pos, out, len, o / 0x4000, o % 0x4000, tail);
  }

  lemma NotEmpty(m: nat, max: nat, len: nat)
    requires 3 <= len && 3 <= max && m + max < 256
    ensures |LengthHead(m, max, len)| > 0
  {
  }

  // ---- whole instructions

  /** With the output `gap` bytes before the input in one buffer: what is written does not reach the bytes still to
      be read. */
  ghost predicate Room(c: Conf, gap: int) { c.Conf? ==> |c.out| + 2 <= gap + c.pos }

  /** There is room in every configuration from `c` on. */
  ghost predicate Roomy(s: seq<byte>, end: nat, cap: nat, c: Conf, gap: int)
    requires Sane(end, c) && end < 0x1_0000_0000
    decreases Weight(end, c)
  {
    Room(c, gap) && (c.Halt? || (StepSane(s, end, cap, c); Roomy(s, end, cap, Step(s, end, cap, c), gap)))
  }

  /** `d` comes after `c`: the same result, and room from `d` on is room from `c` on. */
  ghost predicate Leads(s: seq<byte>, end: nat, cap: nat, c: Conf, d: Conf, gap: int) {
    && end < 0x1_0000_0000 && Sane(end, c) && Sane(end, d) && Result(s, end, cap, c) == Result(s, end, cap, d)
    && (Room(c, gap) && Roomy(s, end, cap, d, gap) ==> Roomy(s, end, cap, c, gap))
  }

  lemma OneStep(s: seq<byte>, end: nat, cap: nat, c: Conf, gap: int)
    requires Sane(end, c) && c.Conf? && end < 0x1_0000_0000
    ensures Leads(s, end, cap, c, Step(s, end, cap, c), gap)
  {
    hide Step, Sane, Weight;
    StepSane(s, end, cap, c);
  }

  /** Steps compose, if there is room in between whenever there is at the end. */
  lemma LeadsOn(s: seq<byte>, end: nat, cap: nat, c: Conf, d: Conf, e: Conf, gap: int)
    requires Leads(s, end, cap, c, d, gap) && Leads(s, end, cap, d, e, gap)
    requires Room(c, gap) && Room(e, gap) ==> Room(d, gap)
    ensures Leads(s, end, cap, c, e, gap)
  {
    hide Step, Sane, Weight, Result;
  }

  /** The label at which an instruction starts. */
  function PhaseOf(st: State): Phase {
    match st
    case Start => Begin
    case AfterRun => RunDone
    case AfterShort => Short
    case AfterMatch => Top
  }

  /** From the end of a match's bytes through its literals. */
  lemma TailDecodes(s: seq<byte>, end: nat, cap: nat, pos: nat, out: seq<byte>, tail: seq<byte>, gap: int)
    requires 2 <= pos && |tail| <= 3 && At(s, pos - 2) % 4 == |tail| && Has(s, pos, tail)
    requires pos + |tail| + 3 <= end < 0x1_0000_0000
    requires |out| + |tail| <= cap
    ensures Leads(s, end, cap, Conf(Done, pos, out),
            Conf(if tail == [] then Top else Short, pos + |tail|, out + tail), gap)
  {
    hide Leads, Has, Slice, Lz77.CopyFrom;
    var c := Conf(Done, pos, out);
    OneStep(s, end, cap, c, gap);
    if tail == [] {
      assert out + tail == out;
    } else {
      var d := Conf(Tail(|tail|), pos, out);
      HasSlice(s, pos, tail);
      OneStep(s, end, cap, d, gap);
      LeadsOn(s, end, cap, c, d, Conf(Short, pos + |tail|, out + tail), gap);
    }
  }

  /** The bytes of a match that is not of the form MX. */
  lemma HeadDecodes(s: seq<byte>, end: nat, cap: nat, k: Kind, len: nat, off: nat, tail: nat, pos: nat, out: seq<byte>)
    requires k != MX && InRange(k, len, off) && tail <= 3 && off <= |out| && |out| + len <= cap
    requires Has(s, pos, MatchHead(k, len, off, tail)) && pos + |MatchHead(k, len, off, tail)| <= end
    ensures |MatchHead(k, len, off, tail)| >= 2
    ensures StepHead(s, end, cap, pos + 1, out, MatchHead(k, len, off, tail)[0])
         == Conf(Done, pos + |MatchHead(k, len, off, tail)|, Lz77.CopyFrom(out, off, len))
  {
    hide Has, MatchHead, StepHead, Lz77.CopyFrom;
    MatchMarks(s, pos, k, len, off, tail);
    match k
    case M1 =>
      M1Decodes(s, end, cap, pos, out, len, off, tail);
      ShortHeads(k, len, off, tail);
    case M2 =>
      M2Decodes(s, end, cap, pos, out, len, off, tail);
      ShortHeads(k, len, off, tail);
    case M3 => M3Decodes(s, end, cap, pos, out, len, off, tail);
    case M4 => M4Decodes(s, end, cap, pos, out, len, off, tail);
  }

  /** From the label where a match starts to the end of its bytes. */
  lemma MatchDecodes(s: seq<byte>, end: nat, cap: nat, st: State, k: Kind, len: nat, off: nat, tail: nat, pos: nat,
                     out: seq<byte>, gap: int)
    requires st != Start && InRange(k, len, off) && tail <= 3 && (k == M1 ==> st == AfterShort)
    requires (k == MX ==> st == AfterRun)
    requires Has(s, pos, MatchHead(k, len, off, tail))
    requires pos + |MatchHead(k, len, off, tail)| + 3 <= end < 0x1_0000_0000
    requires off <= |out| && |out| + len <= cap
    ensures Leads(s, end, cap, Conf(PhaseOf(st), pos, out),
            Conf(Done, pos + |MatchHead(k, len, off, tail)|, Lz77.CopyFrom(out, off, len)), gap)
  {
    hide Leads, Has, MatchHead, StepHead, StepRunDone, Step, At, Room, Lz77.CopyFrom;
    MatchMarks(s, pos, k, len, off, tail);
    var h := MatchHead(k, len, off, tail);
    var c, e := Conf(PhaseOf(st), pos, out), Conf(Done, pos + |h|, Lz77.CopyFrom(out, off, len));
    Labels(end, st, pos, out);
    OneStep(s, end, cap, c, gap);
    if k == MX {
      StepLabels(s, end, cap, pos, out, 0);
      MXDecodes(s, cap, pos, out, len, off, tail);
      ShortHeads(k, len, off, tail);
    } else {
      var d := Conf(Head(h[0]), pos + 1, out);
      ToHead(s, end, cap, st, pos, out, k);
      HeadDecodes(s, end, cap, k, len, off, tail, pos, out);
      StepLabels(s, end, cap, pos + 1, out, h[0]);
      Closer(c, d, gap);
      OneStep(s, end, cap, d, gap);
      LeadsOn(s, end, cap, c, d, e, gap);
    }
  }

  lemma Labels(end: nat, st: State, pos: nat, out: seq<byte>)
    requires st != Start && pos < end
    ensures Sane(end, Conf(PhaseOf(st), pos, out))
  {
  }

  lemma StepLabels(s: seq<byte>, end: nat, cap: nat, pos: nat, out: seq<byte>, t: nat)
    ensures Step(s, end, cap, Conf(RunDone, pos, out)) == StepRunDone(s, cap, pos, out)
    ensures Step(s, end, cap, Conf(Head(t), pos, out)) == StepHead(s, end, cap, pos, out, t)
  {
  }

  /** Reading a byte makes room. */
  lemma Closer(c: Conf, d: Conf, gap: int)
    requires c.Conf? && d.Conf? && c.out == d.out && c.pos <= d.pos
    ensures Room(c, gap) ==> Room(d, gap)
  {
  }

  lemma ShortHeads(k: Kind, len: nat, off: nat, tail: nat)
    requires InRange(k, len, off) && tail <= 3 && (k == M1 || k == MX || k == M2)
    ensures |MatchHead(k, len, off, tail)| == 2
  {
  }

  lemma ToHead(s: seq<byte>, end: nat, cap: nat, st: State, pos: nat, out: seq<byte>, k: Kind)
    requires st != Start && k != MX && (k == M1 <==> At(s, pos) < 16) && (k == M1 ==> st == AfterShort)
    requires pos + 2 <= end
    ensures Step(s, end, cap, Conf(PhaseOf(st), pos, out)) == Conf(Head(At(s, pos)), pos + 1, out)
  {
  }

  lemma RunDecodes(s: seq<byte>, end: nat, cap: nat, lits: seq<byte>, pos: nat, out: seq<byte>, gap: int)
    requires |lits| >= 4 && Has(s, pos, RunHead(|lits|) + lits)
    requires pos + |RunHead(|lits|)| + |lits| + 3 <= end < 0x1_0000_0000
    requires |out| + |lits| <= cap
    ensures Leads(s, end, cap, Conf(Top, pos, out), Conf(RunDone, pos + |RunHead(|lits|)| + |lits|, out + lits), gap)
  {
    hide Leads, Has, Slice, LongNumber, ReadLong;
    var n, h := |lits|, RunHead(|lits|);
    HasConcat(s, pos, h, lits);
    HasAt(s, pos, h, 0);
    if n > 18 {
      HasConcat(s, pos, [0], LongNumber(n - 18));
      ReadsLong(s, pos + 1, end, n - 18);
    }
    var c, d := Conf(Top, pos, out), Conf(Lits(n - 3), pos + |h|, out);
    OneStep(s, end, cap, c, gap);
    HasSlice(s, pos + |h|, lits);
    OneStep(s, end, cap, d, gap);
    LeadsOn(s, end, cap, c, d, Conf(RunDone, pos + |h| + n, out + lits), gap);
  }

  /** At the very start, a byte up to 17 begins the ordinary loop. */
  lemma BeginTop(s: seq<byte>, end: nat, cap: nat, out: seq<byte>, d: Conf, gap: int)
    requires At(s, 0) <= 17 && 1 <= end && Leads(s, end, cap, Conf(Top, 0, out), d, gap)
    ensures Leads(s, end, cap, Conf(Begin, 0, out), d, gap)
  {
    hide Leads;
    assert end < 0x1_0000_0000 by { LeadsEnd(s, end, cap, Conf(Top, 0, out), d, gap); }
    OneStep(s, end, cap, Conf(Begin, 0, out), gap);
    LeadsOn(s, end, cap, Conf(Begin, 0, out), Conf(Top, 0, out), d, gap);
  }

  lemma LeadsEnd(s: seq<byte>, end: nat, cap: nat, c: Conf, d: Conf, gap: int)
    requires Leads(s, end, cap, c, d, gap)
    ensures end < 0x1_0000_0000 && Sane(end, c) && Sane(end, d)
  {
    hide Result, Roomy, Sane;
  }

  lemma FirstDecodes(s: seq<byte>, end: nat, cap: nat, lits: seq<byte>, out: seq<byte>, gap: int)
    requires 1 <= |lits| <= 238 && Has(s, 0, [17 + |lits|] + lits) && 1 + |lits| + 3 <= end < 0x1_0000_0000
    requires |out| + |lits| <= cap
    ensures Leads(s, end, cap, Conf(Begin, 0, out),
            Conf(if |lits| < 4 then Short else RunDone, 1 + |lits|, out + lits), gap)
  {
    hide Leads, Has, Slice;
    HasAt(s, 0, [17 + |lits|] + lits, 0);
    HasConcat(s, 0, [17 + |lits|], lits);
    HasSlice(s, 1, lits);
    var c := Conf(Begin, 0, out);
    OneStep(s, end, cap, c, gap);
    if |lits| < 4 {
      var d := Conf(Tail(|lits|), 1, out);
      OneStep(s, end, cap, d, gap);
      LeadsOn(s, end, cap, c, d, Conf(Short, 1 + |lits|, out + lits), gap);
    }
  }

  /** One instruction is decoded from the label where it starts to the label where the next one starts. */
  lemma InstrDecodes(s: seq<byte>, end: nat, cap: nat, st: State, i: Instr, pos: nat, out: seq<byte>, gap: int)
    requires Allowed(st, i) && Sound(i) && Has(s, pos, Bytes(i)) && pos + |Bytes(i)| + 3 <= end < 0x1_0000_0000
    requires Apply(out, i).Some? && |Apply(out, i).value| <= cap && (st == Start ==> pos == 0)
    ensures Leads(s, end, cap, Conf(PhaseOf(st), pos, out),
            Conf(PhaseOf(Next(i)), pos + |Bytes(i)|, Apply(out, i).value), gap)
  {
    hide Leads, Has, MatchHead, LongNumber, Lz77.CopyFrom;
    match i
    case First(lits) => FirstDecodes(s, end, cap, lits, out, gap);
    case Run(lits) =>
      RunDecodes(s, end, cap, lits, pos, out, gap);
      if st == Start {
        HasAt(s, 0, Bytes(i), 0);
        BeginTop(s, end, cap, out, Conf(RunDone, pos + |Bytes(i)|, out + lits), gap);
      }
    case Copy(k, len, off, tail) =>
      var h, mid := MatchHead(k, len, off, |tail|), Lz77.CopyFrom(out, off, len);
      HasConcat(s, pos, h, tail);
      MatchMarks(s, pos, k, len, off, |tail|);
      MatchDecodes(s, end, cap, st, k, len, off, |tail|, pos, out, gap);
      TailDecodes(s, end, cap, pos + |h|, mid, tail, gap);
      LeadsOn(s, end, cap, Conf(PhaseOf(st), pos, out), Conf(Done, pos + |h|, mid),
              Conf(PhaseOf(Next(i)), pos + |h| + |tail|, mid + tail), gap);
  }

  lemma {:induction false} ReadsZeros(s: seq<byte>, pos: nat, p: nat, end: nat)
    requires pos < p <= end && At(s, p - 1) != 0 && forall i: nat :: pos <= i < p - 1 ==> At(s, i) == 0
    ensures ReadLong(s, pos, end).Some? && ReadLong(s, pos, end).value.1 == p
    decreases p - pos
  {
    if pos + 1 < p { ReadsZeros(s, pos + 1, p, end); }
  }

  /** At an end mark the decoder stops. */
  lemma MarkDecodes(s: seq<byte>, end: nat, cap: nat, pos: nat, out: seq<byte>, mark: seq<byte>)
    requires Has(s, pos, mark) && EndMark(mark) && pos + |mark| == end
    ensures At(s, pos) == mark[0] && 16 <= mark[0] < 24
    ensures StepHead(s, end, cap, pos + 1, out, mark[0]) == Halt(Ok, out)
  {
    hide Has;
    var n := |mark|;
    HasAt(s, pos, mark, 0);
    HasAt(s, pos, mark, n - 1);
    HasAt(s, pos, mark, n - 2);
    if n > 3 {
      HasAt(s, pos, mark, n - 3);
      forall i: nat | pos + 1 <= i < pos + n - 3 ensures At(s, i) == 0 { HasAt(s, pos, mark, i - pos); }
      ReadsZeros(s, pos + 1, pos + n - 2, end);
      HeadM4Long(s, end, cap, pos + 1, out, 16, 0, ReadLong(s, pos + 1, end).value.0, pos + n - 2);
    } else {
      HeadM4(s, end, cap, pos + 1, out, mark[0], 0);
    }
  }

  lemma EndDecodes(s: seq<byte>, end: nat, cap: nat, st: State, pos: nat, out: seq<byte>, gap: int, mark: seq<byte>)
    requires Has(s, pos, mark) && EndMark(mark) && pos + |mark| == end < 0x1_0000_0000
    requires st == Start ==> pos == 0 && mark[0] <= 17
    ensures Leads(s, end, cap, Conf(PhaseOf(st), pos, out), Halt(Ok, out), gap)
  {
    hide Leads, Has, StepHead;
    MarkDecodes(s, end, cap, pos, out, mark);
    var d := Conf(Head(mark[0]), pos + 1, out);
    OneStep(s, end, cap, d, gap);
    assert Step(s, end, cap, d) == Halt(Ok, out);
    if st == Start {
      OneStep(s, end, cap, Conf(Top, 0, out), gap);
      LeadsOn(s, end, cap, Conf(Top, 0, out), d, Halt(Ok, out), gap);
      BeginTop(s, end, cap, out, Halt(Ok, out), gap);
    } else {
      var c := Conf(PhaseOf(st), pos, out);
      OneStep(s, end, cap, c, gap);
      LeadsOn(s, end, cap, c, d, Halt(Ok, out), gap);
    }
  }

  /** There is room at the start of every instruction and at the end. */
  ghost predicate Spacious(ins: seq<Instr>, pos: nat, out: seq<byte>, gap: int)
    requires AllSound(ins)
    decreases |ins|
  {
    && |out| + 2 <= gap + pos
    && (ins != [] && Apply(out, ins[0]).Some? ==>
       Spacious(ins[1..], pos + |Bytes(ins[0])|, Apply(out, ins[0]).value, gap))
  }

  lemma {:induction false} ExpandGrows(out: seq<byte>, ins: seq<Instr>)
    requires Expand(out, ins).Some?
    ensures |out| <= |Expand(out, ins).value|
    decreases |ins|
  {
    if ins != [] { ExpandGrows(Apply(out, ins[0]).value, ins[1..]); }
  }

  /** Well-formed instructions and an end mark are decoded to the bytes they stand for, whatever lies behind them. */
  lemma {:induction false} StreamDecodes(s: seq<byte>, end: nat, cap: nat, st: State, ins: seq<Instr>, pos: nat,
                                         out: seq<byte>, gap: int, mark: seq<byte>)
    requires WellFormed(st, ins) && AllSound(ins) && EndMark(mark) && Has(s, pos, Stream(ins) + mark)
    requires pos + |Stream(ins) + mark| == end < 0x1_0000_0000
    requires Expand(out, ins).Some? && |Expand(out, ins).value| <= cap
    requires st == Start ==> pos == 0 && (ins == [] ==> mark[0] <= 17)
    ensures Sane(end, Conf(PhaseOf(st), pos, out))
    ensures Result(s, end, cap, Conf(PhaseOf(st), pos, out)) == Halt(Ok, Expand(out, ins).value)
    ensures Spacious(ins, pos, out, gap) ==> Roomy(s, end, cap, Conf(PhaseOf(st), pos, out), gap)
    decreases |ins|
  {
    hide Leads, Has, Bytes, Apply, Allowed, Step, Sound, Stream, PhaseOf;
    if ins == [] {
      assert Stream(ins) + mark == mark by { StreamEmpty(); }
      EndDecodes(s, end, cap, st, pos, out, gap, mark);
      LeadsHalt(s, end, cap, Conf(PhaseOf(st), pos, out), Halt(Ok, out), gap);
    } else {
      var i, rest := ins[0], ins[1..];
      StreamFront(ins);
      Assoc(Bytes(i), Stream(rest), mark);
      HasConcat(s, pos, Bytes(i), Stream(rest) + mark);
      ExpandGrows(Apply(out, i).value, rest);
      InstrDecodes(s, end, cap, st, i, pos, out, gap);
      NeverStart(i);
      StreamDecodes(s, end, cap, Next(i), rest, pos + |Bytes(i)|, Apply(out, i).value, gap, mark);
      LeadsRoom(s, end, cap, Conf(PhaseOf(st), pos, out), Conf(PhaseOf(Next(i)), pos + |Bytes(i)|, Apply(out, i).value),
                gap);
    }
  }

  lemma StreamEmpty()
    ensures Stream([]) == []
  {
  }

  lemma NeverStart(i: Instr)
    ensures Next(i) != Start
  {
  }

  lemma LeadsHalt(s: seq<byte>, end: nat, cap: nat, c: Conf, h: Conf, gap: int)
    requires Leads(s, end, cap, c, h, gap) && h.Halt?
    ensures Sane(end, c) && Result(s, end, cap, c) == h && (Room(c, gap) ==> Roomy(s, end, cap, c, gap))
  {
    hide Step, Weight;
  }

  lemma LeadsRoom(s: seq<byte>, end: nat, cap: nat, c: Conf, d: Conf, gap: int)
    requires Leads(s, end, cap, c, d, gap)
    ensures Sane(end, c) && Sane(end, d) && end < 0x1_0000_0000 && Result(s, end, cap, c) == Result(s, end, cap, d)
    ensures Room(c, gap) && Roomy(s, end, cap, d, gap) ==> Roomy(s, end, cap, c, gap)
  {
    hide Step, Weight, Sane, Result, Roomy;
  }

  /** A well-formed file decodes to exactly the bytes it stands for. */
  lemma FileDecodes(s: seq<byte>, ins: seq<Instr>, cap: nat)
    requires WellFormed(Start, ins) && AllSound(ins) && File(ins) <= s && |File(ins)| < 0x1_0000_0000
    requires Expand([], ins).Some? && |Expand([], ins).value| <= cap
    ensures Decode(s, |File(ins)|, cap) == Halt(Ok, Expand([], ins).value)
  {
    hide Result, WellFormed, AllSound, Expand;
    assert |File(ins)| >= 3;
    StreamDecodes(s, |File(ins)|, cap, Start, ins, 0, [], 0, END_MARKER);
  }
}
