/** What lzo1x_decompress_safe accepts: exactly the well-formed streams whose matches and whose output fit. */
module LzoAccepts {
  import opened Bits
  import Lz77
  import RollingHash
  import opened LzoFormat
  import opened LzoDecode
  import opened LzoDecodes

  // ---- numbers

  lemma {:induction false} LongIs(s: seq<byte>, pos: nat, end: nat)
    requires pos <= end <= |s| && ReadLong(s, pos, end).Some?
    ensures var (v, p) := ReadLong(s, pos, end).value;
            && v > 0 && pos < p <= end && s[pos..p] == LongNumber(v)
            && s[p - 1] != 0 && forall i :: pos <= i < p - 1 ==> s[i] == 0
    decreases end - pos
  {
    var (v, p) := ReadLong(s, pos, end).value;
    if s[pos] == 0 {
      LongIs(s, pos + 1, end);
      assert s[pos..p] == [0] + s[pos + 1..p];
    } else {
      assert s[pos..p] == [s[pos]];
    }
  }

  // ---- the bytes of a match

  /** What the bytes from `pos` on say, when they are the head of a match. */
  datatype Shape = Shape(k: Kind, len: nat, off: nat)

  ghost predicate Shaped(s: seq<byte>, pos: nat, p: nat, h: Shape) {
    2 <= p <= |s| && pos + 2 <= p && InRange(h.k, h.len, h.off) &&
      s[pos..p] == MatchHead(h.k, h.len, h.off, s[p - 2] % 4)
  }

  lemma ShapedM2(s: seq<byte>, pos: nat)
    requires pos + 2 <= |s| && s[pos] >= 64
    ensures var t: nat, b: nat := s[pos], s[pos + 1];
            Shaped(s, pos, pos + 2, Shape(M2, t / 32 + 1, 1 + t / 4 % 8 + b * 8))
  {
    var t: nat, b: nat := s[pos], s[pos + 1];
    var off := 1 + t / 4 % 8 + b * 8;
    assert s[pos..pos + 2] == [s[pos], s[pos + 1]];
    assert t == t / 32 * 32 + t / 4 % 8 * 4 + t % 4;
    Divided(b, 8, t / 4 % 8);
  }

  lemma Divided(b: nat, m: nat, r: nat)
    requires r < m
    ensures (r + b * m) / m == b && (r + b * m) % m == r
  {
    RollingHash.ModIs(r + b * m, b, m, r);
    var q := (r + b * m) / m;
    assert r + b * m == m * q + r;
    assert m * (q - b) == 0;
    RollingHash.SmallMultiple(q - b, m);
  }

  lemma ShapedM1(s: seq<byte>, pos: nat)
    requires pos + 2 <= |s| && s[pos] < 16
    ensures var t: nat, b: nat := s[pos], s[pos + 1];
            && Shaped(s, pos, pos + 2, Shape(M1, 2, 1 + t / 4 + b * 4))
            && Shaped(s, pos, pos + 2, Shape(MX, 3, 1 + M2_MAX_OFFSET + t / 4 + b * 4))
  {
    var t: nat, b: nat := s[pos], s[pos + 1];
    assert s[pos..pos + 2] == [s[pos], s[pos + 1]];
    Divided(b, 4, t / 4);
  }

  lemma OffsetIs(s: seq<byte>, p: nat)
    requires p + 2 <= |s|
    ensures Offset(s, p) < 0x4000 && s[p..p + 2] == OffsetBytes(Offset(s, p), s[p] % 4)
  {
    var a: nat, b: nat := s[p], s[p + 1];
    Divided(b, 64, a / 4);
    assert s[p..p + 2] == [s[p], s[p + 1]];
  }

  /** A length in the marker, or behind it. */
  lemma LengthIs(s: seq<byte>, pos: nat, p: nat, m: nat, max: nat, len: nat)
    requires pos < p <= |s| && 3 <= len && 3 <= max && m + max < 256
    requires if len <= max then p == pos + 1 && s[pos] == m + (len - 2)
             else s[pos] == m && s[pos + 1..p] == LongNumber(len - max)
    ensures s[pos..p] == LengthHead(m, max, len)
  {
    hide LongNumber;
    assert s[pos..p] == [s[pos]] + s[pos + 1..p];
  }

  lemma Joined(s: seq<byte>, pos: nat, p: nat, q: nat, a: seq<byte>, b: seq<byte>)
    requires pos <= p <= q <= |s| && s[pos..p] == a && s[p..q] == b
    ensures s[pos..q] == a + b
  {
    assert s[pos..q] == s[pos..p] + s[p..q];
  }

  lemma ShapedM3(s: seq<byte>, pos: nat, p: nat, len: nat)
    requires pos < p && p + 2 <= |s| && 3 <= len
    requires if len <= 33 then p == pos + 1 && s[pos] == 32 + (len - 2)
             else s[pos] == 32 && s[pos + 1..p] == LongNumber(len - 33)
    ensures Shaped(s, pos, p + 2, Shape(M3, len, 1 + Offset(s, p)))
  {
    hide LengthHead, OffsetBytes, Offset, LongNumber;
    LengthIs(s, pos, p, 32, M3_MAX_LEN, len);
    OffsetIs(s, p);
    Joined(s, pos, p, p + 2, LengthHead(32, M3_MAX_LEN, len), OffsetBytes(Offset(s, p), s[p] % 4));
  }

  lemma ShapedM4(s: seq<byte>, pos: nat, p: nat, h: nat, len: nat)
    requires pos < p && p + 2 <= |s| && 3 <= len && h <= 1 && (h > 0 || Offset(s, p) > 0)
    requires if len <= 9 then p == pos + 1 && s[pos] == 16 + h * 8 + (len - 2)
             else s[pos] == 16 + h * 8 && s[pos + 1..p] == LongNumber(len - 9)
    ensures Shaped(s, pos, p + 2, Shape(M4, len, h * 0x4000 + Offset(s, p) + 0x4000))
  {
    hide LengthHead, OffsetBytes, Offset, LongNumber;
    OffsetIs(s, p);
    var o := Offset(s, p);
    Divided(h, 0x4000, o);
    LengthIs(s, pos, p, 16 + h * 8, M4_MAX_LEN, len);
    Joined(s, pos, p, p + 2, LengthHead(16 + h * 8, M4_MAX_LEN, len), OffsetBytes(o, s[p] % 4));
  }

  // ---- one step at the head of a match

  /** A step that copies a match. */
  ghost predicate Copies(cap: nat, out: seq<byte>, d: Conf, p: nat, h: Shape) {
    1 <= h.off <= |out| && |out| + h.len <= cap && d == Conf(Done, p, Lz77.CopyFrom(out, h.off, h.len))
  }

  lemma CopyIs(cap: nat, out: seq<byte>, off: nat, len: nat, p: nat, k: Kind)
    requires CopyMatch(cap, out, off, len, p).Conf?
    ensures Copies(cap, out, CopyMatch(cap, out, off, len, p), p, Shape(k, len, off))
  {
    hide Lz77.CopyFrom;
  }

  /** The head of a match is decoded to a match of that shape, or the stream ends. */
  lemma HeadIs(s: seq<byte>, end: nat, cap: nat, pos: nat, out: seq<byte>) returns (h: Shape)
    requires pos < end <= |s| && HeadReach(s, end, pos + 1, s[pos]) <= end
    requires var d := StepHead(s, end, cap, pos + 1, out, s[pos]); d.Conf? || d.code == Ok
    ensures var d := StepHead(s, end, cap, pos + 1, out, s[pos]);
            if d.Halt? then d == Halt(Ok, out) && EndMark(s[pos..end])
            else pos + 2 <= d.pos <= end && Shaped(s, pos, d.pos, h) && Copies(cap, out, d, d.pos, h) && h.k != MX
                 && (h.k == M1 <==> s[pos] < 16)
  {
    hide Lz77.CopyFrom, Shaped, Copies, CopyMatch, EndMark;
    var t: nat := s[pos];
    if t >= 64 {
      h := HeadM2Is(s, end, cap, pos, out);
    } else if t >= 32 {
      h := HeadM3Is(s, end, cap, pos, out);
    } else if t >= 16 {
      h := HeadM4Is(s, end, cap, pos, out);
    } else {
      h := HeadM1Is(s, end, cap, pos, out);
    }
  }

  lemma HeadM2Is(s: seq<byte>, end: nat, cap: nat, pos: nat, out: seq<byte>) returns (h: Shape)
    requires pos + 2 <= end <= |s| && s[pos] >= 64
    requires var d := StepHead(s, end, cap, pos + 1, out, s[pos]); d.Conf? || d.code == Ok
    ensures var d := StepHead(s, end, cap, pos + 1, out, s[pos]);
            d.Conf? && h.k == M2 && d.pos == pos + 2 && Shaped(s, pos, d.pos, h) && Copies(cap, out, d, d.pos, h)
  {
    hide Shaped, Copies;
    var t: nat, b: nat := s[pos], s[pos + 1];
    h := Shape(M2, t / 32 + 1, 1 + t / 4 % 8 + b * 8);
    ShapedM2(s, pos);
    CopyIs(cap, out, h.off, h.len, pos + 2, M2);
    CopiesPos(cap, out, StepHead(s, end, cap, pos + 1, out, s[pos]), pos + 2, h);
  }

  lemma CopiesPos(cap: nat, out: seq<byte>, d: Conf, p: nat, h: Shape)
    requires Copies(cap, out, d, p, h)
    ensures d.Conf? && d.phase == Done && d.pos == p
  {
    hide Lz77.CopyFrom;
  }

  lemma HeadM1Is(s: seq<byte>, end: nat, cap: nat, pos: nat, out: seq<byte>) returns (h: Shape)
    requires pos + 2 <= end <= |s| && s[pos] < 16
    requires var d := StepHead(s, end, cap, pos + 1, out, s[pos]); d.Conf? || d.code == Ok
    ensures var d := StepHead(s, end, cap, pos + 1, out, s[pos]);
            d.Conf? && h.k == M1 && d.pos == pos + 2 && Shaped(s, pos, d.pos, h) && Copies(cap, out, d, d.pos, h)
  {
    hide Shaped, Copies;
    var t: nat, b: nat := s[pos], s[pos + 1];
    h := Shape(M1, 2, 1 + t / 4 + b * 4);
    ShapedM1(s, pos);
    CopyIs(cap, out, h.off, h.len, pos + 2, M1);
    CopiesPos(cap, out, StepHead(s, end, cap, pos + 1, out, s[pos]), pos + 2, h);
  }

  lemma HeadM3Is(s: seq<byte>, end: nat, cap: nat, pos: nat, out: seq<byte>) returns (h: Shape)
    requires pos < end <= |s| && HeadReach(s, end, pos + 1, s[pos]) <= end && 32 <= s[pos] < 64
    requires var d := StepHead(s, end, cap, pos + 1, out, s[pos]); d.Conf? || d.code == Ok
    ensures var d := StepHead(s, end, cap, pos + 1, out, s[pos]);
            d.Conf? && h.k == M3 && pos + 2 <= d.pos <= end && Shaped(s, pos, d.pos, h) && Copies(cap, out, d, d.pos, h)
  {
    hide Shaped, Copies, Offset;
    var t: nat := s[pos];
    var len, p;
    if t % 32 > 0 {
      len, p := t % 32 + 2, pos + 1;
    } else {
      LongIs(s, pos + 1, end);
      len, p := ReadLong(s, pos + 1, end).value.0 + 33, ReadLong(s, pos + 1, end).value.1;
    }
    h := Shape(M3, len, 1 + Offset(s, p));
    ShapedM3(s, pos, p, len);
    CopyIs(cap, out, h.off, h.len, p + 2, M3);
    CopiesPos(cap, out, StepHead(s, end, cap, pos + 1, out, s[pos]), p + 2, h);
  }

  lemma HeadM4Is(s: seq<byte>, end: nat, cap: nat, pos: nat, out: seq<byte>) returns (h: Shape)
    requires pos < end <= |s| && HeadReach(s, end, pos + 1, s[pos]) <= end && 16 <= s[pos] < 32
    requires var d := StepHead(s, end, cap, pos + 1, out, s[pos]); d.Conf? || d.code == Ok
    ensures var d := StepHead(s, end, cap, pos + 1, out, s[pos]);
            if d.Halt? then d == Halt(Ok, out) && EndMark(s[pos..end])
            else h.k == M4 && pos + 2 <= d.pos <= end && Shaped(s, pos, d.pos, h) && Copies(cap, out, d, d.pos, h)
  {
    hide Shaped, Copies, EndMark, StepHead, HeadReach, CopyMatch, Offset;
    var len, p := M4Read(s, end, cap, pos, out);
    var high: nat := s[pos] / 8 % 2;
    var o := high * 0x4000 + Offset(s, p);
    h := Shape(M4, len, o + 0x4000);
    if o == 0 {
      MarkIs(s, pos, p, len);
    } else {
      ShapedM4(s, pos, p, high, len);
      M4CopyIs(s, end, cap, p, out, high, len);
    }
  }

  /** The length of an M4 match, and where its distance stands. */
  lemma M4Read(s: seq<byte>, end: nat, cap: nat, pos: nat, out: seq<byte>) returns (len: nat, p: nat)
    requires pos < end <= |s| && HeadReach(s, end, pos + 1, s[pos]) <= end && 16 <= s[pos] < 32
    requires var d := StepHead(s, end, cap, pos + 1, out, s[pos]); d.Conf? || d.code == Ok
    ensures pos < p && p + 2 <= end && 3 <= len
    ensures StepHead(s, end, cap, pos + 1, out, s[pos])
            == StepM4(s, end, cap, p, out, (s[pos] / 8 % 2) as int * 0x4000, len - 2)
    ensures if len <= 9 then p == pos + 1 && s[pos] == 16 + s[pos] / 8 % 2 * 8 + (len - 2)
            else && s[pos] == 16 + s[pos] / 8 % 2 * 8 && s[pos + 1..p] == LongNumber(len - 9)
                 && pos + 1 < p && s[p - 1] != 0 && forall i :: pos + 1 <= i < p - 1 ==> s[i] == 0
  {
    hide StepM4, LongNumber;
    var t: nat := s[pos];
    if t % 8 > 0 {
      len, p := t % 8 + 2, pos + 1;
    } else {
      LongIs(s, pos + 1, end);
      len, p := ReadLong(s, pos + 1, end).value.0 + 9, ReadLong(s, pos + 1, end).value.1;
    }
  }

  lemma M4CopyIs(s: seq<byte>, end: nat, cap: nat, p: nat, out: seq<byte>, high: nat, len: nat)
    requires len >= 3 && high * 0x4000 + Offset(s, p) != 0
    requires var d := StepM4(s, end, cap, p, out, high * 0x4000, len - 2); d.Conf? || d.code == Ok
    ensures var d := StepM4(s, end, cap, p, out, high * 0x4000, len - 2);
            d.Conf? && d.pos == p + 2 &&
              Copies(cap, out, d, p + 2, Shape(M4, len, high * 0x4000 + Offset(s, p) + 0x4000))
  {
    hide Offset, Lz77.CopyFrom;
  }

  lemma MarkIs(s: seq<byte>, pos: nat, p: nat, len: nat)
    requires pos < p && p + 2 <= |s| && Offset(s, p) == 0
    requires if len <= 9 then 3 <= len && p == pos + 1 && s[pos] == 16 + (len - 2)
             else s[pos] == 16 && pos + 1 < p && s[p - 1] != 0 && forall i :: pos + 1 <= i < p - 1 ==> s[i] == 0
    ensures EndMark(s[pos..p + 2])
  {
    var e := s[pos..p + 2];
    assert forall i :: 0 <= i < |e| ==> e[i] == s[pos + i];
  }

  // ---- one instruction

  /** From `c`, where an instruction may start, the decoder comes to a good end with `res`. */
  ghost predicate Good(s: seq<byte>, end: nat, cap: nat, c: Conf, res: seq<byte>) {
    end <= |s| && end < 0x1_0000_0000 && Sane(end, c) && Result(s, end, cap, c) == Halt(Ok, res)
  }

  /** The next step does not look behind the input, and comes to a good end. */
  lemma GoodStep(s: seq<byte>, end: nat, cap: nat, c: Conf, res: seq<byte>)
    requires Good(s, end, cap, c, res) && c.Conf?
    ensures var d := Step(s, end, cap, c);
            && Good(s, end, cap, d, res) && Weight(end, d) < Weight(end, c) && (d.Halt? ==> d == Halt(Ok, res))
            && Reach(s, end, cap, c) <= end && (c.phase != Begin ==> c.pos <= end)
  {
    StepSane(s, end, cap, c);
    if (c.phase != Begin && c.pos > end) || Reach(s, end, cap, c) > end { PastFails(s, end, cap, c); }
    hide Step, Reach, Sane, Weight;
  }

  /** What is read at a label where an instruction may start: the end of the stream, or an instruction that leads to the
      next such label. */
  datatype Part = End | Item(i: Instr, p: nat, out: seq<byte>)

  /** `x` stands at `pos`, where the state is `st` and the output `out`. */
  ghost predicate Parsed(s: seq<byte>, end: nat, cap: nat, st: State, pos: nat, out: seq<byte>, res: seq<byte>, x: Part,
                         w: nat) {
    match x
    case End => pos < end <= |s| && EndMark(s[pos..end]) && (st == Start ==> s[pos] <= 17) && res == out
    case Item(i, p, o) =>
      && pos <= p <= end <= |s| && Allowed(st, i) && Sound(i) && s[pos..p] == Bytes(i) && Apply(out, i) == Some(o)
      && |o| <= cap && Good(s, end, cap, Conf(PhaseOf(Next(i)), p, o), res)
      && Weight(end, Conf(PhaseOf(Next(i)), p, o)) < w
  }

  /** The literals behind a match. */
  lemma TailIs(s: seq<byte>, end: nat, cap: nat, p: nat, out: seq<byte>, res: seq<byte>) returns (tail: seq<byte>)
    requires Good(s, end, cap, Conf(Done, p, out), res) && p <= end && |out| <= cap
    ensures |tail| == s[p - 2] % 4 && p + |tail| <= end && s[p..p + |tail|] == tail && |out + tail| <= cap
    ensures var d := Conf(if tail == [] then Top else Short, p + |tail|, out + tail);
            Good(s, end, cap, d, res) && Weight(end, d) < Weight(end, Conf(Done, p, out))
  {
    hide Good, Weight;
    var c := Conf(Done, p, out);
    SaneDone(s, end, cap, p, out, res);
    GoodStep(s, end, cap, c, res);
    var n: nat := s[p - 2] % 4;
    if n == 0 {
      tail := [];
      assert out + tail == out;
    } else {
      var d := Conf(Tail(n), p, out);
      GoodStep(s, end, cap, d, res);
      tail := Slice(s, p, n);
      GoodNotHalt(s, end, cap, StepTail(s, end, cap, p, out, n), res);
      assert tail == s[p..p + n];
    }
  }

  lemma SaneDone(s: seq<byte>, end: nat, cap: nat, p: nat, out: seq<byte>, res: seq<byte>)
    requires Good(s, end, cap, Conf(Done, p, out), res)
    ensures 2 <= p && end <= |s| && end < 0x1_0000_0000
  {
  }

  lemma GoodNotHalt(s: seq<byte>, end: nat, cap: nat, d: Conf, res: seq<byte>)
    requires Good(s, end, cap, d, res)
    ensures d.Halt? ==> d.code == Ok
  {
  }

  /** From the head of a match to the next label. */
  lemma HeadParsed(s: seq<byte>, end: nat, cap: nat, st: State, pos: nat, out: seq<byte>, res: seq<byte>, w: nat)
    returns (x: Part)
    requires pos < end && end <= |s| && Good(s, end, cap, Conf(Head(s[pos]), pos + 1, out), res)
    requires (s[pos] < 16 ==> st == AfterShort) && (st == Start ==> s[pos] <= 17 && out == [])
    requires Weight(end, Conf(Head(s[pos]), pos + 1, out)) <= w
    ensures Parsed(s, end, cap, st, pos, out, res, x, w)
  {
    hide Good, Weight, StepHead, EndMark, Lz77.CopyFrom, MatchHead, HeadReach, Shaped, Copies;
    var c := Conf(Head(s[pos]), pos + 1, out);
    GoodStep(s, end, cap, c, res);
    var d := StepHead(s, end, cap, pos + 1, out, s[pos]);
    GoodNotHalt(s, end, cap, d, res);
    var h := HeadIs(s, end, cap, pos, out);
    if d.Halt? {
      x := End;
    } else {
      CopiesMeans(cap, out, d, d.pos, h);
      var mid := Lz77.CopyFrom(out, h.off, h.len);
      var tail := TailIs(s, end, cap, d.pos, mid, res);
      x := Item(Copy(h.k, h.len, h.off, tail), d.pos + |tail|, mid + tail);
      ShapedMeans(s, pos, d.pos, h, tail);
    }
  }

  lemma CopiesMeans(cap: nat, out: seq<byte>, d: Conf, p: nat, h: Shape)
    requires Copies(cap, out, d, p, h)
    ensures 1 <= h.off <= |out| && |out| + h.len <= cap && d == Conf(Done, p, Lz77.CopyFrom(out, h.off, h.len))
  {
  }

  lemma ShapedMeans(s: seq<byte>, pos: nat, p: nat, h: Shape, tail: seq<byte>)
    requires Shaped(s, pos, p, h) && |tail| == s[p - 2] % 4 && p + |tail| <= |s| && s[p..p + |tail|] == tail
    ensures InRange(h.k, h.len, h.off) && |tail| <= 3
    ensures s[pos..p + |tail|] == MatchHead(h.k, h.len, h.off, |tail|) + tail
  {
    hide MatchHead, InRange;
    Joined(s, pos, p, p + |tail|, MatchHead(h.k, h.len, h.off, |tail|), tail);
  }

  /** From the label at which literal runs start. */
  lemma TopParsed(s: seq<byte>, end: nat, cap: nat, st: State, pos: nat, out: seq<byte>, res: seq<byte>, w: nat)
    returns (x: Part)
    requires (st == Start || st == AfterMatch) && (st == Start ==> out == [] && At(s, pos) <= 17)
    requires Good(s, end, cap, Conf(Top, pos, out), res) && Weight(end, Conf(Top, pos, out)) <= w
    ensures Parsed(s, end, cap, st, pos, out, res, x, w)
  {
    hide Good, Weight, EndMark, LongNumber;
    var c := Conf(Top, pos, out);
    GoodStep(s, end, cap, c, res);
    GoodEnd(s, end, cap, c, res);
    GoodNotHalt(s, end, cap, StepTop(s, end, pos, out), res);
    if s[pos] >= 16 {
      x := HeadParsed(s, end, cap, st, pos, out, res, w);
    } else {
      var n, p := RunHeadIs(s, end, pos, out);
      x := LitsParsed(s, end, cap, st, pos, p, out, n, res, w);
    }
  }

  /** The head of a literal run. */
  lemma RunHeadIs(s: seq<byte>, end: nat, pos: nat, out: seq<byte>) returns (n: nat, p: nat)
    requires pos < end <= |s| && s[pos] < 16 && StepTop(s, end, pos, out).Conf?
    ensures n >= 1 && pos < p <= end && s[pos..p] == RunHead(n + 3)
    ensures StepTop(s, end, pos, out) == Conf(Lits(n), p, out)
  {
    hide LongNumber;
    if s[pos] > 0 {
      n, p := s[pos], pos + 1;
      assert s[pos..p] == [s[pos]];
    } else {
      LongIs(s, pos + 1, end);
      n, p := 15 + ReadLong(s, pos + 1, end).value.0, ReadLong(s, pos + 1, end).value.1;
      assert s[pos..p] == [s[pos]] + s[pos + 1..p];
    }
  }

  lemma LitsParsed(s: seq<byte>, end: nat, cap: nat, st: State, pos: nat, p: nat, out: seq<byte>, n: nat,
                   res: seq<byte>,
                   w: nat)
    returns (x: Part)
    requires (st == Start || st == AfterMatch) && n >= 1 && pos < p <= end <= |s| && s[pos..p] == RunHead(n + 3)
    requires Good(s, end, cap, Conf(Lits(n), p, out), res) && Weight(end, Conf(Lits(n), p, out)) <= w
    ensures Parsed(s, end, cap, st, pos, out, res, x, w)
  {
    hide Good, Weight, EndMark, RunHead;
    var d := Conf(Lits(n), p, out);
    GoodEnd(s, end, cap, d, res);
    GoodStep(s, end, cap, d, res);
    GoodNotHalt(s, end, cap, StepLits(s, end, cap, p, out, n), res);
    LitsSane(s, end, cap, p, out, n);
    var lits := Slice(s, p, n + 3);
    assert lits == s[p..p + (n + 3)];
    Joined(s, pos, p, p + (n + 3), RunHead(n + 3), lits);
    x := Item(Run(lits), p + (n + 3), out + lits);
  }

  lemma GoodEnd(s: seq<byte>, end: nat, cap: nat, c: Conf, res: seq<byte>)
    requires Good(s, end, cap, c, res)
    ensures end <= |s| && end < 0x1_0000_0000 && Sane(end, c)
  {
  }

  /** From the label behind a literal run. */
  lemma RunDoneParsed(s: seq<byte>, end: nat, cap: nat, pos: nat, out: seq<byte>, res: seq<byte>, w: nat)
    returns (x: Part)
    requires Good(s, end, cap, Conf(RunDone, pos, out), res) && Weight(end, Conf(RunDone, pos, out)) <= w
    ensures Parsed(s, end, cap, AfterRun, pos, out, res, x, w)
  {
    hide Good, Weight, EndMark, MatchHead, Lz77.CopyFrom, Shaped, Copies;
    var c := Conf(RunDone, pos, out);
    GoodStep(s, end, cap, c, res);
    GoodEnd(s, end, cap, c, res);
    if s[pos] >= 16 {
      x := HeadParsed(s, end, cap, AfterRun, pos, out, res, w);
    } else {
      var t: nat, b: nat := s[pos], s[pos + 1];
      var h := Shape(MX, 3, 1 + M2_MAX_OFFSET + t / 4 + b * 4);
      GoodNotHalt(s, end, cap, CopyMatch(cap, out, h.off, 3, pos + 2), res);
      ShapedM1(s, pos);
      var mid := Lz77.CopyFrom(out, h.off, h.len);
      var tail := TailIs(s, end, cap, pos + 2, mid, res);
      x := Item(Copy(MX, 3, h.off, tail), pos + 2 + |tail|, mid + tail);
      ShapedMeans(s, pos, pos + 2, h, tail);
    }
  }

  /** From the label behind a few literals. */
  lemma ShortParsed(s: seq<byte>, end: nat, cap: nat, pos: nat, out: seq<byte>, res: seq<byte>, w: nat)
    returns (x: Part)
    requires Good(s, end, cap, Conf(Short, pos, out), res) && Weight(end, Conf(Short, pos, out)) <= w
    ensures Parsed(s, end, cap, AfterShort, pos, out, res, x, w)
  {
    hide Good, Weight, Parsed;
    var c := Conf(Short, pos, out);
    GoodStep(s, end, cap, c, res);
    GoodEnd(s, end, cap, c, res);
    GoodNotHalt(s, end, cap, StepShort(s, end, pos, out), res);
    x := HeadParsed(s, end, cap, AfterShort, pos, out, res, w);
  }

  /** From the start. */
  lemma BeginParsed(s: seq<byte>, end: nat, cap: nat, res: seq<byte>, w: nat) returns (x: Part)
    requires Good(s, end, cap, Conf(Begin, 0, []), res) && Weight(end, Conf(Begin, 0, [])) <= w
    ensures Parsed(s, end, cap, Start, 0, [], res, x, w)
  {
    hide Good, Weight, EndMark;
    var c := Conf(Begin, 0, []);
    GoodStep(s, end, cap, c, res);
    GoodEnd(s, end, cap, c, res);
    GoodNotHalt(s, end, cap, StepBegin(s, end, cap, []), res);
    if s[0] <= 17 {
      x := TopParsed(s, end, cap, Start, 0, [], res, w);
    } else {
      x := FirstParsed(s, end, cap, res, w);
    }
  }

  /** Literals at the very start. */
  lemma FirstParsed(s: seq<byte>, end: nat, cap: nat, res: seq<byte>, w: nat) returns (x: Part)
    requires 1 <= end <= |s| && end < 0x1_0000_0000 && s[0] > 17
    requires var d := StepBegin(s, end, cap, []); d.Conf? && Good(s, end, cap, d, res) && Weight(end, d) < w
    ensures Parsed(s, end, cap, Start, 0, [], res, x, w)
  {
    hide Good, Weight;
    var t: nat := s[0] - 17;
    var lits := Slice(s, 1, t);
    assert [] + lits == lits;
    if t < 4 {
      GoodStep(s, end, cap, Conf(Tail(t), 1, []), res);
      GoodNotHalt(s, end, cap, StepTail(s, end, cap, 1, [], t), res);
    }
    assert 1 + t <= end && t <= cap;
    assert lits == s[1..1 + t];
    assert s[0..1] == [17 + t];
    Joined(s, 0, 1, 1 + t, [17 + t], lits);
    x := Item(First(lits), 1 + t, lits);
  }

  // ---- whole streams

  lemma PartParsed(s: seq<byte>, end: nat, cap: nat, st: State, pos: nat, out: seq<byte>, res: seq<byte>)
    returns (x: Part)
    requires Good(s, end, cap, Conf(PhaseOf(st), pos, out), res) && (st == Start ==> pos == 0 && out == [])
    ensures Parsed(s, end, cap, st, pos, out, res, x, Weight(end, Conf(PhaseOf(st), pos, out)))
  {
    hide Good, Weight, Parsed;
    GoodEnd(s, end, cap, Conf(PhaseOf(st), pos, out), res);
    var w := Weight(end, Conf(PhaseOf(st), pos, out));
    match st
    case Start => x := BeginParsed(s, end, cap, res, w);
    case AfterRun => x := RunDoneParsed(s, end, cap, pos, out, res, w);
    case AfterShort => x := ShortParsed(s, end, cap, pos, out, res, w);
    case AfterMatch => x := TopParsed(s, end, cap, AfterMatch, pos, out, res, w);
  }

  /** Whatever comes to a good end is a stream and an end mark. */
  lemma {:induction false} AllParsed(s: seq<byte>, end: nat, cap: nat, st: State, pos: nat, out: seq<byte>,
                                     res: seq<byte>)
    returns (ins: seq<Instr>, mark: seq<byte>)
    requires Good(s, end, cap, Conf(PhaseOf(st), pos, out), res) && (st == Start ==> pos == 0 && out == [])
    requires |out| <= cap
    ensures WellFormed(st, ins) && AllSound(ins) && EndMark(mark) && Expand(out, ins) == Some(res) && |res| <= cap
    ensures pos <= end <= |s| && s[pos..end] == Stream(ins) + mark && (st == Start && ins == [] ==> mark[0] <= 17)
    decreases if end < 0x1_0000_0000 &&
      Sane(end, Conf(PhaseOf(st), pos, out)) then Weight(end, Conf(PhaseOf(st), pos, out)) else 0
  {
    hide Good, Weight, EndMark, Bytes, Allowed, Sound, Apply, PhaseOf;
    GoodEnd(s, end, cap, Conf(PhaseOf(st), pos, out), res);
    var x := PartParsed(s, end, cap, st, pos, out, res);
    match x
    case End =>
      ins, mark := [], s[pos..end];
      assert [] + mark == mark;
    case Item(i, p, o) =>
      NeverStart(i);
      GoodEnd(s, end, cap, Conf(PhaseOf(Next(i)), p, o), res);
      var rest;
      rest, mark := AllParsed(s, end, cap, Next(i), p, o, res);
      ins := [i] + rest;
      assert ins[1..] == rest;
      StreamFront(ins);
      Joined(s, pos, p, end, Bytes(i), Stream(rest) + mark);
      Assoc(Bytes(i), Stream(rest), mark);
  }

  /** A file: well-formed instructions and an end mark, which may not look like literals at the start. */
  ghost predicate IsFile(b: seq<byte>, ins: seq<Instr>, mark: seq<byte>) {
    && WellFormed(Start, ins) && AllSound(ins) && EndMark(mark) && (ins == [] ==> mark[0] <= 17)
    && b == Stream(ins) + mark
  }

  /** The decoder succeeds exactly on files whose instructions can be carried out and whose output fits. */
  lemma Accepts(s: seq<byte>, end: nat, cap: nat, res: seq<byte>)
    requires 1 <= end <= |s| && end < 0x1_0000_0000
    ensures Decode(s, end, cap) == Halt(Ok, res) <==>
            |res| <= cap && exists ins, mark :: IsFile(s[..end], ins, mark) && Expand([], ins) == Some(res)
  {
    hide WellFormed, AllSound, EndMark, Result, Stream;
    if Decode(s, end, cap) == Halt(Ok, res) {
      var ins, mark := AllParsed(s, end, cap, Start, 0, [], res);
      assert s[..end] == s[0..end];
      assert IsFile(s[..end], ins, mark);
    }
    if |res| <= cap && exists ins, mark :: IsFile(s[..end], ins, mark) && Expand([], ins) == Some(res) {
      var ins, mark :| IsFile(s[..end], ins, mark) && Expand([], ins) == Some(res);
      assert s[0..0 + |Stream(ins) + mark|] == s[..end];
      StreamDecodes(s, end, cap, Start, ins, 0, [], 0, mark);
    }
  }
}
