/** lzo1x_decompress_safe on memory: input and output are stretches of one array, which may overlap. */
module LzoDecompress {
  import opened Bits
  import Lz77
  import opened LzoFormat
  import opened LzoDecode
  import opened LzoDecodes

  /** The bytes from `pos - 2` on are still those of the input. */
  ghost predicate Intact(mem: array<byte>, a: nat, end: nat, s: seq<byte>, pos: nat)
    reads mem
  {
    end <= |s| && a + |s| <= mem.Length && forall i :: 0 <= i < |s| && pos <= i + 2 ==> mem[a + i] == s[i]
  }

  /** Input and output have nothing in common. */
  predicate Apart(a: nat, len: nat, b: nat, cap: nat) { b + cap <= a || a + len <= b }

  /** Copies `n` bytes upwards one by one. */
  method CopyBytes(mem: array<byte>, src: nat, dst: nat, n: nat)
    requires src + n <= mem.Length && dst + n <= mem.Length && (dst <= src || src + n <= dst)
    modifies mem
    ensures forall i :: 0 <= i < mem.Length && !(dst <= i < dst + n) ==> mem[i] == old(mem[i])
    ensures forall i :: dst <= i < dst + n ==> mem[i] == old(mem[i - dst + src])
  {
    for k := 0 to n
      invariant forall i :: 0 <= i < mem.Length && !(dst <= i < dst + k) ==> mem[i] == old(mem[i])
      invariant forall i :: dst <= i < dst + k ==> mem[i] == old(mem[i - dst + src])
    {
      mem[dst + k] := mem[src + k];
    }
  }

  /** Copies a match of `len` bytes from `off` bytes back; it may overlap itself. */
  method CopyBack(mem: array<byte>, b: nat, n: nat, off: nat, len: nat)
    requires b + n + len <= mem.Length && 1 <= off <= n
    modifies mem
    ensures forall i :: 0 <= i < mem.Length && !(b + n <= i < b + n + len) ==> mem[i] == old(mem[i])
    ensures mem[b..b + n + len] == Lz77.CopyFrom(old(mem[b..b + n]), off, len)
  {
    hide Lz77.CopyFrom;
    ghost var goal := Lz77.CopyFrom(mem[b..b + n], off, len);
    for k := 0 to len
      invariant forall i :: 0 <= i < mem.Length && !(b + n <= i < b + n + k) ==> mem[i] == old(mem[i])
      invariant Lz77.CopyFrom(mem[b..b + n + k], off, len - k) == goal
    {
      ghost var out := mem[b..b + n + k];
      mem[b + n + k] := mem[b + n + k - off];
      assert mem[b..b + n + (k + 1)] == out + [out[n + k - off]];
      CopyUnfold(out, off, len - k);
    }
    CopyNone(mem[b..b + n + len], off);
  }

  lemma CopyUnfold(out: seq<byte>, off: nat, len: nat)
    requires 1 <= off <= |out| && len > 0
    ensures Lz77.CopyFrom(out, off, len) == Lz77.CopyFrom(out + [out[|out| - off]], off, len - 1)
  {
  }

  lemma CopyNone(out: seq<byte>, off: nat)
    requires 1 <= off <= |out|
    ensures Lz77.CopyFrom(out, off, 0) == out
  {
  }

  /** Reads a number in zero bytes and a last byte; fails at the end of the input. */
  method ReadNumber(mem: array<byte>, a: nat, end: nat, start: nat, ghost s: seq<byte>)
    returns (ok: bool, v: nat, p: nat)
    requires Intact(mem, a, end, s, start) && start <= end
    ensures ok == ReadLong(s, start, end).Some? && (ok ==> (v, p) == ReadLong(s, start, end).value)
  {
    p, v := start, 0;
    while true
      invariant start <= p <= end
      invariant ReadLong(s, start, end) == Plus(v, ReadLong(s, p, end))
      decreases end - p
    {
      if p == end { return false, 0, p; }
      assert mem[a + p] == s[p];
      if mem[a + p] != 0 { break; }
      v := v + 255;
      p := p + 1;
    }
    v := v + mem[a + p];
    p := p + 1;
    ok := true;
  }

  /** Adds `v` to a number read. */
  ghost function Plus(v: nat, r: Option<(nat, nat)>): Option<(nat, nat)> {
    match r
    case None => None
    case Some((w, p)) => Some((v + w, p))
  }

  /** Where the decoder is: at a label with `n` bytes put out, or stopped. */
  datatype Label = Point(phase: Phase, pos: nat, n: nat) | Stop(code: Code, n: nat)

  /** The configuration that the label and the output in memory stand for. */
  ghost function ConfOf(mem: array<byte>, b: nat, l: Label): Conf
    requires b + l.n <= mem.Length
    reads mem
  {
    match l
    case Point(phase, pos, n) => Conf(phase, pos, mem[b..b + n])
    case Stop(code, n) => Halt(code, mem[b..b + n])
  }

  /** What the input bytes still to be read must be, and the room there must be if input and output overlap. */
  ghost predicate Holding(mem: array<byte>, a: nat, end: nat, b: nat, cap: nat, s: seq<byte>, l: Label)
    reads mem
  {
    && end <= |s| && a + |s| <= mem.Length && b + cap <= mem.Length && l.n <= cap && 1 <= end < 0x1_0000_0000
    && Sane(end, ConfOf(mem, b, l)) && Within(s, end, cap, ConfOf(mem, b, l), |s|)
    && (Apart(a, |s|, b, cap) ==> Intact(mem, a, end, s, 0))
    && (!Apart(a, |s|, b, cap) ==>
       (l.Point? ==> Intact(mem, a, end, s, l.pos)) && Roomy(s, end, cap, ConfOf(mem, b, l), a - b))
  }

  lemma RoomyNext(s: seq<byte>, end: nat, cap: nat, c: Conf, gap: int)
    requires Sane(end, c) && c.Conf? && end < 0x1_0000_0000 && Roomy(s, end, cap, c, gap)
    requires Sane(end, Step(s, end, cap, c))
    ensures Roomy(s, end, cap, Step(s, end, cap, c), gap) && Room(Step(s, end, cap, c), gap) && Room(c, gap)
  {
    hide Step, Sane;
  }

  /** Bytes that were not written are still intact. */
  lemma StillIntact(mem: array<byte>, a: nat, end: nat, s: seq<byte>, before: seq<byte>, pos: nat, pos': nat, lo: nat,
                    hi: nat)
    requires |before| == mem.Length && end <= |s| && a + |s| <= mem.Length && pos <= pos'
    requires (hi + 2 <= a + pos' || hi <= a || a + |s| <= lo)
    requires forall i :: 0 <= i < |s| && pos <= i + 2 ==> before[a + i] == s[i]
    requires forall i :: 0 <= i < mem.Length && !(lo <= i < hi) ==> mem[i] == before[i]
    ensures Intact(mem, a, end, s, pos')
  {
  }

  /** Tests and copies a match. */
  method TryCopy(mem: array<byte>, b: nat, cap: nat, n: nat, off: nat, len: nat, p: nat) returns (m: Label)
    requires b + cap <= mem.Length && n <= cap
    modifies mem
    ensures n <= m.n <= cap && ConfOf(mem, b, m) == CopyMatch(cap, old(mem[b..b + n]), off, len, p)
    ensures (m.Point? ==> m.pos == p)
    ensures forall i :: 0 <= i < mem.Length && !(b + n <= i < b + m.n) ==> mem[i] == old(mem[i])
  {
    hide Lz77.CopyFrom;
    if off < 1 || off > n { return Stop(LookbehindOverrun, n); }
    if cap - n < len { return Stop(OutputOverrun, n); }
    CopyBack(mem, b, n, off, len);
    m := Point(Done, p, n + len);
  }

  /** Copies literals from the input, which are still intact. */
  method TryLiterals(mem: array<byte>, a: nat, end: nat, b: nat, n: nat, pos: nat, count: nat, phase: Phase,
                     ghost s: seq<byte>)
    returns (m: Label)
    requires a + |s| <= mem.Length && b + n + count <= mem.Length && pos + count <= |s|
    requires forall i :: pos <= i < pos + count ==> mem[a + i] == s[i]
    requires b + n <= a + pos || a + pos + count <= b + n
    modifies mem
    ensures m == Point(phase, pos + count, n + count)
    ensures ConfOf(mem, b, m) == Conf(phase, pos + count, old(mem[b..b + n]) + Slice(s, pos, count))
    ensures forall i :: 0 <= i < mem.Length && !(b + n <= i < b + m.n) ==> mem[i] == old(mem[i])
  {
    hide Slice;
    CopyBytes(mem, a + pos, b + n, count);
    m := Point(phase, pos + count, n + count);
    Appended(old(mem[..]), mem[..], b, n, s, pos, count);
    assert mem[b..b + n + count] == mem[..][b..b + n + count] && old(mem[b..b + n]) == old(mem[..])[b..b + n];
  }

  /** The output with `count` bytes of the input appended. */
  lemma Appended(before: seq<byte>, after: seq<byte>, b: nat, n: nat, s: seq<byte>, pos: nat, count: nat)
    requires b + n + count <= |before| == |after| && pos + count <= |s|
    requires forall i :: b <= i < b + n ==> after[i] == before[i]
    requires forall i :: b + n <= i < b + n + count ==> after[i] == s[i - b - n + pos]
    ensures after[b..b + n + count] == before[b..b + n] + Slice(s, pos, count)
  {
    var l, r := after[b..b + n + count], before[b..b + n] + Slice(s, pos, count);
    assert |l| == |r| == n + count;
    forall i | 0 <= i < n + count ensures l[i] == r[i] {
      assert l[i] == after[b + i];
      if i >= n { assert r[i] == Slice(s, pos, count)[i - n] == s[pos + (i - n)]; }
    }
  }

  /** One step was taken from `l` to `m`, writing only output. */
  twostate predicate Stepped(mem: array<byte>, end: nat, b: nat, cap: nat, s: seq<byte>, l: Label, m: Label)
    requires l.n <= cap && b + cap <= mem.Length
    reads mem
  {
    && l.n <= m.n <= cap && ConfOf(mem, b, m) == Step(s, end, cap, old(ConfOf(mem, b, l)))
    && (m.Point? && l.Point? ==> m.pos >= l.pos)
    && forall i :: 0 <= i < mem.Length && !(b + l.n <= i < b + m.n) ==> mem[i] == old(mem[i])
  }

  /** The input from the current position on can be read, and literals copied. */
  lemma Readable(mem: array<byte>, a: nat, end: nat, b: nat, cap: nat, s: seq<byte>, l: Label)
    requires Holding(mem, a, end, b, cap, s, l) && l.Point?
    ensures Intact(mem, a, end, s, l.pos) && a + |s| <= mem.Length && end <= |s|
    ensures Reach(s, end, cap, ConfOf(mem, b, l)) <= |s|
    ensures forall pos: nat, count: nat :: l.pos <= pos && pos + count <= |s| ==> CanCopy(a, b, pos, l.n, count)
  {
    hide Sane, Reach;
  }

  ghost predicate CanCopy(a: nat, b: nat, pos: nat, n: nat, count: nat) { b + n <= a + pos || a + pos + count <= b + n }

  method AtBegin(mem: array<byte>, a: nat, end: nat, b: nat, cap: nat, l: Label, ghost s: seq<byte>) returns (m: Label)
    requires Holding(mem, a, end, b, cap, s, l) && l.Point? && l.phase == Begin && l.pos == 0
    modifies mem
    ensures Stepped(mem, end, b, cap, s, l, m)
  {
    hide Roomy, Within, Slice;
    Readable(mem, a, end, b, cap, s, l);
    assert mem[a + 0] == s[0];
    var t := mem[a];
    if t <= 17 { return Point(Top, 0, l.n); }
    t := t - 17;
    if t < 4 { return Point(Tail(t), 1, l.n); }
    if cap - l.n < t { return Stop(OutputOverrun, l.n); }
    if Lacks(end - 1, t + 1) { return Stop(InputOverrun, l.n); }
    assert CanCopy(a, b, 1, l.n, t);
    m := TryLiterals(mem, a, end, b, l.n, 1, t, RunDone, s);
  }

  method AtTop(mem: array<byte>, a: nat, end: nat, b: nat, cap: nat, l: Label, ghost s: seq<byte>) returns (m: Label)
    requires Holding(mem, a, end, b, cap, s, l) && l.Point? && l.phase == Top
    ensures Stepped(mem, end, b, cap, s, l, m)
  {
    hide Roomy, Within, ReadLong;
    Readable(mem, a, end, b, cap, s, l);
    if l.pos >= end { return Stop(EofNotFound, l.n); }
    assert mem[a + l.pos] == s[l.pos];
    var t := mem[a + l.pos];
    if t >= 16 { return Point(Head(t), l.pos + 1, l.n); }
    if t > 0 { return Point(Lits(t), l.pos + 1, l.n); }
    var ok, v, p := ReadNumber(mem, a, end, l.pos + 1, s);
    if !ok { return Stop(InputOverrun, l.n); }
    ReadBounds(s, l.pos + 1, end);
    m := Point(Lits(15 + v), p, l.n);
  }

  lemma ReadBounds(s: seq<byte>, pos: nat, end: nat)
    ensures ReadLong(s, pos, end).Some? ==> pos < ReadLong(s, pos, end).value.1 <= end
  {
  }

  method AtLits(mem: array<byte>, a: nat, end: nat, b: nat, cap: nat, l: Label, ghost s: seq<byte>) returns (m: Label)
    requires Holding(mem, a, end, b, cap, s, l) && l.Point? && l.phase.Lits?
    modifies mem
    ensures Stepped(mem, end, b, cap, s, l, m)
  {
    hide Roomy, Within, Slice;
    Readable(mem, a, end, b, cap, s, l);
    var t := l.phase.n;
    if cap - l.n < t + 3 { return Stop(OutputOverrun, l.n); }
    if Lacks(end - l.pos, t + 4) { return Stop(InputOverrun, l.n); }
    assert CanCopy(a, b, l.pos, l.n, t + 3);
    m := TryLiterals(mem, a, end, b, l.n, l.pos, t + 3, RunDone, s);
  }

  method AtRunDone(mem: array<byte>, a: nat, end: nat, b: nat, cap: nat, l: Label, ghost s: seq<byte>)
    returns (m: Label)
    requires Holding(mem, a, end, b, cap, s, l) && l.Point? && l.phase == RunDone
    modifies mem
    ensures Stepped(mem, end, b, cap, s, l, m)
  {
    hide Roomy, Within, CopyMatch;
    Readable(mem, a, end, b, cap, s, l);
    assert mem[a + l.pos] == s[l.pos];
    var t: nat := mem[a + l.pos];
    if t >= 16 { return Point(Head(t), l.pos + 1, l.n); }
    assert mem[a + (l.pos + 1)] == s[l.pos + 1];
    var u: nat := mem[a + l.pos + 1];
    m := TryCopy(mem, b, cap, l.n, 1 + M2_MAX_OFFSET + t / 4 + u * 4, 3, l.pos + 2);
  }

  method AtDone(mem: array<byte>, a: nat, end: nat, b: nat, cap: nat, l: Label, ghost s: seq<byte>) returns (m: Label)
    requires Holding(mem, a, end, b, cap, s, l) && l.Point? && l.phase == Done
    ensures Stepped(mem, end, b, cap, s, l, m)
  {
    hide Roomy, Within;
    Readable(mem, a, end, b, cap, s, l);
    assert mem[a + (l.pos - 2)] == s[l.pos - 2];
    var t := mem[a + l.pos - 2] % 4;
    m := Point(if t == 0 then Top else Tail(t), l.pos, l.n);
  }

  method AtTail(mem: array<byte>, a: nat, end: nat, b: nat, cap: nat, l: Label, ghost s: seq<byte>) returns (m: Label)
    requires Holding(mem, a, end, b, cap, s, l) && l.Point? && l.phase.Tail?
    modifies mem
    ensures Stepped(mem, end, b, cap, s, l, m)
  {
    hide Roomy, Within, Slice;
    Readable(mem, a, end, b, cap, s, l);
    var t := l.phase.n;
    if cap - l.n < t { return Stop(OutputOverrun, l.n); }
    if Lacks(end - l.pos, t + 1) { return Stop(InputOverrun, l.n); }
    assert CanCopy(a, b, l.pos, l.n, t);
    m := TryLiterals(mem, a, end, b, l.n, l.pos, t, Short, s);
  }

  method AtShort(mem: array<byte>, a: nat, end: nat, b: nat, cap: nat, l: Label, ghost s: seq<byte>) returns (m: Label)
    requires Holding(mem, a, end, b, cap, s, l) && l.Point? && l.phase == Short
    ensures Stepped(mem, end, b, cap, s, l, m)
  {
    hide Roomy, Within;
    Readable(mem, a, end, b, cap, s, l);
    assert mem[a + l.pos] == s[l.pos];
    var t := mem[a + l.pos];
    if l.pos + 1 >= end { return Stop(EofNotFound, l.n); }
    m := Point(Head(t), l.pos + 1, l.n);
  }

  /** The distance in the two bytes at `p`. */
  method ReadOffset(mem: array<byte>, a: nat, end: nat, p: nat, ghost s: seq<byte>) returns (o: nat)
    requires Intact(mem, a, end, s, p) && p + 1 < |s|
    ensures o == Offset(s, p)
  {
    assert mem[a + p] == s[p] && mem[a + (p + 1)] == s[p + 1];
    var x: nat, y: nat := mem[a + p], mem[a + p + 1];
    o := x / 4 + y * 64;
  }

  /** The length of an M3 or M4 match: in the marker byte, or in the bytes behind it. */
  method ReadLength(mem: array<byte>, a: nat, end: nat, pos: nat, inMarker: nat, max: nat, ghost s: seq<byte>)
    returns (ok: bool, n: nat, p: nat)
    requires Intact(mem, a, end, s, pos) && pos <= end
    ensures inMarker > 0 ==> ok && n == inMarker && p == pos
    ensures inMarker == 0 ==>
            ok == ReadLong(s, pos, end).Some? &&
              (ok ==> (n, p) == (max + ReadLong(s, pos, end).value.0, ReadLong(s, pos, end).value.1))
    ensures ok ==> pos <= p <= end
  {
    hide ReadLong;
    if inMarker > 0 { return true, inMarker, pos; }
    ok, n, p := ReadNumber(mem, a, end, pos, s);
    ReadBounds(s, pos, end);
    if ok { n := max + n; }
  }

  method AtM3(mem: array<byte>, a: nat, end: nat, b: nat, cap: nat, pos: nat, n: nat, t: nat, ghost s: seq<byte>)
    returns (m: Label)
    requires Intact(mem, a, end, s, pos) && pos <= end && b + cap <= mem.Length && n <= cap && 32 <= t < 64
    requires HeadReach(s, end, pos, t) <= |s|
    modifies mem
    ensures n <= m.n <= cap && ConfOf(mem, b, m) == StepHead(s, end, cap, pos, old(mem[b..b + n]), t)
    ensures (m.Point? ==> m.pos >= pos)
    ensures forall i :: 0 <= i < mem.Length && !(b + n <= i < b + m.n) ==> mem[i] == old(mem[i])
  {
    hide CopyMatch, ReadLong, Offset, LzoDecode.At;
    var ok, k, p := ReadLength(mem, a, end, pos, t % 32, 31, s);
    if !ok { return Stop(InputOverrun, n); }
    var o := ReadOffset(mem, a, end, p, s);
    m := TryCopy(mem, b, cap, n, 1 + o, k + 2, p + 2);
  }

  method AtM4(mem: array<byte>, a: nat, end: nat, b: nat, cap: nat, pos: nat, n: nat, t: nat, ghost s: seq<byte>)
    returns (m: Label)
    requires Intact(mem, a, end, s, pos) && pos <= end && b + cap <= mem.Length && n <= cap && 16 <= t < 32
    requires HeadReach(s, end, pos, t) <= |s|
    modifies mem
    ensures n <= m.n <= cap && ConfOf(mem, b, m) == StepHead(s, end, cap, pos, old(mem[b..b + n]), t)
    ensures (m.Point? ==> m.pos >= pos)
    ensures forall i :: 0 <= i < mem.Length && !(b + n <= i < b + m.n) ==> mem[i] == old(mem[i])
  {
    hide CopyMatch, ReadLong, Offset, LzoDecode.At;
    var ok, k, p := ReadLength(mem, a, end, pos, t % 8, 7, s);
    if !ok { return Stop(InputOverrun, n); }
    var o := ReadOffset(mem, a, end, p, s);
    o := t / 8 % 2 * 0x4000 + o;
    if o == 0 { return Stop(if p + 2 == end then Ok else if p + 2 < end then InputNotConsumed else InputOverrun, n); }
    m := TryCopy(mem, b, cap, n, o + 0x4000, k + 2, p + 2);
  }

  method AtHead(mem: array<byte>, a: nat, end: nat, b: nat, cap: nat, l: Label, ghost s: seq<byte>) returns (m: Label)
    requires Holding(mem, a, end, b, cap, s, l) && l.Point? && l.phase.Head?
    modifies mem
    ensures Stepped(mem, end, b, cap, s, l, m)
  {
    hide Roomy, Within, CopyMatch, StepHead;
    Readable(mem, a, end, b, cap, s, l);
    var t := l.phase.t;
    ghost var out := mem[b..b + l.n];
    if t >= 64 {
      assert mem[a + l.pos] == s[l.pos];
      var u: nat := mem[a + l.pos];
      HeadM2(s, end, cap, l.pos, out, t, t / 32 + 1, 1 + t / 4 % 8 + u * 8);
      m := TryCopy(mem, b, cap, l.n, 1 + t / 4 % 8 + u * 8, t / 32 + 1, l.pos + 1);
    } else if t >= 32 {
      m := AtM3(mem, a, end, b, cap, l.pos, l.n, t, s);
    } else if t >= 16 {
      m := AtM4(mem, a, end, b, cap, l.pos, l.n, t, s);
    } else {
      assert mem[a + l.pos] == s[l.pos];
      var u: nat := mem[a + l.pos];
      HeadM1(s, end, cap, l.pos, out, t, 1 + t / 4 + u * 4);
      m := TryCopy(mem, b, cap, l.n, 1 + t / 4 + u * 4, 2, l.pos + 1);
    }
  }

  /** One step, whatever the label. */
  method StepOn(mem: array<byte>, a: nat, end: nat, b: nat, cap: nat, l: Label, ghost s: seq<byte>) returns (m: Label)
    requires Holding(mem, a, end, b, cap, s, l) && l.Point? && (l.phase == Begin ==> l.pos == 0)
    modifies mem
    ensures Stepped(mem, end, b, cap, s, l, m) && Holding(mem, a, end, b, cap, s, m)
  {
    hide Step, Sane, Roomy, Within, Reach;
    ghost var c := ConfOf(mem, b, l);
    ghost var before := mem[..];
    if l.phase == Begin {
      m := AtBegin(mem, a, end, b, cap, l, s);
    } else if l.phase == Top {
      m := AtTop(mem, a, end, b, cap, l, s);
    } else if l.phase.Lits? {
      m := AtLits(mem, a, end, b, cap, l, s);
    } else if l.phase == RunDone {
      m := AtRunDone(mem, a, end, b, cap, l, s);
    } else if l.phase.Head? {
      m := AtHead(mem, a, end, b, cap, l, s);
    } else if l.phase == Done {
      m := AtDone(mem, a, end, b, cap, l, s);
    } else if l.phase.Tail? {
      m := AtTail(mem, a, end, b, cap, l, s);
    } else {
      m := AtShort(mem, a, end, b, cap, l, s);
    }
    StepSane(s, end, cap, c);
    WithinNext(s, end, cap, c, |s|);
    if Apart(a, |s|, b, cap) {
      StillIntact(mem, a, end, s, before, 0, 0, b + l.n, b + m.n);
    } else {
      RoomyNext(s, end, cap, c, a - b);
      RoomOf(mem, b, m, a - b);
      if m.Point? { StillIntact(mem, a, end, s, before, l.pos, m.pos, b + l.n, b + m.n); }
    }
  }

  lemma WithinNext(s: seq<byte>, end: nat, cap: nat, c: Conf, limit: nat)
    requires Sane(end, c) && c.Conf? && end < 0x1_0000_0000 && Within(s, end, cap, c, limit)
    requires Sane(end, Step(s, end, cap, c))
    ensures Within(s, end, cap, Step(s, end, cap, c), limit)
  {
    hide Step, Sane, Reach;
  }

  lemma RoomOf(mem: array<byte>, b: nat, m: Label, gap: int)
    requires b + m.n <= mem.Length && Room(ConfOf(mem, b, m), gap)
    ensures m.Point? ==> m.n + 2 <= gap + m.pos
  {
  }

  /**
   * Decompresses the `end` bytes at `a` to the `cap` bytes at `b`. The memory holds every byte that the decoder
   * reads: `len` bytes at `a`. Input and output may overlap if there is room all the way.
   */
  method Decompress(mem: array<byte>, a: nat, end: nat, ghost len: nat, b: nat, cap: nat)
    returns (code: Code, outLen: nat)
    requires 1 <= end < 0x1_0000_0000 && end <= len && a + len <= mem.Length && b + cap <= mem.Length
    requires Within(mem[a..a + len], end, cap, Conf(Begin, 0, []), len)
    requires Apart(a, len, b, cap) || Roomy(mem[a..a + len], end, cap, Conf(Begin, 0, []), a - b)
    modifies mem
    ensures outLen <= cap && Halt(code, mem[b..b + outLen]) == Decode(old(mem[a..a + len]), end, cap)
    ensures forall i :: 0 <= i < mem.Length && !(b <= i < b + outLen) ==> mem[i] == old(mem[i])
  {
    hide Step, Sane, Result, Roomy, Within, Slice;
    ghost var s := mem[a..a + len];
    var l := Point(Begin, 0, 0);
    assert mem[b..b + 0] == [];
    Beginning(end);
    while l.Point?
      invariant Holding(mem, a, end, b, cap, s, l) && (l.Point? && l.phase == Begin ==> l.pos == 0)
      invariant Result(s, end, cap, ConfOf(mem, b, l)) == Decode(s, end, cap)
      invariant forall i :: 0 <= i < mem.Length && !(b <= i < b + l.n) ==> mem[i] == old(mem[i])
      decreases Weight(end, ConfOf(mem, b, l))
    {
      ghost var c := ConfOf(mem, b, l);
      var m := StepOn(mem, a, end, b, cap, l, s);
      StepSane(s, end, cap, c);
      ResultStep(s, end, cap, c);
      NotAgain(s, end, cap, c);
      l := m;
    }
    ResultHalt(s, end, cap, ConfOf(mem, b, l));
    code, outLen := l.code, l.n;
  }

  lemma Beginning(end: nat)
    requires end >= 1
    ensures Sane(end, Conf(Begin, 0, []))
  {
  }

  lemma ResultStep(s: seq<byte>, end: nat, cap: nat, c: Conf)
    requires Sane(end, c) && c.Conf? && end < 0x1_0000_0000 && Sane(end, Step(s, end, cap, c))
    ensures Result(s, end, cap, c) == Result(s, end, cap, Step(s, end, cap, c))
  {
    hide Step, Sane;
  }

  lemma ResultHalt(s: seq<byte>, end: nat, cap: nat, c: Conf)
    requires Sane(end, c) && c.Halt? && end < 0x1_0000_0000
    ensures Result(s, end, cap, c) == c
  {
  }

  lemma NotAgain(s: seq<byte>, end: nat, cap: nat, c: Conf)
    requires c.Conf?
    ensures var d := Step(s, end, cap, c); d.Conf? ==> d.phase != Begin
  {
    hide Slice, Lz77.CopyFrom, ReadLong, Offset;
  }
}
