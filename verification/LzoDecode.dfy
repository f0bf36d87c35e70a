/** lzo1x_decompress_safe as a machine over input positions and output, with all its overrun tests. */
module LzoDecode {
  import opened Bits
  import Lz77
  import opened LzoFormat

  /** The labels of the decoder: `Lits(n)` copies n + 3 literals, `Head(t)` decodes a match byte, `Tail(n)` copies n
      literals. */
  datatype Phase = Begin | Top | Lits(n: nat) | RunDone | Head(t: nat) | Done | Tail(n: nat) | Short

  datatype Code = Ok | InputOverrun | OutputOverrun | LookbehindOverrun | EofNotFound | InputNotConsumed

  datatype Conf = Conf(phase: Phase, pos: nat, out: seq<byte>) | Halt(code: Code, out: seq<byte>)

  /** The byte at `i`; what lies behind the memory looked at is zero. */
  function At(s: seq<byte>, i: nat): byte { if i < |s| then s[i] else 0 }

  function Slice(s: seq<byte>, pos: nat, n: nat): (r: seq<byte>)
    ensures |r| == n && forall i :: 0 <= i < n ==> r[i] == At(s, pos + i)
  {
    seq<byte>(n, i requires 0 <= i < n => At(s, pos + i))
  }

  /** Whether fewer than `n` bytes are available, as the unsigned comparison has it. */
  predicate Lacks(avail: int, n: nat) { avail % 0x1_0000_0000 < n }

  /** A number in zero bytes and a last byte, or None when the input ends first. */
  function ReadLong(s: seq<byte>, pos: nat, end: nat): (r: Option<(nat, nat)>)
    ensures r.Some? ==> pos < r.value.1 <= end
    decreases end - pos
  {
    if pos >= end then None
    else if At(s, pos) == 0 then
      match ReadLong(s, pos + 1, end)
      case None => None
      case Some((v, p)) => Some((v + 255, p))
    else Some((At(s, pos), pos + 1))
  }

  /** Copies a match, if it does not reach before the output and there is room. */
  function CopyMatch(cap: nat, out: seq<byte>, off: nat, len: nat, p: nat): Conf {
    if off < 1 || off > |out| then Halt(LookbehindOverrun, out)
    else if cap - |out| < len then Halt(OutputOverrun, out)
    else Conf(Done, p, Lz77.CopyFrom(out, off, len))
  }

  function StepBegin(s: seq<byte>, end: nat, cap: nat, out: seq<byte>): Conf {
    var b := At(s, 0);
    if b <= 17 then Conf(Top, 0, out)
    else
      var t := b - 17;
      if t < 4 then Conf(Tail(t), 1, out)
      else if cap - |out| < t then Halt(OutputOverrun, out)
      else if Lacks(end - 1, t + 1) then Halt(InputOverrun, out)
      else Conf(RunDone, 1 + t, out + Slice(s, 1, t))
  }

  function StepTop(s: seq<byte>, end: nat, pos: nat, out: seq<byte>): Conf {
    if pos >= end then Halt(EofNotFound, out)
    else
      var t := At(s, pos);
      if t >= 16 then Conf(Head(t), pos + 1, out)
      else if t > 0 then Conf(Lits(t), pos + 1, out)
      else
        match ReadLong(s, pos + 1, end)
        case None => Halt(InputOverrun, out)
        case Some((v, p)) => Conf(Lits(15 + v), p, out)
  }

  function StepLits(s: seq<byte>, end: nat, cap: nat, pos: nat, out: seq<byte>, n: nat): Conf {
    if cap - |out| < n + 3 then Halt(OutputOverrun, out)
    else if Lacks(end - pos, n + 4) then Halt(InputOverrun, out)
    else Conf(RunDone, pos + n + 3, out + Slice(s, pos, n + 3))
  }

  function StepRunDone(s: seq<byte>, cap: nat, pos: nat, out: seq<byte>): Conf {
    var t := At(s, pos);
    if t >= 16 then Conf(Head(t), pos + 1, out)
    else CopyMatch(cap, out, 1 + M2_MAX_OFFSET + t / 4 + At(s, pos + 1) * 4, 3, pos + 2)
  }

  /** The distance in the two bytes at `p`. */
  function Offset(s: seq<byte>, p: nat): nat { At(s, p) / 4 + At(s, p + 1) * 64 }

  function StepM4(s: seq<byte>, end: nat, cap: nat, p: nat, out: seq<byte>, high: nat, n: nat): Conf {
    var o := high + Offset(s, p);
    if o == 0 then Halt(if p + 2 == end then Ok else if p + 2 < end then InputNotConsumed else InputOverrun, out)
    else CopyMatch(cap, out, o + 0x4000, n + 2, p + 2)
  }

  function StepHead(s: seq<byte>, end: nat, cap: nat, pos: nat, out: seq<byte>, t: nat): Conf {
    if t >= 64 then CopyMatch(cap, out, 1 + t / 4 % 8 + At(s, pos) * 8, t / 32 + 1, pos + 1)
    else if t >= 32 then
      if t % 32 > 0 then CopyMatch(cap, out, 1 + Offset(s, pos), t % 32 + 2, pos + 2)
      else
        match ReadLong(s, pos, end)
        case None => Halt(InputOverrun, out)
        case Some((v, p)) => CopyMatch(cap, out, 1 + Offset(s, p), 31 + v + 2, p + 2)
    else if t >= 16 then
      var high := t / 8 % 2 * 0x4000;
      if t % 8 > 0 then StepM4(s, end, cap, pos, out, high, t % 8)
      else
        match ReadLong(s, pos, end)
        case None => Halt(InputOverrun, out)
        case Some((v, p)) => StepM4(s, end, cap, p, out, high, 7 + v)
    else CopyMatch(cap, out, 1 + t / 4 + At(s, pos) * 4, 2, pos + 1)
  }

  function StepDone(s: seq<byte>, pos: nat, out: seq<byte>): Conf {
    var t := if pos >= 2 then At(s, pos - 2) % 4 else 0;
    if t == 0 then Conf(Top, pos, out) else Conf(Tail(t), pos, out)
  }

  function StepTail(s: seq<byte>, end: nat, cap: nat, pos: nat, out: seq<byte>, n: nat): Conf {
    if cap - |out| < n then Halt(OutputOverrun, out)
    else if Lacks(end - pos, n + 1) then Halt(InputOverrun, out)
    else Conf(Short, pos + n, out + Slice(s, pos, n))
  }

  function StepShort(s: seq<byte>, end: nat, pos: nat, out: seq<byte>): Conf {
    if pos + 1 >= end then Halt(EofNotFound, out) else Conf(Head(At(s, pos)), pos + 1, out)
  }

  /** One step of the decoder on input `s[..end]` with room for `cap` bytes. */
  function Step(s: seq<byte>, end: nat, cap: nat, c: Conf): Conf {
    match c
    case Halt(_, _) => c
    case Conf(phase, pos, out) =>
      match phase
      case Begin => StepBegin(s, end, cap, out)
      case Top => StepTop(s, end, pos, out)
      case Lits(n) => StepLits(s, end, cap, pos, out, n)
      case RunDone => StepRunDone(s, cap, pos, out)
      case Head(t) => StepHead(s, end, cap, pos, out, t)
      case Done => StepDone(s, pos, out)
      case Tail(n) => StepTail(s, end, cap, pos, out, n)
      case Short => StepShort(s, end, pos, out)
  }

  /** How far a phase may have read past the end of the input, and what it takes for granted. */
  ghost predicate Sane(end: nat, c: Conf) {
    c.Conf? ==>
      match c.phase
      case Begin => end >= 1
      case Top => c.pos <= end + 2
      case Lits(_) => c.pos <= end
      case RunDone => c.pos < end
      case Head(_) => 1 <= c.pos <= end
      case Done => 2 <= c.pos <= end + 2
      case Tail(n) => c.pos <= end + 2 && 1 <= n <= 3
      case Short => c.pos <= end + 5
  }

  function Rank(p: Phase): nat { match p case Begin => 3 case Done => 2 case _ => 1 }

  /** A bound on the remaining steps. */
  ghost function Weight(end: nat, c: Conf): nat
    requires Sane(end, c)
  {
    match c
    case Halt(_, _) => 0
    case Conf(Begin, _, _) => 4 * (end + 8) + 3
    case Conf(phase, pos, _) => 4 * (end + 8 - pos) + Rank(phase)
  }

  lemma HeadSane(s: seq<byte>, end: nat, cap: nat, pos: nat, out: seq<byte>, t: nat)
    requires 1 <= pos <= end
    ensures var c := StepHead(s, end, cap, pos, out, t); c.Conf? ==> c.phase == Done && pos < c.pos <= end + 2
  {
    hide Lz77.CopyFrom, Offset;
  }

  /** A literal copy that passed its test stays within the input. */
  lemma LitsSane(s: seq<byte>, end: nat, cap: nat, pos: nat, out: seq<byte>, n: nat)
    requires pos <= end < 0x1_0000_0000
    ensures var c := StepLits(s, end, cap, pos, out, n); c.Conf? ==> c.phase == RunDone && pos < c.pos < end
  {
    hide Slice;
  }

  lemma BeginSane(s: seq<byte>, end: nat, cap: nat, out: seq<byte>)
    requires 1 <= end < 0x1_0000_0000
    ensures Sane(end, StepBegin(s, end, cap, out)) && Weight(end, StepBegin(s, end, cap, out)) < 4 * (end + 8) + 3
  {
    hide Slice;
  }

  lemma TopSane(s: seq<byte>, end: nat, pos: nat, out: seq<byte>)
    ensures var c := StepTop(s, end, pos, out); c.Conf? ==> (c.phase.Head? || c.phase.Lits?) && pos < c.pos <= end
  {
    hide At;
  }

  lemma StepSane(s: seq<byte>, end: nat, cap: nat, c: Conf)
    requires Sane(end, c) && c.Conf? && end < 0x1_0000_0000
    ensures Sane(end, Step(s, end, cap, c)) && Weight(end, Step(s, end, cap, c)) < Weight(end, c)
  {
    hide Lz77.CopyFrom, Slice, StepHead, StepLits, StepBegin, StepTop, At;
    match c.phase
    case Begin => BeginSane(s, end, cap, c.out);
    case Top => TopSane(s, end, c.pos, c.out);
    case Lits(n) => LitsSane(s, end, cap, c.pos, c.out, n);
    case RunDone =>
    case Head(t) => HeadSane(s, end, cap, c.pos, c.out, t);
    case Done =>
    case Tail(_) =>
    case Short =>
  }

  /** The halting configuration reached from `c`. */
  ghost function Result(s: seq<byte>, end: nat, cap: nat, c: Conf): Conf
    requires Sane(end, c) && end < 0x1_0000_0000
    decreases Weight(end, c)
  {
    if c.Halt? then c else
      StepSane(s, end, cap, c);
      Result(s, end, cap, Step(s, end, cap, c))
  }

  /** What decoding `s[..end]` into `cap` bytes gives. */
  ghost function Decode(s: seq<byte>, end: nat, cap: nat): Conf
    requires 1 <= end < 0x1_0000_0000
  {
    Result(s, end, cap, Conf(Begin, 0, []))
  }

  // ---- how far the decoder looks

  /** One more than the last input position that the bytes of a length and a distance reach to. */
  function HeadReach(s: seq<byte>, end: nat, pos: nat, t: nat): nat {
    if t >= 64 || t < 16 then pos + 1
    else if (if t >= 32 then t % 32 else t % 8) > 0 then pos + 2
    else
      match ReadLong(s, pos, end)
      case None => end
      case Some((_, p)) => p + 2
  }

  /** One more than the last input position that a step reads. */
  function Reach(s: seq<byte>, end: nat, cap: nat, c: Conf): nat {
    match c
    case Halt(_, _) => 0
    case Conf(phase, pos, out) =>
      match phase
      case Begin =>
        var t := At(s, 0) - 17;
        if t < 4 || cap - |out| < t || Lacks(end - 1, t + 1) then 1 else 1 + t
      case Top =>
        if pos >= end then 0 else if At(s, pos) > 0 then pos + 1
        else
          (match ReadLong(s, pos + 1, end)
           case None => end
           case Some((_, p)) => p)
      case Lits(n) => if cap - |out| < n + 3 || Lacks(end - pos, n + 4) then 0 else pos + n + 3
      case RunDone => if At(s, pos) < 16 then pos + 2 else pos + 1
      case Head(t) => HeadReach(s, end, pos, t)
      case Done => if pos >= 2 then pos - 1 else 0
      case Tail(n) => if cap - |out| < n || Lacks(end - pos, n + 1) then 0 else pos + n
      case Short => pos + 1
  }

  /** How far past the end of the input the decoder can look. */
  const SLACK := 6

  /** A step reads at or behind the end of the input, by its label, its position and the byte it stands at. */
  ghost predicate Overlooks(s: seq<byte>, end: nat, cap: nat, c: Conf) {
    c.Conf? &&
    match c.phase
    case RunDone => c.pos + 1 == end && At(s, c.pos) < 16
    case Head(t) =>
      if t >= 64 || t < 16 then c.pos == end
      else if (if t >= 32 then t % 32 else t % 8) > 0 then c.pos + 1 >= end
      else ReadLong(s, c.pos, end).Some? && ReadLong(s, c.pos, end).value.1 + 1 >= end
    case Done => c.pos == end + 2
    case Tail(n) => c.pos > end && |c.out| + n <= cap
    case Short => c.pos >= end
    case _ => false
  }

  /** The exact steps that look behind the input. */
  lemma ReachesPast(s: seq<byte>, end: nat, cap: nat, c: Conf)
    requires Sane(end, c) && end < 0x1_0000_0000
    ensures Reach(s, end, cap, c) > end <==> Overlooks(s, end, cap, c)
    ensures Reach(s, end, cap, c) <= end + SLACK
  {
    hide At;
  }

  /** A step that looks behind the input moves behind it, or stops with an error. */
  lemma PastMoves(s: seq<byte>, end: nat, cap: nat, c: Conf)
    requires Sane(end, c) && c.Conf? && end < 0x1_0000_0000
    requires ((c.phase != Begin && c.pos > end) || Reach(s, end, cap, c) > end)
    ensures var d := Step(s, end, cap, c); if d.Halt? then d.code != Ok else d.phase != Begin && d.pos > end
  {
    hide At, Lz77.CopyFrom, Slice, Offset;
    ReachesPast(s, end, cap, c);
  }

  /** So it ends with an error. */
  lemma {:induction false} PastFails(s: seq<byte>, end: nat, cap: nat, c: Conf)
    requires Sane(end, c) && c.Conf? && end < 0x1_0000_0000
    requires ((c.phase != Begin && c.pos > end) || Reach(s, end, cap, c) > end)
    ensures Result(s, end, cap, c).Halt? && Result(s, end, cap, c).code != Ok
    decreases Weight(end, c)
  {
    StepSane(s, end, cap, c);
    PastMoves(s, end, cap, c);
    hide Step, Reach, Sane, Weight;
    var d := Step(s, end, cap, c);
    if d.Conf? { PastFails(s, end, cap, d); }
  }

  /** No step from `c` on reads at `limit` or behind it. */
  ghost predicate Within(s: seq<byte>, end: nat, cap: nat, c: Conf, limit: nat)
    requires Sane(end, c) && end < 0x1_0000_0000
    decreases Weight(end, c)
  {
    Reach(s, end, cap, c) <= limit &&
      (c.Halt? || (StepSane(s, end, cap, c); Within(s, end, cap, Step(s, end, cap, c), limit)))
  }

  /** Whatever the input, a few bytes behind it are enough. */
  lemma {:induction false} WithinSlack(s: seq<byte>, end: nat, cap: nat, c: Conf)
    requires Sane(end, c) && end < 0x1_0000_0000
    ensures Within(s, end, cap, c, end + SLACK)
    decreases Weight(end, c)
  {
    ReachesPast(s, end, cap, c);
    hide Step, Reach, Sane, Weight;
    if c.Conf? {
      StepSane(s, end, cap, c);
      WithinSlack(s, end, cap, Step(s, end, cap, c));
    }
  }

  /** An input that is decoded without an error is decoded without looking behind it. */
  lemma {:induction false} OkStaysWithin(s: seq<byte>, end: nat, cap: nat, c: Conf)
    requires Sane(end, c) && end < 0x1_0000_0000 && Result(s, end, cap, c).Halt? && Result(s, end, cap, c).code == Ok
    ensures Within(s, end, cap, c, end)
    decreases Weight(end, c)
  {
    hide Step, Reach, Sane, Weight;
    if c.Conf? {
      StepSane(s, end, cap, c);
      if Reach(s, end, cap, c) > end { PastFails(s, end, cap, c); }
      OkStaysWithin(s, end, cap, Step(s, end, cap, c));
    } else {
      HaltReads(s, end, cap, c);
    }
  }

  lemma HaltReads(s: seq<byte>, end: nat, cap: nat, c: Conf)
    requires c.Halt?
    ensures Reach(s, end, cap, c) == 0
  {
  }

  /** A single byte 17 is the head of a match, whose distance the decoder looks for in two bytes behind the input. */
  lemma LooksBehind(cap: nat)
    ensures var c := Conf(Begin, 0, []); var top := Step([17], 1, cap, c); var head := Step([17], 1, cap, top);
      head == Conf(Head(17), 1, []) && Reach([17], 1, cap, head) == 3 && !Within([17], 1, cap, c, 1)
  {
    var c := Conf(Begin, 0, []);
    var top := Step([17], 1, cap, c);
    assert top == Conf(Top, 0, []);
    var head := Step([17], 1, cap, top);
    assert head == Conf(Head(17), 1, []);
    assert !Within([17], 1, cap, head, 1);
    assert !Within([17], 1, cap, top, 1);
  }
}
