/** lzo1x_optimize of lzop.c: rewriting a stream in place without changing its length or its meaning. */
module LzoOptimize {
  import opened Bits
  import Lz77
  import opened LzoFormat
  import opened LzoDecode
  import opened LzoDecodes
  import LzoDecompress
  import opened LzoSize
  import opened LzoEncode
  import opened LzoRewrite

  // ---- reading

  /** Length less two, distance (zero for the end marker) and end of the match bytes at `ip`. */
  ghost function HeadAt(s: seq<byte>, ip: nat): Option<(nat, nat, nat)> {
    var b := At(s, ip);
    if b >= 64 then Some((b / 32 - 1, 1 + b / 4 % 8 + At(s, ip + 1) * 8, ip + 2))
    else if b >= 32 then
      if b > 32 then Some((b - 32, 1 + Offset(s, ip + 1), ip + 3))
      else
        match ReadLong(s, ip + 1, |s|)
        case None => None
        case Some((v, p)) => Some((31 + v, 1 + Offset(s, p), p + 2))
    else if b >= 16 then
      if b % 8 > 0 then Some((b % 8, M4Offset(b, Offset(s, ip + 1)), ip + 3))
      else
        match ReadLong(s, ip + 1, |s|)
        case None => None
        case Some((v, p)) => Some((7 + v, M4Offset(b, Offset(s, p)), p + 2))
    else Some((0, 1 + b / 4 + At(s, ip + 1) * 4, ip + 2))
  }

  function M4Offset(b: nat, o: nat): nat {
    var x := b / 8 % 2 * 0x4000 + o;
    if x == 0 then 0 else x + 0x4000
  }

  lemma HeadM3At(s: seq<byte>, ip: nat, len: nat, off: nat, tail: nat)
    requires InRange(M3, len, off) && tail <= 3 && Has(s, ip, MatchHead(M3, len, off, tail))
    ensures HeadAt(s, ip) == Some((len - 2, off, ip + |MatchHead(M3, len, off, tail)|))
  {
    hide Has, At, ReadLong, Offset, LongNumber, OffsetBytes, MatchHead, M4Offset;
    M3Shape(len, off, tail);
    if len <= M3_MAX_LEN {
      HasConcat(s, ip, [32 + (len - 2)], OffsetBytes(off - 1, tail));
      HasAt(s, ip, [32 + (len - 2)], 0);
      OffsetRead(s, ip + 1, off - 1, tail);
    } else {
      var v := len - M3_MAX_LEN;
      HasConcat(s, ip, [32] + LongNumber(v), OffsetBytes(off - 1, tail));
      HasConcat(s, ip, [32], LongNumber(v));
      HasAt(s, ip, [32], 0);
      HasWithin(s, ip + 1, LongNumber(v));
      ReadsLong(s, ip + 1, |s|, v);
      OffsetRead(s, ip + 1 + |LongNumber(v)|, off - 1, tail);
    }
  }

  lemma HasWithin(s: seq<byte>, pos: nat, frag: seq<byte>)
    requires Has(s, pos, frag)
    ensures pos + |frag| <= |s|
  {
  }

  lemma HeadM4At(s: seq<byte>, ip: nat, len: nat, b: nat, low: nat, tail: nat)
    requires b < 2 && low < 0x4000 && b + low > 0 && len >= 3 && tail <= 3
    requires Has(s, ip, LengthHead(16 + b * 8, M4_MAX_LEN, len) + OffsetBytes(low, tail))
    ensures HeadAt(s, ip) == Some((len - 2, (b + 1) * 0x4000 + low, ip + |LengthHead(16 + b * 8, M4_MAX_LEN, len)| + 2))
  {
    hide Has, At, ReadLong, Offset, LongNumber, OffsetBytes;
    if len <= M4_MAX_LEN {
      var t := 16 + b * 8 + (len - 2);
      HasConcat(s, ip, [t], OffsetBytes(low, tail));
      HasAt(s, ip, [t], 0);
      OffsetRead(s, ip + 1, low, tail);
      M4Fields(b, len - 2);
    } else {
      var v, m := len - M4_MAX_LEN, 16 + b * 8;
      HasConcat(s, ip, [m] + LongNumber(v), OffsetBytes(low, tail));
      HasConcat(s, ip, [m], LongNumber(v));
      HasAt(s, ip, [m], 0);
      HasWithin(s, ip + 1, LongNumber(v));
      ReadsLong(s, ip + 1, |s|, v);
      OffsetRead(s, ip + 1 + |LongNumber(v)|, low, tail);
      M4Fields(b, 0);
    }
  }

  /** The bytes of a match tell its length and distance. */
  lemma HeadOfMatch(s: seq<byte>, ip: nat, k: Kind, len: nat, off: nat, tail: nat)
    requires k != MX && InRange(k, len, off) && tail <= 3 && Has(s, ip, MatchHead(k, len, off, tail))
    ensures HeadAt(s, ip) == Some((len - 2, off, ip + |MatchHead(k, len, off, tail)|))
  {
    hide Has, At, HeadAt, LengthHead, OffsetBytes;
    var h := MatchHead(k, len, off, tail);
    match k
    case M1 =>
      HasAt(s, ip, h, 0);
      HasAt(s, ip, h, 1);
      M1Fields(off - 1, tail);
      HeadM1At(s, ip, off);
    case M2 =>
      HasAt(s, ip, h, 0);
      HasAt(s, ip, h, 1);
      M2Fields(len, off, tail);
      HeadM2At(s, ip, len, off);
    case M3 => HeadM3At(s, ip, len, off, tail);
    case M4 =>
      var o := off - 0x4000;
      HeadM4At(s, ip, len, o / 0x4000, o % 0x4000, tail);
  }

  lemma HeadM1At(s: seq<byte>, ip: nat, off: nat)
    requires At(s, ip) < 16 && 1 + At(s, ip) / 4 + At(s, ip + 1) * 4 == off
    ensures HeadAt(s, ip) == Some((0, off, ip + 2))
  {
    hide At;
  }

  lemma HeadM2At(s: seq<byte>, ip: nat, len: nat, off: nat)
    requires At(s, ip) >= 64 && At(s, ip) / 32 + 1 == len && 1 + At(s, ip) / 4 % 8 + At(s, ip + 1) * 8 == off
    ensures HeadAt(s, ip) == Some((len - 2, off, ip + 2))
  {
    hide At;
  }

  lemma HeadOfEnd(s: seq<byte>, ip: nat)
    requires Has(s, ip, END_MARKER)
    ensures At(s, ip) == 17 && HeadAt(s, ip) == Some((1, 0, ip + 3))
  {
    HasAt(s, ip, END_MARKER, 0);
    HasAt(s, ip, END_MARKER, 1);
    HasAt(s, ip, END_MARKER, 2);
  }

  /** What the next byte says about the next instruction. */
  lemma FirstByte(st: State, r: seq<Instr>, s: seq<byte>, ip: nat)
    requires WellFormed(st, r) && AllSound(r) && Has(s, ip, File(r))
    ensures r == [] ==> At(s, ip) == 17
    ensures r != [] && r[0].First? ==> At(s, ip) > 17
    ensures r != [] && r[0].Run? ==> |r[0].lits| >= 4 && At(s, ip) == if |r[0].lits| <= 18 then |r[0].lits| - 3 else 0
    ensures r != [] && r[0].Copy? ==> (r[0].kind == M1 || r[0].kind == MX <==> At(s, ip) < 16)
  {
    hide MatchHead, Has, At, LongNumber, Stream;
    if r == [] {
      StreamEmpty();
      assert File(r) == END_MARKER;
      HeadOfEnd(s, ip);
    } else {
      FileFront(r);
      HasConcat(s, ip, Bytes(r[0]), File(r[1..]));
      if r[0].Copy? {
        HasConcat(s, ip, MatchHead(r[0].kind, r[0].len, r[0].off, |r[0].tail|), r[0].tail);
        MatchMarks(s, ip, r[0].kind, r[0].len, r[0].off, |r[0].tail|);
      } else {
        HasAt(s, ip, Bytes(r[0]), 0);
      }
    }
  }

  method ReadNum(buf: array<byte>, start: nat, ghost s: seq<byte>) returns (v: nat, p: nat)
    requires |s| <= buf.Length && buf[..|s|] == s && ReadLong(s, start, |s|).Some?
    ensures (v, p) == ReadLong(s, start, |s|).value
  {
    v, p := 0, start;
    while true
      invariant ReadLong(s, p, |s|).Some? && p < |s|
      invariant ReadLong(s, start, |s|).value == (v + ReadLong(s, p, |s|).value.0, ReadLong(s, p, |s|).value.1)
      decreases |s| - p
    {
      assert buf[p] == s[p];
      if buf[p] != 0 { break; }
      v := v + 255;
      p := p + 1;
    }
    v := v + buf[p];
    p := p + 1;
  }

  method ReadOff(buf: array<byte>, p: nat, ghost s: seq<byte>) returns (o: nat)
    requires |s| <= buf.Length && buf[..|s|] == s && p + 1 < |s|
    ensures o == Offset(s, p)
  {
    assert buf[p] == s[p] && buf[p + 1] == s[p + 1];
    var x: nat, y: nat := buf[p], buf[p + 1];
    o := x / 4 + y * 64;
  }

  /** Reads a match; the distance is zero at the end marker. */
  method ReadHead(buf: array<byte>, ip: nat, ghost s: seq<byte>) returns (t: nat, o: nat, p: nat)
    requires |s| <= buf.Length && buf[..|s|] == s && HeadAt(s, ip).Some? && HeadAt(s, ip).value.2 <= |s|
    ensures (t, o, p) == HeadAt(s, ip).value
  {
    hide ReadLong, Offset;
    HeadBounds(s, ip);
    assert buf[ip] == s[ip] && buf[ip + 1] == s[ip + 1];
    var b: nat, c: nat := buf[ip], buf[ip + 1];
    if b >= 64 {
      t, o, p := b / 32 - 1, 1 + b / 4 % 8 + c * 8, ip + 2;
    } else if b >= 32 {
      t, p := b % 32, ip + 1;
      if t == 0 {
        var v;
        v, p := ReadNum(buf, ip + 1, s);
        t := 31 + v;
      }
      o := ReadOff(buf, p, s);
      o := 1 + o;
      p := p + 2;
    } else if b >= 16 {
      t, p := b % 8, ip + 1;
      if t == 0 {
        var v;
        v, p := ReadNum(buf, ip + 1, s);
        t := 7 + v;
      }
      o := ReadOff(buf, p, s);
      o := M4Offset(b, o);
      p := p + 2;
    } else {
      t, o, p := 0, 1 + b / 4 + c * 4, ip + 2;
    }
  }

  lemma HeadBounds(s: seq<byte>, ip: nat)
    requires HeadAt(s, ip).Some? && HeadAt(s, ip).value.2 <= |s|
    ensures ip + 2 <= HeadAt(s, ip).value.2
  {
    LzoDecompress.ReadBounds(s, ip + 1, |s|);
  }

  // ---- the state between two instructions

  /** The stream in `buf` consists of the instructions done and those to come; the output so far is in `out`. */
  ghost predicate Working(buf: array<byte>, end: nat, out: array<byte>, ip: nat, n: nat, p: seq<Instr>, r: seq<Instr>,
                          data: seq<byte>, lean: bool)
    reads buf, out
  {
    && buf != out && end <= buf.Length && n <= out.Length && |data| <= out.Length && AllSound(p) && AllSound(r)
    && buf[..end] == Stream(p) + File(r) && ip == |Stream(p)| && Split(p, r, out[..n], data, lean)
  }

  /** Where the number of the last literals is kept, if known: in the last match or at the head of the last run. */
  ghost predicate LitAt(p: seq<Instr>, litp: int, lit: nat)
    requires AllSound(p)
  {
    if litp == -1 then LitsBefore(p).None?
    else
      LitsBefore(p) == Some(lit) &&
      match p[|p| - 1]
      case First(_) => false
      case Run(lits) => lit <= 18 ==> litp == |Stream(p)| - lit - 1
      case Copy(_, _, _, tail) => litp == |Stream(p)| - lit - 2
  }

  lemma ToCome(buf: array<byte>, end: nat, out: array<byte>, ip: nat, n: nat, p: seq<Instr>, r: seq<Instr>,
               data: seq<byte>, lean: bool)
    requires Working(buf, end, out, ip, n, p, r, data, lean)
    ensures ip + 3 <= end && Has(buf[..end], ip, File(r)) && |File(r)| == end - ip
    ensures r != [] ==>
            Sound(r[0]) && Has(buf[..end], ip, Bytes(r[0])) && ip + |Bytes(r[0])| + 3 <= end &&
              Has(buf[..end], ip + |Bytes(r[0])|, File(r[1..]))
  {
    hide Stream, Bytes, Sound;
    var s := buf[..end];
    assert s[ip..ip + |File(r)|] == File(r);
    if r != [] {
      FileFront(r);
      HasConcat(s, ip, Bytes(r[0]), File(r[1..]));
      HasWithin(s, ip, Bytes(r[0]));
    }
  }

  /** Having copied the output of the next instruction, it is done. */
  lemma OneDone(buf: array<byte>, end: nat, out: array<byte>, before: seq<byte>, ip: nat, n: nat, p: seq<Instr>,
                r: seq<Instr>, data: seq<byte>, lean: bool, ip': nat, n': nat)
    requires buf != out && end <= buf.Length && n' <= out.Length && |data| <= out.Length && AllSound(p) && AllSound(r)
    requires buf[..end] == Stream(p) + File(r) && ip == |Stream(p)| && Split(p, r, before, data, lean) && r != []
    requires Sound(r[0]) && Apply(before, r[0]) == Some(out[..n']) && ip' == ip + |Bytes(r[0])|
    ensures Working(buf, end, out, ip', n', p + [r[0]], r[1..], data, lean)
  {
    hide Stream, Bytes, Sound, Split, File;
    SplitNext(p, r, before, data, lean);
    StreamSnoc(p, r[0]);
    FileFront(r);
    Assoc(Stream(p), Bytes(r[0]), File(r[1..]));
    SplitSound(p + [r[0]], r[1..], out[..n'], data, lean);
  }

  lemma SplitSound(p: seq<Instr>, r: seq<Instr>, out: seq<byte>, data: seq<byte>, lean: bool)
    requires Split(p, r, out, data, lean)
    ensures AllSound(p) && AllSound(r) && WellFormed(Start, p) && WellFormed(After(Start, p), r)
  {
  }

  /** The output of instructions to come fits. */
  lemma Fits(p: seq<Instr>, r: seq<Instr>, out: seq<byte>, data: seq<byte>, lean: bool)
    requires Split(p, r, out, data, lean) && r != []
    ensures Apply(out, r[0]).Some? && |Apply(out, r[0]).value| <= |data|
  {
    hide Apply;
    ExpandGrows(Apply(out, r[0]).value, r[1..]);
  }

  // ---- single instructions

  /** Copies `t` literals of the stream to the output. */
  method CopyOut(buf: array<byte>, ip: nat, out: array<byte>, n: nat, t: nat)
    requires buf != out && ip + t <= buf.Length && n + t <= out.Length
    modifies out
    ensures out[..n + t] == old(out[..n]) + buf[ip..ip + t]
  {
    for k := 0 to t
      invariant out[..n + k] == old(out[..n]) + buf[ip..ip + k]
    {
      out[n + k] := buf[ip + k];
      assert out[..n + (k + 1)] == (old(out[..n]) + buf[ip..ip + k]) + [buf[ip + k]];
    }
  }

  lemma RunFields(s: seq<byte>, ip: nat, lits: seq<byte>)
    requires |lits| >= 4 && Has(s, ip, RunHead(|lits|) + lits)
    ensures At(s, ip) > 0 ==> |lits| == At(s, ip) + 3 && Has(s, ip + 1, lits) && |RunHead(|lits|)| == 1
    ensures At(s, ip) == 0 ==>
            |lits| > 18 && ReadLong(s, ip + 1, |s|) == Some((|lits| - 18, ip + |RunHead(|lits|)|)) &&
              Has(s, ip + |RunHead(|lits|)|, lits)
  {
    hide Has, At, LongNumber, ReadLong;
    var n, h := |lits|, RunHead(|lits|);
    HasConcat(s, ip, h, lits);
    HasAt(s, ip, h, 0);
    if n > 18 {
      HasConcat(s, ip, [0], LongNumber(n - 18));
      HasWithin(s, ip + 1, LongNumber(n - 18));
      ReadsLong(s, ip + 1, |s|, n - 18);
    }
  }

  /** A literal run. */
  method TakeRun(buf: array<byte>, end: nat, out: array<byte>, ip: nat, n: nat, ghost p: seq<Instr>,
                 ghost r: seq<Instr>, ghost data: seq<byte>, ghost lean: bool)
    returns (ip': nat, n': nat, litp: int, lit: nat)
    requires Working(buf, end, out, ip, n, p, r, data, lean) && r != [] && r[0].Run?
    modifies out
    ensures Working(buf, end, out, ip', n', p + [r[0]], r[1..], data, lean) && LitAt(p + [r[0]], litp, lit)
  {
    hide Stream, Split, File, Has, ReadLong, LongNumber, RunHead, WellFormed, Expand;
    ghost var s, before, lits := buf[..end], out[..n], r[0].lits;
    ToCome(buf, end, out, ip, n, p, r, data, lean);
    Fits(p, r, before, data, lean);
    RunFields(s, ip, lits);
    litp := ip;
    var t: nat, q := buf[ip], ip + 1;
    if t == 0 {
      var v;
      v, q := ReadNum(buf, ip + 1, s);
      t := 15 + v;
    }
    lit := t + 3;
    HasSlices(s, q, lits);
    SliceOf(buf, end, q, lit);
    CopyOut(buf, q, out, n, lit);
    ip', n' := q + lit, n + lit;
    OneDone(buf, end, out, before, ip, n, p, r, data, lean, ip', n');
    StreamSnoc(p, r[0]);
  }

  lemma SliceOf(buf: array<byte>, end: nat, q: nat, k: nat)
    requires q + k <= end <= buf.Length
    ensures buf[q..q + k] == buf[..end][q..q + k]
  {
  }

  lemma HasSlices(s: seq<byte>, q: nat, lits: seq<byte>)
    requires Has(s, q, lits)
    ensures q + |lits| <= |s| && s[q..q + |lits|] == lits
  {
  }

  /** Literals at the very start. */
  method TakeFirst(buf: array<byte>, end: nat, out: array<byte>, ghost r: seq<Instr>, ghost data: seq<byte>,
                   ghost lean: bool)
    returns (ip': nat, n': nat)
    requires Working(buf, end, out, 0, 0, [], r, data, lean) && r != [] && r[0].First?
    modifies out
    ensures Working(buf, end, out, ip', n', [r[0]], r[1..], data, lean) && n' == |r[0].lits|
  {
    hide Stream, Split, File, Has, WellFormed, Expand;
    ghost var s, lits := buf[..end], r[0].lits;
    ToCome(buf, end, out, 0, 0, [], r, data, lean);
    Fits([], r, out[..0], data, lean);
    assert out[..0] == [];
    HasConcat(s, 0, [17 + |lits|], lits);
    HasAt(s, 0, [17 + |lits|], 0);
    var t: nat := buf[0] - 17;
    HasSlices(s, 1, lits);
    SliceOf(buf, end, 1, t);
    CopyOut(buf, 1, out, 0, t);
    ip', n' := 1 + t, t;
    OneDone(buf, end, out, [], 0, 0, [], r, data, lean, ip', n');
    assert [] + [r[0]] == [r[0]];
  }

  /** A match whose bytes end at `q`, with its literals. */
  method TakeMatch(buf: array<byte>, end: nat, out: array<byte>, ip: nat, n: nat, len: nat, off: nat, q: nat,
                   ghost p: seq<Instr>, ghost r: seq<Instr>, ghost data: seq<byte>, ghost lean: bool)
    returns (ip': nat, n': nat, litp: int, lit: nat)
    requires Working(buf, end, out, ip, n, p, r, data, lean) && r != [] && r[0].Copy? && Sound(r[0]) && len == r[0].len
    requires off == r[0].off
    requires q == ip + |MatchHead(r[0].kind, len, off, |r[0].tail|)|
    modifies out
    ensures Working(buf, end, out, ip', n', p + [r[0]], r[1..], data, lean) && LitAt(p + [r[0]], litp, lit) && litp >= 0
    ensures lit == |r[0].tail|
  {
    hide Stream, Split, File, Has, WellFormed, Expand, MatchHead, Lz77.CopyFrom;
    ghost var s, before, i := buf[..end], out[..n], r[0];
    ToCome(buf, end, out, ip, n, p, r, data, lean);
    Fits(p, r, before, data, lean);
    HasConcat(s, ip, MatchHead(i.kind, len, off, |i.tail|), i.tail);
    MatchMarks(s, ip, i.kind, len, off, |i.tail|);
    HasSlices(s, q, i.tail);
    LzoDecompress.CopyBack(out, 0, n, off, len);
    assert out[..n + len] == out[0..0 + n + len];
    assert buf[q - 2] == s[q - 2] == At(s, q - 2);
    lit := buf[q - 2] % 4;
    litp := q - 2;
    assert lit == |i.tail|;
    SliceOf(buf, end, q, lit);
    CopyOut(buf, q, out, n + len, lit);
    ip', n' := q + lit, n + len + lit;
    OneDone(buf, end, out, before, ip, n, p, r, data, lean, ip', n');
    StreamSnoc(p, i);
  }

  // ---- the rewrites

  /** copy2 and copy3: writes the bytes that a match of two or three bytes copies. */
  method WriteCopied(buf: array<byte>, at: nat, out: array<byte>, n: nat, off: nat, len: nat)
    requires buf != out && (len == 2 || len == 3) && at + len <= buf.Length && n <= out.Length && 1 <= off <= n
    modifies buf
    ensures forall i :: 0 <= i < buf.Length && !(at <= i < at + len) ==> buf[i] == old(buf[i])
    ensures buf[at..at + len] == Copied(out[..n], off, len)
  {
    hide Copied;
    CopiedBytes(out[..n], off);
    var m := n - off;
    buf[at] := out[m];
    if len == 2 {
      buf[at + 1] := if off == 1 then out[m] else out[m + 1];
      assert buf[at..at + 2] == [buf[at], buf[at + 1]];
    } else {
      if off == 1 {
        buf[at + 1], buf[at + 2] := out[m], out[m];
      } else if off == 2 {
        buf[at + 1] := out[m + 1];
        buf[at + 2] := out[m];
      } else {
        buf[at + 1] := out[m + 1];
        buf[at + 2] := out[m + 2];
      }
      assert buf[at..at + 3] == [buf[at], buf[at + 1], buf[at + 2]];
    }
  }

  /** Appends the bytes of a short match to the output. */
  method OutputCopied(out: array<byte>, n: nat, off: nat, len: nat)
    requires 1 <= off <= n && n + len <= out.Length
    modifies out
    ensures out[..n + len] == old(out[..n]) + Copied(old(out[..n]), off, len)
  {
    hide Copied, Lz77.CopyFrom;
    CopiedConcat(out[..n], off, len);
    assert out[0..0 + n] == out[..n];
    LzoDecompress.CopyBack(out, 0, n, off, len);
    assert out[0..0 + n + len] == out[..n + len];
  }

  /** What a rewritten buffer looks like. */
  lemma IsSpliced(buf: array<byte>, end: nat, s: seq<byte>, q: nat, v: byte, at: nat, x: seq<byte>)
    requires |s| == end <= buf.Length && q < at && at + |x| <= end
    requires buf[q] == v && buf[at..at + |x|] == x
    requires forall i :: 0 <= i < end && i != q && !(at <= i < at + |x|) ==> buf[i] == s[i]
    ensures buf[..end] == Spliced(s, q, v, at, x)
  {
  }

  /** The bounds of the state that the rewrites need. */
  lemma RewriteBounds(buf: array<byte>, end: nat, out: array<byte>, ip: nat, n: nat, p: seq<Instr>, r: seq<Instr>,
                      data: seq<byte>, lean: bool, len: nat)
    requires Working(buf, end, out, ip, n, p, r, data, lean) && PlainMatch(r, len)
    ensures Sound(r[0]) && 1 <= r[0].off <= n && n + len <= |data|
    ensures |r| > 1 && r[1].Run? ==> n + len + |r[1].lits| <= |data|
  {
    hide Stream, Lz77.CopyFrom, Expand, WellFormed;
    SplitNext(p, r, out[..n], data, lean);
    Fits(p, r, out[..n], data, lean);
    if |r| > 1 && r[1].Run? { Fits(p + [r[0]], r[1..], Apply(out[..n], r[0]).value, data, lean); }
  }

  /** A short match between two matches becomes literals of the match before it. */
  method RewriteTail(buf: array<byte>, end: nat, out: array<byte>, ip: nat, n: nat, off: nat, len: nat, litp: nat,
                     lit: nat, ghost p: seq<Instr>, ghost r: seq<Instr>, ghost data: seq<byte>, ghost lean: bool)
    returns (ip': nat, n': nat, ghost p': seq<Instr>)
    requires Working(buf, end, out, ip, n, p, r, data, lean) && PlainMatch(r, len) && LastCopy(p, lit) && lit + len == 3
    requires (len == 2 || len == 3)
    requires Sound(r[0]) && |Bytes(r[0])| == len && off == r[0].off && litp == ip - lit - 2 && (|r| > 1 ==> r[1].Copy?)
    modifies buf, out
    ensures Working(buf, end, out, ip', n', p', r[1..], data, lean) && LitAt(p', litp, 3)
    ensures After(Start, p') == AfterShort && p' == WithTail(p, Copied(old(out[..n]), off, len))
    ensures forall i :: end <= i < buf.Length ==> buf[i] == old(buf[i])
  {
    hide Stream, Split, File, Bytes, Copied, Spliced, WellFormed, Expand;
    RewriteBounds(buf, end, out, ip, n, p, r, data, lean, len);
    ghost var s, before, u := buf[..end], out[..n], p[|p| - 1].tail;
    ghost var x := Copied(before, off, len);
    MoreTail(p, r, before, data, lit, len, lean);
    MoreTailBytes(p, r, s, u, x, litp, ip);
    assert buf[litp] == s[litp];
    var b := buf[litp];
    buf[litp] := b - b % 4 + 3;
    WriteCopied(buf, ip, out, n, off, len);
    IsSpliced(buf, end, s, litp, s[litp] - lit + 3, ip, x);
    OutputCopied(out, n, off, len);
    ip', n', p' := ip + len, n + len, WithTail(p, x);
  }

  /** A short match between two runs joins them; `t` is the head of the second. */
  method RewriteRuns(buf: array<byte>, end: nat, out: array<byte>, ip: nat, n: nat, off: nat, t: nat, litp: nat,
                     lit: nat, ghost p: seq<Instr>, ghost r: seq<Instr>, ghost data: seq<byte>, ghost lean: bool)
    returns (ip': nat, n': nat, lit': nat, ghost p': seq<Instr>)
    requires Working(buf, end, out, ip, n, p, r, data, lean) && PlainMatch(r, 3) && p != [] && p[|p| - 1].Run?
    requires lit == |p[|p| - 1].lits|
    requires |r| > 1 && r[1].Run? && |r[1].lits| == t + 3 && 1 <= t && lit + 3 + t < 16
    requires Sound(r[0]) && |Bytes(r[0])| == 2 && off == r[0].off && litp == ip - lit - 1
    modifies buf, out
    ensures Working(buf, end, out, ip', n', p', r[2..], data, lean)
    ensures LitAt(p', litp, lit') && After(Start, p') == AfterRun
    ensures p' == WithRuns(p, Copied(old(out[..n]), off, 3), r[1].lits)
    ensures forall i :: end <= i < buf.Length ==> buf[i] == old(buf[i])
  {
    hide Stream, Split, File, Bytes, Copied, Spliced, WellFormed, Expand;
    RewriteBounds(buf, end, out, ip, n, p, r, data, lean, 3);
    ghost var s, before, u, l := buf[..end], out[..n], p[|p| - 1].lits, r[1].lits;
    ghost var x := Copied(before, off, 3);
    JoinRuns(p, r, before, data, 3, lean);
    JoinRunsBytes(p, r, s, u, x, t, l, litp, ip);
    WriteCopied(buf, ip, out, n, off, 3);
    lit' := lit + 3 + t + 3;
    buf[litp] := lit' - 3;
    IsSpliced(buf, end, s, litp, lit + 3 + t, ip, x);
    OutputCopied(out, n, off, 3);
    CopyRest(buf, end, out, ip + 3, n + 3, t + 3, s);
    ip', n', p' := ip + 3 + t + 3, n + 3 + t + 3, WithRuns(p, x, l);
    RunsLit(p, x, l, litp, ip, t);
  }

  /** Copies literals behind the bytes that were rewritten. */
  method CopyRest(buf: array<byte>, end: nat, out: array<byte>, ip: nat, n: nat, t: nat, ghost s: seq<byte>)
    requires buf != out && |s| == end <= buf.Length && ip + t <= end && n + t <= out.Length
    requires forall i :: ip <= i < end ==> buf[i] == s[i]
    modifies out
    ensures out[..n + t] == old(out[..n]) + s[ip..ip + t]
  {
    assert buf[ip..ip + t] == s[ip..ip + t];
    CopyOut(buf, ip, out, n, t);
  }

  lemma RunsLit(p: seq<Instr>, x: seq<byte>, l: seq<byte>, litp: nat, ip: nat, t: nat)
    requires p != [] && p[|p| - 1].Run? && AllSound(WithRuns(p, x, l)) && |x| == 3 && |l| == t + 3
    requires litp == ip - |p[|p| - 1].lits| - 1
    requires |Stream(WithRuns(p, x, l))| == ip + 3 + t + 3
    ensures LitAt(WithRuns(p, x, l), litp, |p[|p| - 1].lits| + 3 + t + 3) && After(Start, WithRuns(p, x, l)) == AfterRun
  {
    hide Stream, Sound;
  }

  /** A short match before a run joins it, together with the literals before the match; `t` is the head of the run. */
  method RewriteRun(buf: array<byte>, end: nat, out: array<byte>, ip: nat, n: nat, off: nat, len: nat, t: nat,
                    litp: nat, lit: nat, ghost p: seq<Instr>, ghost r: seq<Instr>, ghost data: seq<byte>,
                    ghost lean: bool)
    returns (ip': nat, n': nat, litp': nat, lit': nat, ghost p': seq<Instr>)
    requires Working(buf, end, out, ip, n, p, r, data, lean) && PlainMatch(r, len) && LastCopy(p, lit)
    requires (len == 2 || len == 3)
    requires |r| > 1 && r[1].Run? && |r[1].lits| == t + 3 && 1 <= t && lit + len + t < 16
    requires Sound(r[0]) && |Bytes(r[0])| == len && off == r[0].off && litp == ip - lit - 2
    modifies buf, out
    ensures Working(buf, end, out, ip', n', p', r[2..], data, lean)
    ensures LitAt(p', litp', lit') && After(Start, p') == AfterRun
    ensures p' == WithRun(p, Copied(old(out[..n]), off, len), r[1].lits)
    ensures forall i :: end <= i < buf.Length ==> buf[i] == old(buf[i])
  {
    hide Stream, Split, File, Bytes, Copied, Spliced, WellFormed, Expand, WithRun;
    RewriteBounds(buf, end, out, ip, n, p, r, data, lean, len);
    ghost var s, before, u, l := buf[..end], out[..n], p[|p| - 1].tail, r[1].lits;
    ghost var x := Copied(before, off, len);
    JoinRun(p, r, before, data, lit, len, lean);
    JoinRunReads(p, r, s, u, len, t, l, litp, ip);
    JoinRunBytes(p, r, s, u, len, x, t, l, litp, ip);
    litp' := litp + 2;
    lit' := lit + len + t + 3;
    SpliceRun(buf, end, out, ip, n, off, len, litp, lit, lit' - 3, s);
    OutputCopied(out, n, off, len);
    CopyRest(buf, end, out, ip + len + 1, n + len, t + 3, s);
    ip', n', p' := ip + len + 1 + t + 3, n + len + t + 3, WithRun(p, x, l);
    RunLit(p, x, l, litp', ip, t);
  }

  /** Takes the count out of the match and writes the copied bytes behind the run's head. */
  method PatchCopied(buf: array<byte>, out: array<byte>, ip: nat, n: nat, off: nat, len: nat, litp: nat)
    requires buf != out && (len == 2 || len == 3) && n <= out.Length && 1 <= off <= n
    requires litp < ip && ip + len + 1 <= buf.Length
    modifies buf
    ensures buf[litp] == old(buf[litp] - buf[litp] % 4)
    ensures buf[ip + 1..ip + 1 + len] == Copied(out[..n], off, len)
    ensures forall i :: 0 <= i < buf.Length && i != litp && !(ip + 1 <= i < ip + 1 + len) ==> buf[i] == old(buf[i])
  {
    hide Copied;
    buf[litp] := buf[litp] - buf[litp] % 4;
    WriteCopied(buf, ip + 1, out, n, off, len);
  }

  /** Makes the bytes of a run out of the literals before a match and the bytes it copies. */
  method SpliceRun(buf: array<byte>, end: nat, out: array<byte>, ip: nat, n: nat, off: nat, len: nat, litp: nat,
                   lit: nat, w: byte, ghost s: seq<byte>)
    requires buf != out && end <= buf.Length && buf[..end] == s && (len == 2 || len == 3) && n <= out.Length
    requires 1 <= off <= n
    requires litp + 2 + lit == ip && ip + len + 1 <= end && s[litp] % 4 == lit
    modifies buf
    ensures buf[..end]
            == Spliced(s, litp, s[litp] - lit, litp + 2, ([w] + s[litp + 2..ip]) + Copied(out[..n], off, len))
    ensures forall i :: ip + len + 1 <= i < buf.Length ==> buf[i] == old(buf[i])
  {
    hide Copied, Spliced;
    ghost var u, x := s[litp + 2..ip], Copied(out[..n], off, len);
    assert buf[litp] == s[litp];
    assert forall i :: 0 <= i < end ==> buf[i] == s[i];
    PatchCopied(buf, out, ip, n, off, len, litp);
    assert buf[litp + 2..litp + 2 + lit] == u;
    InsertByte(buf, litp + 2, lit, w, len);
    IsJoined(buf, end, s, litp, s[litp] - lit, u, x, w);
  }

  /** Moves `lit` bytes one byte ahead, keeps the `len` bytes behind them, and puts `w` in front. */
  method InsertByte(buf: array<byte>, at: nat, lit: nat, w: byte, len: nat)
    requires at + lit + 1 + len <= buf.Length
    modifies buf
    ensures buf[at] == w && buf[at + 1..at + 1 + lit] == old(buf[at..at + lit])
    ensures buf[at + 1 + lit..at + 1 + lit + len] == old(buf[at + 1 + lit..at + 1 + lit + len])
    ensures forall i :: 0 <= i < buf.Length && !(at <= i <= at + lit) ==> buf[i] == old(buf[i])
  {
    forall i | at < i <= at + lit { buf[i] := buf[i - 1]; }
    buf[at] := w;
  }

  lemma IsJoined(buf: array<byte>, end: nat, s: seq<byte>, q: nat, v: byte, u: seq<byte>, x: seq<byte>, w: byte)
    requires |s| == end <= buf.Length && q + 3 + |u| + |x| <= end
    requires buf[q] == v && buf[q + 2] == w && buf[q + 3..q + 3 + |u|] == u && buf[q + 3 + |u|..q + 3 + |u| + |x|] == x
    requires forall i :: 0 <= i < end && i != q && !(q + 2 <= i < q + 3 + |u| + |x|) ==> buf[i] == s[i]
    ensures buf[..end] == Spliced(s, q, v, q + 2, ([w] + u) + x)
  {
    hide Spliced;
    assert buf[q + 2..q + 3 + |u| + |x|]
           == (buf[q + 2..q + 3] + buf[q + 3..q + 3 + |u|]) + buf[q + 3 + |u|..q + 3 + |u| + |x|];
    IsSpliced(buf, end, s, q, v, q + 2, ([w] + u) + x);
  }

  lemma RunLit(p: seq<Instr>, x: seq<byte>, l: seq<byte>, litp: nat, ip: nat, t: nat)
    requires p != [] && p[|p| - 1].Copy? && AllSound(WithRun(p, x, l)) && |l| == t + 3 && litp == ip - |p[|p| - 1].tail|
    requires |Stream(WithRun(p, x, l))| == ip + |x| + 1 + t + 3
    ensures LitAt(WithRun(p, x, l), litp, |p[|p| - 1].tail| + |x| + t + 3) && After(Start, WithRun(p, x, l)) == AfterRun
  {
    hide Stream, Sound;
  }

  // ---- the main loop

  /** What the byte behind a match without literals says about the next instruction. */
  lemma ByteAfter(buf: array<byte>, end: nat, out: array<byte>, ip: nat, n: nat, p: seq<Instr>, r: seq<Instr>,
                  data: seq<byte>, lean: bool, q: nat)
    requires Working(buf, end, out, ip, n, p, r, data, lean) && r != [] && r[0].Copy? && Sound(r[0]) && r[0].tail == []
    requires q == ip + |Bytes(r[0])|
    ensures q < end
    ensures buf[q] >= 16 <==> MatchFollows(r)
    ensures RunFollows(r) == if buf[q] < 16 then buf[q] else 0
  {
    hide Stream, Bytes, Has, Expand, File;
    ToCome(buf, end, out, ip, n, p, r, data, lean);
    SplitNext(p, r, out[..n], data, lean);
    FirstByte(AfterMatch, r[1..], buf[..end], q);
    assert buf[q] == At(buf[..end], q);
    if |r| > 1 { assert r[1..][0] == r[1] && Allowed(AfterMatch, r[1]) && Sound(r[1]); }
  }

  /** The output so far is that of the instructions done. */
  lemma OutputSoFar(buf: array<byte>, end: nat, out: array<byte>, ip: nat, n: nat, p: seq<Instr>, r: seq<Instr>,
                    data: seq<byte>, lean: bool)
    requires Working(buf, end, out, ip, n, p, r, data, lean)
    ensures n <= out.Length && Expand([], p) == Some(out[..n])
  {
    hide Stream, File, Expand;
  }

  /** What is known of the next match. */
  lemma NextMatchFacts(buf: array<byte>, end: nat, out: array<byte>, ip: nat, n: nat, st: State, p: seq<Instr>,
                       r: seq<Instr>, data: seq<byte>, lean: bool)
    requires Working(buf, end, out, ip, n, p, r, data, lean) && st == After(Start, p) && ip < end
    requires (buf[ip] >= 16 || st == AfterShort)
    requires st == Start ==> buf[ip] <= 17
    ensures HeadAt(buf[..end], ip).Some? && HeadAt(buf[..end], ip).value.2 <= end
    ensures var (t, o, q) := HeadAt(buf[..end], ip).value;
            && (o == 0 <==> r == []) && (r == [] ==> q == end)
            && (r != [] ==> r[0].Copy? && Sound(r[0]) && r[0].kind != MX && r[0].len == t + 2 && r[0].off == o
                            && q == ip + |MatchHead(r[0].kind, r[0].len, r[0].off, |r[0].tail|)| && q >= 2
                            && buf[q - 2] % 4 == |r[0].tail|
                            && (r[0].kind == M1 <==> buf[ip] < 16) && (r[0].kind == M1 ==> st == AfterShort)
                            && (r[0].kind == M2 <==> buf[ip] >= 64))
  {
    hide Stream, Has, Expand, HeadAt, MatchHead, LongNumber;
    var s := buf[..end];
    assert buf[ip] == At(s, ip);
    ToCome(buf, end, out, ip, n, p, r, data, lean);
    FirstByte(st, r, s, ip);
    if r == [] {
      StreamEmpty();
      assert File(r) == END_MARKER;
      HeadOfEnd(s, ip);
    } else {
      assert Allowed(st, r[0]);
      var i := r[0];
      HasConcat(s, ip, MatchHead(i.kind, i.len, i.off, |i.tail|), i.tail);
      HasWithin(s, ip, MatchHead(i.kind, i.len, i.off, |i.tail|));
      HeadOfMatch(s, ip, i.kind, i.len, i.off, |i.tail|);
      MatchMarks(s, ip, i.kind, i.len, i.off, |i.tail|);
      KindByte(s, ip, i);
      assert buf[ip + |MatchHead(i.kind, i.len, i.off, |i.tail|)| - 2]
             == s[ip + |MatchHead(i.kind, i.len, i.off, |i.tail|)| - 2];
    }
  }

  lemma KindByte(s: seq<byte>, ip: nat, i: Instr)
    requires i.Copy? && Sound(i) && Has(s, ip, MatchHead(i.kind, i.len, i.off, |i.tail|))
    ensures i.kind == M2 <==> At(s, ip) >= 64
  {
    hide Has, At, LongNumber, OffsetBytes;
    var h := MatchHead(i.kind, i.len, i.off, |i.tail|);
    HasAt(s, ip, h, 0);
    match i.kind
    case M1 => M1Fields(i.off - 1, |i.tail|);
    case MX => M1Fields(i.off - 1 - M2_MAX_OFFSET, |i.tail|);
    case M2 => M2Fields(i.len, i.off, |i.tail|);
    case M3 =>
    case M4 =>
  }

  /** Everything known between two instructions. */
  ghost predicate Ready(buf: array<byte>, end: nat, out: array<byte>, ip: nat, n: nat, st: State, litp: int, lit: nat,
                        p: seq<Instr>, r: seq<Instr>, data: seq<byte>, lean: bool)
    reads buf, out
  {
    Working(buf, end, out, ip, n, p, r, data, lean) && LitAt(p, litp, lit) && st == After(Start, p)
  }

  /** Where the literals before the next match are counted. */
  lemma LastLiterals(p: seq<Instr>, litp: int, lit: nat)
    requires AllSound(p) && LitAt(p, litp, lit) && litp != -1
    ensures lit <= 3 ==> LastCopy(p, lit) && litp == |Stream(p)| - lit - 2
    ensures 3 < lit <= 18 ==> p != [] && p[|p| - 1].Run? && |p[|p| - 1].lits| == lit && litp == |Stream(p)| - lit - 1
    ensures lit <= 18 ==> litp >= 0
  {
    hide Stream, MatchHead, LongNumber;
    var i := p[|p| - 1];
    StreamBack(p);
    if i.Copy? { PatchedHead(i.kind, i.len, i.off, |i.tail|); }
  }

  lemma LitsKnown(p: seq<Instr>, litp: int, lit: nat)
    requires AllSound(p) && LitAt(p, litp, lit)
    ensures LitsBefore(p) == if litp == -1 then None else Some(lit)
  {
    hide Stream;
  }

  lemma PlainBytes(i: Instr)
    requires i.Copy? && Sound(i) && i.tail == []
    ensures Bytes(i) == MatchHead(i.kind, i.len, i.off, 0)
    ensures (i.kind == M1 || i.kind == M2) ==> |Bytes(i)| == 2
    ensures (i.kind == M3 || i.kind == M4) && i.len == 3 ==> |Bytes(i)| == 3
  {
    hide LongNumber;
  }

  lemma AfterShortLits(p: seq<Instr>, litp: int, lit: nat)
    requires AllSound(p) && LitAt(p, litp, lit) && litp != -1 && After(Start, p) == AfterShort
    ensures 1 <= lit <= 3
  {
    assert Sound(p[|p| - 1]);
  }

  lemma SoundOf(buf: array<byte>, end: nat, out: array<byte>, ip: nat, n: nat, p: seq<Instr>, r: seq<Instr>,
                data: seq<byte>, lean: bool)
    requires Working(buf, end, out, ip, n, p, r, data, lean)
    ensures AllSound(p) && AllSound(r) && ip == |Stream(p)| && end <= buf.Length && buf != out
  {
    hide Stream, Split, File;
  }

  lemma AfterMatchTaken(p: seq<Instr>, i: Instr)
    requires i.Copy?
    ensures After(Start, p + [i]) == if |i.tail| == 0 then AfterMatch else AfterShort
  {
  }

  /** An M1 match: it may become literals of the match before it, or join the run behind it. */
  method StepM1(buf: array<byte>, end: nat, out: array<byte>, ip: nat, n: nat, o: nat, q: nat, litp: int, lit: nat,
                ghost p: seq<Instr>, ghost r: seq<Instr>, ghost data: seq<byte>, ghost lean: bool)
    returns (ip': nat, n': nat, st': State, litp': int, lit': nat, ghost p': seq<Instr>, ghost r': seq<Instr>)
    requires Ready(buf, end, out, ip, n, AfterShort, litp, lit, p, r, data, lean)
    requires r != [] && r[0].Copy? && Sound(r[0]) && r[0].kind == M1 && r[0].off == o && 2 <= q < end
    requires buf[q - 2] % 4 == |r[0].tail|
    requires q == ip + |MatchHead(M1, 2, o, |r[0].tail|)|
    modifies buf, out
    ensures Ready(buf, end, out, ip', n', st', litp', lit', p', r', data, lean) && |r'| < |r| && st' != Start
    ensures Rewrite(p', r') == Rewrite(p, r)
    ensures forall i :: end <= i < buf.Length ==> buf[i] == old(buf[i])
  {
    hide Stream, Split, File, Bytes, MatchHead, Working, LitAt, After, Rewrite, Expand, Copied;
    SoundOf(buf, end, out, ip, n, p, r, data, lean);
    LitsKnown(p, litp, lit);
    OutputSoFar(buf, end, out, ip, n, p, r, data, lean);
    if litp != -1 && buf[q - 2] % 4 == 0 {
      AfterShortLits(p, litp, lit);
      LastLiterals(p, litp, lit);
      PlainBytes(r[0]);
      ByteAfter(buf, end, out, ip, n, p, r, data, lean, q);
      RewriteBounds(buf, end, out, ip, n, p, r, data, lean, r[0].len);
      if RuleFor(p, r) != Keep { RuleApplies(p, r, out[..n]); }
      if lit == 1 && buf[q] >= 16 {
        ip', n', p' := RewriteTail(buf, end, out, ip, n, o, 2, litp, lit, p, r, data, lean);
        litp', lit', st', r' := litp, 3, AfterShort, r[1..];
        return;
      } else if buf[q] < 16 && buf[q] != 0 && lit + 2 + buf[q] < 16 {
        ip', n', litp', lit', p' := RewriteRun(buf, end, out, ip, n, o, 2, buf[q], litp, lit, p, r, data, lean);
        st', r' := AfterRun, r[2..];
        return;
      }
    }
    RuleKeep(p, r);
    ip', n', litp', lit' := TakeMatch(buf, end, out, ip, n, 2, o, q, p, r, data, lean);
    p', r' := p + [r[0]], r[1..];
    st' := if lit' == 0 then AfterMatch else AfterShort;
    AfterMatchTaken(p, r[0]);
  }

  /** An M2 match of three bytes may join two runs. */
  method StepM2(buf: array<byte>, end: nat, out: array<byte>, ip: nat, n: nat, t: nat, o: nat, q: nat, st: State,
                litp: int, lit: nat, ghost p: seq<Instr>, ghost r: seq<Instr>, ghost data: seq<byte>, ghost lean: bool)
    returns (ip': nat, n': nat, st': State, litp': int, lit': nat, ghost p': seq<Instr>, ghost r': seq<Instr>)
    requires Ready(buf, end, out, ip, n, st, litp, lit, p, r, data, lean)
    requires r != [] && r[0].Copy? && Sound(r[0]) && r[0].kind == M2 && r[0].len == t + 2 && r[0].off == o
    requires 2 <= q < end && buf[q - 2] % 4 == |r[0].tail|
    requires q == ip + |MatchHead(M2, t + 2, o, |r[0].tail|)|
    modifies buf, out
    ensures Ready(buf, end, out, ip', n', st', litp', lit', p', r', data, lean) && |r'| < |r| && st' != Start
    ensures Rewrite(p', r') == Rewrite(p, r)
    ensures forall i :: end <= i < buf.Length ==> buf[i] == old(buf[i])
  {
    hide Stream, Split, File, Bytes, MatchHead, Working, LitAt, After, Rewrite, Expand, Copied;
    SoundOf(buf, end, out, ip, n, p, r, data, lean);
    LitsKnown(p, litp, lit);
    OutputSoFar(buf, end, out, ip, n, p, r, data, lean);
    if litp != -1 && buf[q - 2] % 4 == 0 {
      LastLiterals(p, litp, lit);
      PlainBytes(r[0]);
      ByteAfter(buf, end, out, ip, n, p, r, data, lean, q);
      RewriteBounds(buf, end, out, ip, n, p, r, data, lean, r[0].len);
      if RuleFor(p, r) != Keep { RuleApplies(p, r, out[..n]); }
      if t == 1 && lit > 3 && buf[q] < 16 && buf[q] != 0 && lit + 3 + buf[q] < 16 {
        ip', n', lit', p' := RewriteRuns(buf, end, out, ip, n, o, buf[q], litp, lit, p, r, data, lean);
        litp', st', r' := litp, AfterRun, r[2..];
        return;
      }
    }
    RuleKeep(p, r);
    ip', n', litp', lit' := TakeMatch(buf, end, out, ip, n, t + 2, o, q, p, r, data, lean);
    p', r' := p + [r[0]], r[1..];
    st' := if lit' == 0 then AfterMatch else AfterShort;
    AfterMatchTaken(p, r[0]);
  }

  /** An M3 or M4 match of three bytes may become literals of the match before it, or join the run behind it. */
  method StepM3(buf: array<byte>, end: nat, out: array<byte>, ip: nat, n: nat, t: nat, o: nat, q: nat, st: State,
                litp: int, lit: nat, ghost p: seq<Instr>, ghost r: seq<Instr>, ghost data: seq<byte>, ghost lean: bool)
    returns (ip': nat, n': nat, st': State, litp': int, lit': nat, ghost p': seq<Instr>, ghost r': seq<Instr>)
    requires Ready(buf, end, out, ip, n, st, litp, lit, p, r, data, lean)
    requires r != [] && r[0].Copy? && Sound(r[0]) && (r[0].kind == M3 || r[0].kind == M4) && r[0].len == t + 2
    requires r[0].off == o
    requires 2 <= q < end && buf[q - 2] % 4 == |r[0].tail| && q == ip + |MatchHead(r[0].kind, t + 2, o, |r[0].tail|)|
    modifies buf, out
    ensures Ready(buf, end, out, ip', n', st', litp', lit', p', r', data, lean) && |r'| < |r| && st' != Start
    ensures Rewrite(p', r') == Rewrite(p, r)
    ensures forall i :: end <= i < buf.Length ==> buf[i] == old(buf[i])
  {
    hide Stream, Split, File, Bytes, MatchHead, Working, LitAt, After, Rewrite, Expand, Copied;
    SoundOf(buf, end, out, ip, n, p, r, data, lean);
    LitsKnown(p, litp, lit);
    OutputSoFar(buf, end, out, ip, n, p, r, data, lean);
    if litp != -1 && buf[q - 2] % 4 == 0 {
      LastLiterals(p, litp, lit);
      PlainBytes(r[0]);
      ByteAfter(buf, end, out, ip, n, p, r, data, lean, q);
      RewriteBounds(buf, end, out, ip, n, p, r, data, lean, r[0].len);
      if RuleFor(p, r) != Keep { RuleApplies(p, r, out[..n]); }
      if t == 1 && lit == 0 && buf[q] >= 16 {
        ip', n', p' := RewriteTail(buf, end, out, ip, n, o, 3, litp, lit, p, r, data, lean);
        litp', lit', st', r' := litp, 3, AfterShort, r[1..];
        return;
      } else if t == 1 && lit <= 3 && buf[q] < 16 && buf[q] != 0 && lit + 3 + buf[q] < 16 {
        ip', n', litp', lit', p' := RewriteRun(buf, end, out, ip, n, o, 3, buf[q], litp, lit, p, r, data, lean);
        st', r' := AfterRun, r[2..];
        return;
      }
    }
    RuleKeep(p, r);
    ip', n', litp', lit' := TakeMatch(buf, end, out, ip, n, t + 2, o, q, p, r, data, lean);
    p', r' := p + [r[0]], r[1..];
    st' := if lit' == 0 then AfterMatch else AfterShort;
    AfterMatchTaken(p, r[0]);
  }

  /** An MX match. */
  method StepMX(buf: array<byte>, end: nat, out: array<byte>, ip: nat, n: nat, ghost p: seq<Instr>, ghost r: seq<Instr>,
                ghost data: seq<byte>, ghost lean: bool)
    returns (ip': nat, n': nat, litp': int, lit': nat)
    requires Working(buf, end, out, ip, n, p, r, data, lean) && r != [] && r[0].Copy? && Sound(r[0]) && r[0].kind == MX
    modifies out
    ensures Working(buf, end, out, ip', n', p + [r[0]], r[1..], data, lean) && LitAt(p + [r[0]], litp', lit')
    ensures lit' == |r[0].tail|
  {
    hide Stream, Split, File, Has, At, LitAt;
    ghost var s, i := buf[..end], r[0];
    ToCome(buf, end, out, ip, n, p, r, data, lean);
    ghost var h := MatchHead(MX, 3, i.off, |i.tail|);
    HasConcat(s, ip, h, i.tail);
    HasAt(s, ip, h, 0);
    HasAt(s, ip, h, 1);
    M1Fields(i.off - 1 - M2_MAX_OFFSET, |i.tail|);
    AtIs(s, ip);
    AtIs(s, ip + 1);
    var t: nat, u: nat := buf[ip], buf[ip + 1];
    ip', n', litp', lit' := TakeMatch(buf, end, out, ip, n, 3, 1 + M2_MAX_OFFSET + t / 4 + u * 4, ip + 2, p, r, data,
                                      lean);
  }

  lemma AtIs(s: seq<byte>, i: nat)
    requires i < |s|
    ensures At(s, i) == s[i]
  {
  }

  /** One instruction, with the rewrite that applies to it. */
  method StepOne(buf: array<byte>, end: nat, out: array<byte>, ip: nat, n: nat, st: State, litp: int, lit: nat,
                 ghost p: seq<Instr>, ghost r: seq<Instr>, ghost data: seq<byte>, ghost lean: bool)
    returns (eof: bool, ip': nat, n': nat, st': State, litp': int, lit': nat, ghost p': seq<Instr>,
             ghost r': seq<Instr>)
    requires Ready(buf, end, out, ip, n, st, litp, lit, p, r, data, lean) && (r != [] ==> !r[0].First?)
    modifies buf, out
    ensures eof ==> r == [] && ip' == end && Ready(buf, end, out, ip, n, st, litp, lit, p, r, data, lean)
    ensures !eof ==>
            Ready(buf, end, out, ip', n', st', litp', lit', p', r', data, lean) && |r'| < |r| &&
              (r' != [] ==> !r'[0].First?) && Rewrite(p', r') == Rewrite(p, r)
    ensures forall i :: end <= i < buf.Length ==> buf[i] == old(buf[i])
  {
    hide Stream, Split, File, Has, LitAt, Working, HeadAt, MatchHead;
    SoundOf(buf, end, out, ip, n, p, r, data, lean);
    ToCome(buf, end, out, ip, n, p, r, data, lean);
    WorkingForm(buf, end, out, ip, n, p, r, data, lean);
    ghost var s := buf[..end];
    FirstByte(st, r, s, ip);
    AtIs(s, ip);
    eof, ip', n', st', litp', lit', p', r' := false, ip, n, st, litp, lit, p, r;
    if (st == Start || st == AfterMatch) && buf[ip] < 16 {
      ip', n', litp', lit' := TakeRun(buf, end, out, ip, n, p, r, data, lean);
      p', r', st' := p + [r[0]], r[1..], AfterRun;
    } else if st == AfterRun && buf[ip] < 16 {
      ip', n', litp', lit' := StepMX(buf, end, out, ip, n, p, r, data, lean);
      AfterMatchTaken(p, r[0]);
      p', r' := p + [r[0]], r[1..];
      st' := if lit' == 0 then AfterMatch else AfterShort;
    } else {
      NextMatchFacts(buf, end, out, ip, n, st, p, r, data, lean);
      var t, o, q := ReadHead(buf, ip, s);
      if o == 0 {
        eof, ip' := true, q;
        return;
      }
      MatchWithin(buf, end, out, ip, n, p, r, data, lean, q);
      if buf[ip] < 16 {
        ip', n', st', litp', lit', p', r' := StepM1(buf, end, out, ip, n, o, q, litp, lit, p, r, data, lean);
      } else if buf[ip] >= 64 {
        ip', n', st', litp', lit', p', r' := StepM2(buf, end, out, ip, n, t, o, q, st, litp, lit, p, r, data, lean);
      } else {
        ip', n', st', litp', lit', p', r' := StepM3(buf, end, out, ip, n, t, o, q, st, litp, lit, p, r, data, lean);
      }
    }
    NoLaterFirst(buf, end, out, ip', n', p', r', data, lean);
  }

  lemma WorkingForm(buf: array<byte>, end: nat, out: array<byte>, ip: nat, n: nat, p: seq<Instr>, r: seq<Instr>,
                    data: seq<byte>, lean: bool)
    requires Working(buf, end, out, ip, n, p, r, data, lean)
    ensures WellFormed(After(Start, p), r) && (r != [] ==> Allowed(After(Start, p), r[0]) && Sound(r[0]))
  {
    hide Stream, File, Expand;
  }

  /** Only at the very start can there be a special first instruction. */
  lemma NoLaterFirst(buf: array<byte>, end: nat, out: array<byte>, ip: nat, n: nat, p: seq<Instr>, r: seq<Instr>,
                     data: seq<byte>, lean: bool)
    requires Working(buf, end, out, ip, n, p, r, data, lean) && After(Start, p) != Start
    ensures r != [] ==> !r[0].First?
  {
    hide Stream, File, Expand;
  }

  lemma MatchWithin(buf: array<byte>, end: nat, out: array<byte>, ip: nat, n: nat, p: seq<Instr>, r: seq<Instr>,
                    data: seq<byte>, lean: bool, q: nat)
    requires Working(buf, end, out, ip, n, p, r, data, lean) && r != [] && r[0].Copy? && Sound(r[0])
    requires q == ip + |MatchHead(r[0].kind, r[0].len, r[0].off, |r[0].tail|)|
    ensures q < end
  {
    hide Stream, File, Split, MatchHead, Has;
    ToCome(buf, end, out, ip, n, p, r, data, lean);
  }

  /** Rewrites a well-formed stream in place: same length, well formed, and standing for the same data, which is also
      put out. */
  method Optimize(buf: array<byte>, end: nat, out: array<byte>, ghost ins: seq<Instr>, ghost data: seq<byte>,
                  ghost lean: bool)
    returns (code: Code, outLen: nat, ghost ins': seq<Instr>)
    requires buf != out && end <= buf.Length && |data| <= out.Length && WellFormed(Start, ins) && AllSound(ins)
    requires buf[..end] == File(ins) && Expand([], ins) == Some(data) && (lean ==> Lean(Start, ins))
    modifies buf, out
    ensures code == Ok && outLen == |data| && out[..outLen] == data
    ensures WellFormed(Start, ins') && AllSound(ins') && buf[..end] == File(ins') && Expand([], ins') == Some(data)
    ensures ins' == Pass(ins)
    ensures lean ==> Lean(Start, ins')
    ensures 1 <= end && (end < 0x1_0000_0000 ==> Decode(buf[..end], end, |data|) == Halt(Ok, data))
    ensures forall i :: end <= i < buf.Length ==> buf[i] == old(buf[i])
  {
    hide Stream, Split, File, LitAt, Working, WellFormed, Lean, Expand, Result;
    var ip, n, st, litp, lit := 0, 0, Start, -1, 0;
    ghost var p: seq<Instr>, r: seq<Instr> := [], ins;
    Starting(buf, end, out, ins, data, lean);
    ToCome(buf, end, out, 0, 0, [], ins, data, lean);
    FirstByte(Start, ins, buf[..end], 0);
    AtIs(buf[..end], 0);
    if buf[0] > 17 {
      OnlyFirst(buf, end, out, ins, data, lean);
      ip, n := TakeFirst(buf, end, out, ins, data, lean);
      p, r := [ins[0]], ins[1..];
      st := if n < 4 then AfterShort else AfterRun;
      NoLaterFirst(buf, end, out, ip, n, p, r, data, lean);
    }
    NoLitYet(p);
    while true
      invariant Ready(buf, end, out, ip, n, st, litp, lit, p, r, data, lean) && (r != [] ==> !r[0].First?)
      invariant Rewrite(p, r) == Pass(ins)
      invariant forall i :: end <= i < buf.Length ==> buf[i] == old(buf[i])
      decreases |r|
    {
      var eof, ip', n', st', litp', lit', p', r' := StepOne(buf, end, out, ip, n, st, litp, lit, p, r, data, lean);
      if eof {
        Finished(buf, end, out, ip, n, p, data, lean);
        StillDecodes(buf[..end], p, data);
        return if ip' == end then Ok else InputNotConsumed, n, p;
      }
      ip, n, st, litp, lit, p, r := ip', n', st', litp', lit', p', r';
    }
  }

  lemma Starting(buf: array<byte>, end: nat, out: array<byte>, ins: seq<Instr>, data: seq<byte>, lean: bool)
    requires buf != out && end <= buf.Length && |data| <= out.Length && WellFormed(Start, ins) && AllSound(ins)
    requires buf[..end] == File(ins) && Expand([], ins) == Some(data) && (lean ==> Lean(Start, ins))
    ensures Working(buf, end, out, 0, 0, [], ins, data, lean)
  {
    hide File;
    assert out[..0] == [];
    assert Stream([]) + File(ins) == File(ins);
  }

  lemma OnlyFirst(buf: array<byte>, end: nat, out: array<byte>, ins: seq<Instr>, data: seq<byte>, lean: bool)
    requires Working(buf, end, out, 0, 0, [], ins, data, lean) && end > 0 && buf[0] > 17
    ensures ins != [] && ins[0].First?
  {
    hide Stream, Expand, File;
    ToCome(buf, end, out, 0, 0, [], ins, data, lean);
    FirstByte(Start, ins, buf[..end], 0);
    AtIs(buf[..end], 0);
  }

  lemma NoLitYet(p: seq<Instr>)
    requires AllSound(p) && LitsBefore(p).None?
    ensures LitAt(p, -1, 0)
  {
  }

  lemma Finished(buf: array<byte>, end: nat, out: array<byte>, ip: nat, n: nat, p: seq<Instr>, data: seq<byte>,
                 lean: bool)
    requires Working(buf, end, out, ip, n, p, [], data, lean)
    ensures n <= out.Length && n == |data| && out[..n] == data && WellFormed(Start, p) && AllSound(p)
    ensures (lean ==> Lean(Start, p))
    ensures buf[..end] == File(p) && Expand([], p) == Some(data)
  {
    StreamEmpty();
    assert File([]) == END_MARKER;
  }

  lemma StillDecodes(s: seq<byte>, p: seq<Instr>, data: seq<byte>)
    requires WellFormed(Start, p) && AllSound(p) && s == File(p) && Expand([], p) == Some(data)
    ensures |s| >= 1 && (|s| < 0x1_0000_0000 ==> Decode(s, |s|, |data|) == Halt(Ok, data))
  {
    hide Stream, WellFormed, Expand, AllSound, Result;
    if |s| < 0x1_0000_0000 { FileDecodes(s, p, |data|); }
  }
}
