/** The rewrites of lzo1x_optimize on instruction lists and on their bytes. */
module LzoRewrite {
  import opened Bits
  import Lz77
  import opened LzoFormat
  import LzoDecodes
  import opened LzoSize
  import opened LzoEncode

  // ---- instruction lists

  lemma {:induction false} WellFormedConcat(st: State, p: seq<Instr>, r: seq<Instr>)
    ensures WellFormed(st, p + r) <==> WellFormed(st, p) && WellFormed(After(st, p), r)
    decreases |p|
  {
    hide Allowed, Next;
    if p == [] {
      assert p + r == r;
    } else {
      assert (p + r)[0] == p[0] && (p + r)[1..] == p[1..] + r;
      WellFormedConcat(Next(p[0]), p[1..], r);
    }
  }

  lemma {:induction false} ExpandConcat(out: seq<byte>, p: seq<Instr>, r: seq<Instr>)
    ensures Expand(out, p + r) == if Expand(out, p).Some? then Expand(Expand(out, p).value, r) else None
    decreases |p|
  {
    hide Apply;
    if p == [] {
      assert p + r == r;
    } else {
      assert (p + r)[0] == p[0] && (p + r)[1..] == p[1..] + r;
      if Apply(out, p[0]).Some? { ExpandConcat(Apply(out, p[0]).value, p[1..], r); }
    }
  }

  /** The instructions done, `p`, and those to come, `r`: together they stand for `data`, lean if asked for, and `p`
      alone for `out`. */
  ghost predicate Split(p: seq<Instr>, r: seq<Instr>, out: seq<byte>, data: seq<byte>, lean: bool) {
    && AllSound(p) && AllSound(r) && WellFormed(Start, p) && WellFormed(After(Start, p), r)
    && (lean ==> Lean(Start, p) && Lean(After(Start, p), r))
    && Expand([], p) == Some(out) && Expand(out, r) == Some(data)
  }

  /** Taking the next instruction. */
  lemma SplitNext(p: seq<Instr>, r: seq<Instr>, out: seq<byte>, data: seq<byte>, lean: bool)
    requires Split(p, r, out, data, lean) && r != []
    ensures Sound(r[0]) && Allowed(After(Start, p), r[0]) && Apply(out, r[0]).Some?
    ensures Split(p + [r[0]], r[1..], Apply(out, r[0]).value, data, lean)
  {
    hide Apply, Allowed, Next, Sound, Stream, Thrifty;
    WellFormedSnoc(Start, p, r[0]);
    LeanSnoc(Start, p, r[0]);
    ExpandSnoc([], p, r[0], out);
    StreamSnoc(p, r[0]);
    assert After(Start, p + [r[0]]) == Next(r[0]);
  }

  /** The two or three bytes that a short match copies. */
  ghost function Copied(out: seq<byte>, off: nat, len: nat): (x: seq<byte>)
    requires 1 <= off <= |out|
    ensures |x| == len
  {
    Lz77.CopyFrom(out, off, len)[|out|..]
  }

  lemma CopiedConcat(out: seq<byte>, off: nat, len: nat)
    requires 1 <= off <= |out|
    ensures Lz77.CopyFrom(out, off, len) == out + Copied(out, off, len)
  {
  }

  /** copy2 and copy3 produce these bytes, whatever the distance. */
  lemma CopiedBytes(out: seq<byte>, off: nat)
    requires 1 <= off <= |out|
    ensures var m := |out| - off;
            && Copied(out, off, 2) == [out[m], if off == 1 then out[m] else out[m + 1]]
            && Copied(out, off, 3)
               == [out[m], if off == 1 then out[m] else out[m + 1], if off <= 2 then out[m] else out[m + 2]]
  {
    var m := |out| - off;
    var a := out + [out[m]];
    var b := a + [a[|a| - off]];
    var c := b + [b[|b| - off]];
    CopyOne(out, off, 1);
    CopyOne(a, off, 0);
    CopyOne(out, off, 2);
    CopyOne(a, off, 1);
    CopyOne(b, off, 0);
    assert b[|out|..] == [out[m], a[|a| - off]];
    assert c[|out|..] == [out[m], a[|a| - off], b[|b| - off]];
  }

  lemma CopyOne(out: seq<byte>, off: nat, n: nat)
    requires 1 <= off <= |out|
    ensures Lz77.CopyFrom(out, off, 0) == out
    ensures Lz77.CopyFrom(out, off, n + 1) == Lz77.CopyFrom(out + [out[|out| - off]], off, n)
  {
  }

  /** A match at the start of the instructions to come that is followed by no literals. */
  ghost predicate PlainMatch(r: seq<Instr>, len: nat) { r != [] && r[0].Copy? && r[0].tail == [] && r[0].len == len }

  /** The match before which literals can be added: the last instruction done. */
  ghost predicate LastCopy(p: seq<Instr>, lit: nat) { p != [] && p[|p| - 1].Copy? && |p[|p| - 1].tail| == lit }

  /** First rewrite for M1 and for M3/M4: between two matches, a short match becomes literals of the match before it. */
  lemma MoreTail(p: seq<Instr>, r: seq<Instr>, out: seq<byte>, data: seq<byte>, lit: nat, len: nat, lean: bool)
    requires Split(p, r, out, data, lean) && PlainMatch(r, len) && LastCopy(p, lit) && lit + len == 3
    requires (|r| > 1 ==> r[1].Copy?)
    requires 1 <= r[0].off <= |out|
    ensures Split(WithTail(p, Copied(out, r[0].off, len)), r[1..], out + Copied(out, r[0].off, len), data, lean)
  {
    hide Lz77.CopyFrom, Stream, WellFormed, Lean, Thrifty, MatchHead, Expand, Copied;
    var n := |p| - 1;
    var p0, c, x := p[..n], p[n], Copied(out, r[0].off, len);
    SplitNext(p, r, out, data, lean);
    CopiedConcat(out, r[0].off, len);
    assert (out + x) + [] == out + x;
    assert p == p0 + [c];
    ExpandFront([], p);
    var d0 := Expand([], p0).value;
    WellFormedSnoc(Start, p0, c);
    var e := c.(tail := c.tail + x);
    assert Sound(c) && Sound(e);
    WellFormedSnoc(Start, p0, e);
    if lean { LeanTail(p0, c, e.tail); }
    ExpandSnoc([], p0, e, d0);
    Assoc(Lz77.CopyFrom(d0, c.off, c.len), c.tail, x);
    RestAllowed(r[1..], AfterMatch, AfterShort);
    assert After(Start, p0 + [e]) == AfterShort;
  }

  /** A match that may follow a match may follow literals too. */
  lemma RestAllowed(r: seq<Instr>, st: State, st': State)
    requires WellFormed(st, r) && st == AfterMatch && st' == AfterShort && (r != [] ==> r[0].Copy?)
    ensures WellFormed(st', r) && (Lean(st, r) ==> Lean(st', r))
  {
    hide MatchHead;
  }

  /** The literals behind a match do not change what its code takes. */
  lemma LeanTail(p: seq<Instr>, c: Instr, tail: seq<byte>)
    requires c.Copy? && Sound(c) && |tail| <= 3 && Lean(Start, p + [c])
    ensures Lean(Start, p + [c.(tail := tail)])
  {
    hide Lean, MatchHead;
    LeanSnoc(Start, p, c);
    LeanSnoc(Start, p, c.(tail := tail));
    HeadLength(c.kind, c.len, c.off, |c.tail|);
    HeadLength(c.kind, c.len, c.off, |tail|);
  }

  lemma LeanRun(p: seq<Instr>, lits: seq<byte>)
    requires Lean(Start, p)
    ensures Lean(Start, p + [Run(lits)])
  {
    hide Lean, MatchHead;
    LeanSnoc(Start, p, Run(lits));
  }

  lemma LeanFront(p: seq<Instr>, i: Instr)
    requires Lean(Start, p + [i])
    ensures Lean(Start, p)
  {
    hide Lean, Thrifty;
    LeanSnoc(Start, p, i);
  }

  /** Second rewrite for M1 and for M3/M4: a short match before a run joins it, together with the literals before the
      match. */
  lemma JoinRun(p: seq<Instr>, r: seq<Instr>, out: seq<byte>, data: seq<byte>, lit: nat, len: nat, lean: bool)
    requires Split(p, r, out, data, lean) && PlainMatch(r, len) && LastCopy(p, lit) && |r| > 1 && r[1].Run?
    requires 1 <= r[0].off <= |out|
    ensures var x, l := Copied(out, r[0].off, len), r[1].lits;
            Split(WithRun(p, x, l), r[2..], (out + x) + l, data, lean)
  {
    hide Lz77.CopyFrom, Stream, WellFormed, Lean, Thrifty, MatchHead, Expand, Copied;
    var n := |p| - 1;
    var p0, c, x, l := p[..n], p[n], Copied(out, r[0].off, len), r[1].lits;
    SplitNext(p, r, out, data, lean);
    CopiedConcat(out, r[0].off, len);
    assert (out + x) + [] == out + x;
    SplitNext(p + [r[0]], r[1..], out + x, data, lean);
    assert r[1..][1..] == r[2..];
    assert p == p0 + [c];
    ExpandFront([], p);
    var d0 := Expand([], p0).value;
    var d1 := Lz77.CopyFrom(d0, c.off, c.len);
    var e, f := c.(tail := []), Run((c.tail + x) + l);
    assert Sound(c) && Sound(e) && Sound(f);
    WellFormedSnoc(Start, p0, c);
    WellFormedSnoc(Start, p0, e);
    WellFormedSnoc(Start, p0 + [e], f);
    if lean {
      LeanTail(p0, c, []);
      LeanRun(p0 + [e], f.lits);
    }
    assert d1 + [] == d1;
    ExpandSnoc([], p0, e, d0);
    ExpandSnoc([], p0 + [e], f, d1);
    Assoc(d1, c.tail, x);
    Assoc(d1, c.tail + x, l);
    assert After(Start, (p0 + [e]) + [f]) == AfterRun;
    assert AllSound((p0 + [e]) + [f]);
  }

  /** Rewrite for M2: a short match between two runs joins them. */
  lemma JoinRuns(p: seq<Instr>, r: seq<Instr>, out: seq<byte>, data: seq<byte>, len: nat, lean: bool)
    requires Split(p, r, out, data, lean) && PlainMatch(r, len) && p != [] && p[|p| - 1].Run? && |r| > 1 && r[1].Run?
    requires 1 <= r[0].off <= |out|
    ensures var x, l := Copied(out, r[0].off, len), r[1].lits;
            Split(WithRuns(p, x, l), r[2..], (out + x) + l, data, lean)
  {
    hide Lz77.CopyFrom, Stream, WellFormed, Lean, Thrifty, MatchHead, Expand, Copied;
    var n := |p| - 1;
    var p0, c, x, l := p[..n], p[n], Copied(out, r[0].off, len), r[1].lits;
    SplitNext(p, r, out, data, lean);
    CopiedConcat(out, r[0].off, len);
    assert (out + x) + [] == out + x;
    SplitNext(p + [r[0]], r[1..], out + x, data, lean);
    assert r[1..][1..] == r[2..];
    assert p == p0 + [c];
    ExpandFront([], p);
    var d0 := Expand([], p0).value;
    var f := Run((c.lits + x) + l);
    assert Sound(c) && Sound(f);
    WellFormedSnoc(Start, p0, c);
    WellFormedSnoc(Start, p0, f);
    if lean {
      LeanFront(p0, c);
      LeanRun(p0, f.lits);
    }
    ExpandSnoc([], p0, f, d0);
    Assoc(d0, c.lits, x);
    Assoc(d0, c.lits + x, l);
    assert After(Start, p0 + [f]) == AfterRun;
  }

  // ---- bytes

  /** `x` written over `s` from `at` on. */
  ghost function Overwrite(s: seq<byte>, at: nat, x: seq<byte>): (t: seq<byte>)
    requires at + |x| <= |s|
    ensures |t| == |s|
  {
    s[..at] + x + s[at + |x|..]
  }

  /** `v` written at `q` and `x` from `at` on. */
  ghost function Spliced(s: seq<byte>, q: int, v: int, at: int, x: seq<byte>): seq<byte> {
    if 0 <= q < |s| && 0 <= v < 256 && 0 <= at && at + |x| <= |s| then Overwrite(s[q := v], at, x) else []
  }

  /** A run of at most 18 literals has one byte in front. */
  lemma ShortRun(lits: seq<byte>)
    requires 4 <= |lits| <= 18
    ensures Sound(Run(lits)) && Bytes(Run(lits)) == [|lits| - 3] + lits
  {
  }

  lemma OverwriteMiddle(a: seq<byte>, m: seq<byte>, rest: seq<byte>, x: seq<byte>)
    requires |m| == |x|
    ensures Overwrite(a + (m + rest), |a|, x) == a + (x + rest)
  {
    var s := a + (m + rest);
    assert s[..|a|] == a && s[|a| + |x|..] == rest;
    Assoc(a, x, rest);
  }

  /** The bytes of the instructions to come start with those of the first. */
  lemma FileFront(r: seq<Instr>)
    requires r != [] && AllSound(r)
    ensures Sound(r[0]) && AllSound(r[1..]) && File(r) == Bytes(r[0]) + File(r[1..])
  {
    hide Bytes, Stream;
    assert Sound(r[0]);
    StreamFront(r);
    Assoc(Bytes(r[0]), Stream(r[1..]), END_MARKER);
  }

  /** The bytes of the instructions done end with those of the last. */
  lemma StreamBack(p: seq<Instr>)
    requires p != [] && AllSound(p)
    ensures Sound(p[|p| - 1]) && AllSound(p[..|p| - 1]) && Stream(p) == Stream(p[..|p| - 1]) + Bytes(p[|p| - 1])
  {
    hide Bytes;
    assert Sound(p[|p| - 1]);
  }

  /** The instructions done after the first rewrite for M1 and for M3/M4. */
  ghost function WithTail(p: seq<Instr>, x: seq<byte>): seq<Instr>
    requires p != [] && p[|p| - 1].Copy?
  {
    p[..|p| - 1] + [p[|p| - 1].(tail := p[|p| - 1].tail + x)]
  }

  /** `s` is the bytes of the instructions done and to come; the former take `e` bytes. */
  ghost predicate Laid(s: seq<byte>, p: seq<Instr>, r: seq<Instr>, e: nat) {
    AllSound(p) && AllSound(r) && s == Stream(p) + File(r) && e == |Stream(p)|
  }

  lemma MoreTailBytes(p: seq<Instr>, r: seq<Instr>, s: seq<byte>, u: seq<byte>, x: seq<byte>, q: int, e: nat)
    requires Laid(s, p, r, e) && LastCopy(p, |u|) && u == p[|p| - 1].tail && |u| + |x| == 3
    requires r != [] && Sound(r[0]) && |Bytes(r[0])| == |x| && q == e - |u| - 2
    ensures 0 <= q && e + |x| <= |s| && s[q] % 4 == |u|
    ensures Laid(Spliced(s, q, s[q] - |u| + 3, e, x), WithTail(p, x), r[1..], e + |x|)
  {
    hide MatchHead, Stream, Overwrite, File, Bytes;
    var n := |p| - 1;
    var p0, c, rest := p[..n], p[n], File(r[1..]);
    FileFront(r);
    StreamBack(p);
    var h := MatchHead(c.kind, c.len, c.off, |u|);
    ThreeAnnounced(c.kind, c.len, c.off, |u|);
    var f := c.(tail := u + x);
    assert Sound(f);
    CopyBytes(c);
    CopyBytes(f);
    StreamSnoc(p0, f);
    TailShuffle(Stream(p0), h, u, Bytes(r[0]), rest, x, h[|h| - 2] - |u| + 3);
  }

  /** The head of the same match with three literals. */
  lemma ThreeAnnounced(k: Kind, len: nat, off: nat, u: nat)
    requires InRange(k, len, off) && u <= 3
    ensures var h := MatchHead(k, len, off, u);
            && |h| >= 2 && h[|h| - 2] % 4 == u && 0 <= h[|h| - 2] - u + 3 < 256
            && h[|h| - 2 := h[|h| - 2] - u + 3] == MatchHead(k, len, off, 3)
  {
    hide MatchHead;
    PatchedHead(k, len, off, u);
    PatchedHead(k, len, off, 3);
    var h0, h, h3 := MatchHead(k, len, off, 0), MatchHead(k, len, off, u), MatchHead(k, len, off, 3);
    assert h[|h| - 2] == h0[|h| - 2] + u;
  }

  lemma TailShuffle(s0: seq<byte>, h: seq<byte>, u: seq<byte>, m: seq<byte>, rest: seq<byte>, x: seq<byte>, v: byte)
    requires |h| >= 2 && |m| == |x|
    ensures var s, q := (s0 + (h + u)) + (m + rest), |s0| + |h| - 2;
            s[q] == h[|h| - 2] && Overwrite(s[q := v], |s0 + (h + u)|, x) == (s0 + (h[|h| - 2 := v] + (u + x))) + rest
  {
    hide Overwrite;
    var g := h[|h| - 2 := v];
    PatchInside(s0, h, u, m + rest, |h| - 2, v);
    OverwriteMiddle(s0 + (g + u), m, rest, x);
    Assoc(s0 + (g + u), x, rest);
    Assoc(s0, g + u, x);
    Assoc(g, u, x);
  }

  /** Changing one byte of the middle part. */
  lemma PatchInside(a: seq<byte>, h: seq<byte>, u: seq<byte>, rest: seq<byte>, k: nat, v: byte)
    requires k < |h|
    ensures var s := (a + (h + u)) + rest;
            |a| + k < |s| && s[|a| + k] == h[k] && s[|a| + k := v] == (a + (h[k := v] + u)) + rest
  {
  }

  /** The instructions done after the second rewrite for M1 and for M3/M4. */
  ghost function WithRun(p: seq<Instr>, x: seq<byte>, l: seq<byte>): seq<Instr>
    requires p != [] && p[|p| - 1].Copy?
  {
    (p[..|p| - 1] + [p[|p| - 1].(tail := [])]) + [Run((p[|p| - 1].tail + x) + l)]
  }

  /** The bytes around a match between literals and a run: `s0` and the head `h` of the match before them, and `m`. */
  ghost predicate Around(p: seq<Instr>, r: seq<Instr>, t: byte, s0: seq<byte>, h: seq<byte>, m: seq<byte>)
    requires p != [] && p[|p| - 1].Copy? && |r| > 1 && r[1].Run? && AllSound(p) && AllSound(r)
  {
    var c, k := p[|p| - 1], |h| - 2;
    && AllSound(r[2..]) && Sound(r[0]) && m == Bytes(r[0])
    && Stream(p) == s0 + (h + c.tail) && File(r) == m + (([t] + r[1].lits) + File(r[2..]))
    && AllSound(p[..|p| - 1]) && s0 == Stream(p[..|p| - 1]) && Sound(c.(tail := []))
    && Cleared(h, k, |c.tail|, Bytes(c.(tail := [])))
  }

  /** `g` is `h` without the number at `k`, which is `n`. */
  ghost predicate Cleared(h: seq<byte>, k: int, n: nat, g: seq<byte>) {
    0 <= k < |h| && h[k] % 4 == n && g == h[k := h[k] - h[k] % 4]
  }

  lemma JoinRunLayout(p: seq<Instr>, r: seq<Instr>, t: nat) returns (s0: seq<byte>, h: seq<byte>, m: seq<byte>)
    requires AllSound(p) && AllSound(r) && p != [] && p[|p| - 1].Copy? && |r| > 1 && r[1].Run? && |r[1].lits| == t + 3
    requires 1 <= t < 16
    ensures Around(p, r, t, s0, h, m)
  {
    hide MatchHead, Stream, File, Bytes;
    var n := |p| - 1;
    var c := p[n];
    FileFront(r);
    FileFront(r[1..]);
    assert r[1..][1..] == r[2..];
    StreamBack(p);
    ShortRun(r[1].lits);
    CopyBytes(c);
    CopyBytes(c.(tail := []));
    s0, h, m := Stream(p[..n]), MatchHead(c.kind, c.len, c.off, |c.tail|), Bytes(r[0]);
    var h0 := MatchHead(c.kind, c.len, c.off, 0);
    PatchedHead(c.kind, c.len, c.off, |c.tail|);
    assert h[|h| - 2] % 4 == |c.tail|;
    assert h[|h| - 2 := h[|h| - 2] - |c.tail|] == h0;
    assert h0 + [] == h0;
  }

  lemma CopyBytes(c: Instr)
    requires c.Copy? && Sound(c)
    ensures Bytes(c) == MatchHead(c.kind, c.len, c.off, |c.tail|) + c.tail
  {
  }

  lemma WithRunBytes(p: seq<Instr>, x: seq<byte>, l: seq<byte>, g: seq<byte>)
    requires AllSound(p) && p != [] && p[|p| - 1].Copy? && Sound(p[|p| - 1].(tail := []))
    requires g == Bytes(p[|p| - 1].(tail := []))
    requires 4 <= |(p[|p| - 1].tail + x) + l| <= 18 && AllSound(p[..|p| - 1])
    ensures AllSound(WithRun(p, x, l))
    ensures Stream(WithRun(p, x, l))
         == (Stream(p[..|p| - 1]) + g) + ([|(p[|p| - 1].tail + x) + l| - 3] + ((p[|p| - 1].tail + x) + l))
  {
    hide MatchHead, Stream;
    var p0, e, f := p[..|p| - 1], p[|p| - 1].(tail := []), Run((p[|p| - 1].tail + x) + l);
    assert Sound(f);
    StreamSnoc(p0, e);
    StreamSnoc(p0 + [e], f);
  }

  /** What stands around a match between literals and a run. */
  lemma JoinRunReads(p: seq<Instr>, r: seq<Instr>, s: seq<byte>, u: seq<byte>, len: nat, t: nat, l: seq<byte>, q: int,
                     e: nat)
    requires AllSound(p) && AllSound(r) && s == Stream(p) + File(r) && LastCopy(p, |u|) && u == p[|p| - 1].tail
    requires |r| > 1 && Sound(r[0]) && |Bytes(r[0])| == len && r[1].Run? && r[1].lits == l && |l| == t + 3 && 1 <= t
    requires |u| + len + t < 16
    requires e == |Stream(p)| && q == e - |u| - 2
    ensures 0 <= q && e + len + 1 + t + 3 <= |s| && s[q] % 4 == |u| && s[e + len] == t
    ensures s[q + 2..e] == u && s[e + len + 1..e + len + 1 + t + 3] == l
  {
    hide MatchHead, Stream, Overwrite, File, Bytes;
    var s0, h, m := JoinRunLayout(p, r, t);
    RunShuffle(s0, h, u, m, t, l, File(r[2..]), m, 0, 0);
  }

  lemma JoinRunBytes(p: seq<Instr>, r: seq<Instr>, s: seq<byte>, u: seq<byte>, len: nat, x: seq<byte>, t: nat,
                     l: seq<byte>, q: int, e: nat)
    requires Laid(s, p, r, e) && LastCopy(p, |u|) && u == p[|p| - 1].tail
    requires |r| > 1 && Sound(r[0]) && |Bytes(r[0])| == len && r[1].Run? && r[1].lits == l && |l| == t + 3 && 1 <= t
    requires |u| + len + t < 16 && q == e - |u| - 2 && |x| == len && 0 <= q < |s|
    ensures Laid(Spliced(s, q, s[q] - |u|, q + 2, ([|u| + len + t] + u) + x), WithRun(p, x, l), r[2..], e + len +
            1 + t + 3)
  {
    hide MatchHead, Stream, Overwrite, File, WithRun, Bytes;
    var s0, h, m := JoinRunLayout(p, r, t);
    RunShuffle(s0, h, u, m, t, l, File(r[2..]), x, h[|h| - 2] - |u|, |u| + len + t);
    assert AllSound(p[..|p| - 1]);
    WithRunBytes(p, x, l, h[|h| - 2 := h[|h| - 2] - |u|]);
  }

  /** The literals of a match and of the run behind the next one, with the bytes between them put together. */
  lemma Regrouped(a: seq<byte>, g: seq<byte>, u: seq<byte>, m: seq<byte>, t: byte, l: seq<byte>, rest: seq<byte>)
    ensures (a + (g + u)) + (m + (([t] + l) + rest)) == (a + g) + (((u + m) + [t]) + (l + rest))
  {
    var b, c := [t] + l, l + rest;
    Assoc(a, g, u);
    Assoc(a + g, u, m + (b + rest));
    Assoc(u, m, b + rest);
    Assoc([t], l, rest);
    Assoc(u + m, [t], c);
  }

  lemma JoinedRun(w: byte, u: seq<byte>, x: seq<byte>, l: seq<byte>, rest: seq<byte>)
    ensures (([w] + u) + x) + (l + rest) == ([w] + ((u + x) + l)) + rest
  {
    Assoc([w], u, x);
    Assoc([w] + (u + x), l, rest);
    Assoc([w], u + x, l);
  }

  lemma RunSlices(a: seq<byte>, h: seq<byte>, u: seq<byte>, m: seq<byte>, t: byte, l: seq<byte>, rest: seq<byte>)
    requires |h| >= 2
    ensures var s, q, e := (a + (h + u)) + (m + (([t] + l) + rest)), |a| + |h| - 2, |a| + |h| + |u|;
            && e + |m| + 1 + |l| <= |s| && s[q + 2..e] == u && s[e + |m|] == t
            && s[e + |m| + 1..e + |m| + 1 + |l|] == l
  {
    var s, q, e := (a + (h + u)) + (m + (([t] + l) + rest)), |a| + |h| - 2, |a| + |h| + |u|;
    forall i | 0 <= i < |u| ensures s[q + 2..e][i] == u[i] { assert s[q + 2 + i] == (h + u)[|h| + i]; }
    assert s[q + 2..e] == u;
    var n := e + |m| + 1;
    forall i | 0 <= i < |l| ensures s[n..n + |l|][i] == l[i] { assert s[n + i] == (([t] + l) + rest)[1 + i]; }
    assert s[n..n + |l|] == l;
  }

  lemma RunShuffle(s0: seq<byte>, h: seq<byte>, u: seq<byte>, m: seq<byte>, t: byte, l: seq<byte>, rest: seq<byte>,
                   x: seq<byte>, v: byte, w: byte)
    requires |h| >= 2 && |m| == |x|
    ensures var s, q, e := (s0 + (h + u)) + (m + (([t] + l) + rest)), |s0| + |h| - 2, |s0| + |h| + |u|;
            && s[q] == h[|h| - 2] && s[q + 2..e] == u && s[e + |m|] == t && s[e + |m| + 1..e + |m| + 1 + |l|] == l
            && Overwrite(s[q := v], q + 2, ([w] + u) + x) == ((s0 + h[|h| - 2 := v]) + ([w] + ((u + x) + l))) + rest
  {
    hide Overwrite;
    var g := h[|h| - 2 := v];
    RunSlices(s0, h, u, m, t, l, rest);
    PatchInside(s0, h, u, m + (([t] + l) + rest), |h| - 2, v);
    Regrouped(s0, g, u, m, t, l, rest);
    OverwriteMiddle(s0 + g, (u + m) + [t], l + rest, ([w] + u) + x);
    JoinedRun(w, u, x, l, rest);
    Assoc(s0 + g, [w] + ((u + x) + l), rest);
  }

  /** The instructions done after the rewrite for M2. */
  ghost function WithRuns(p: seq<Instr>, x: seq<byte>, l: seq<byte>): seq<Instr>
    requires p != [] && p[|p| - 1].Run?
  {
    p[..|p| - 1] + [Run((p[|p| - 1].lits + x) + l)]
  }

  lemma JoinRunsLayout(p: seq<Instr>, r: seq<Instr>, x: seq<byte>, t: nat)
    returns (s0: seq<byte>, h: byte, m: seq<byte>)
    requires AllSound(p) && AllSound(r) && p != [] && p[|p| - 1].Run? && |r| > 1 && r[1].Run? && |r[1].lits| == t + 3
    requires 1 <= t && Sound(r[0])
    requires |p[|p| - 1].lits| + |x| + t < 16
    ensures AllSound(r[2..]) && m == Bytes(r[0])
    ensures Stream(p) == s0 + ([h] + p[|p| - 1].lits) && File(r) == m + (([t] + r[1].lits) + File(r[2..]))
    ensures AllSound(WithRuns(p, x, r[1].lits))
    ensures Stream(WithRuns(p, x, r[1].lits))
            == s0 + ([|p[|p| - 1].lits| + |x| + t] + ((p[|p| - 1].lits + x) + r[1].lits))
  {
    hide Stream, File, Bytes;
    var c, l := p[|p| - 1], r[1].lits;
    assert Sound(c);
    FileFront(r);
    FileFront(r[1..]);
    assert r[1..][1..] == r[2..];
    StreamBack(p);
    s0, h, m := Stream(p[..|p| - 1]), |c.lits| - 3, Bytes(r[0]);
    ShortRun(c.lits);
    ShortRun(l);
    ShortRun((c.lits + x) + l);
    StreamSnoc(p[..|p| - 1], Run((c.lits + x) + l));
  }

  lemma JoinRunsBytes(p: seq<Instr>, r: seq<Instr>, s: seq<byte>, u: seq<byte>, x: seq<byte>, t: nat, l: seq<byte>,
                      q: int, e: nat)
    requires Laid(s, p, r, e) && p != [] && p[|p| - 1].Run? && p[|p| - 1].lits == u
    requires |r| > 1 && Sound(r[0]) && |Bytes(r[0])| + 1 == |x| && r[1].Run? && r[1].lits == l && |l| == t + 3 && 1 <= t
    requires |u| + |x| + t < 16 && q == e - |u| - 1
    ensures 0 <= q && e + |x| + t + 3 <= |s| && s[e + |x| - 1] == t && s[e + |x|..e + |x| + t + 3] == l
    ensures Laid(Spliced(s, q, |u| + |x| + t, e, x), WithRuns(p, x, l), r[2..], e + |x| + t + 3)
  {
    hide MatchHead, Stream, Overwrite, File, WithRuns, Bytes;
    var s0, h, m := JoinRunsLayout(p, r, x, t);
    RunsShuffle(s0, h, u, m, t, l, File(r[2..]), x, |u| + |x| + t);
    BehindMatch(s0 + ([h] + u), m, t, l, File(r[2..]));
  }

  lemma BehindMatch(a: seq<byte>, m: seq<byte>, t: byte, l: seq<byte>, rest: seq<byte>)
    ensures var s, n := a + (m + (([t] + l) + rest)), |a| + |m|;
            n + 1 + |l| <= |s| && s[n] == t && s[n + 1..n + 1 + |l|] == l
  {
    var s, n := a + (m + (([t] + l) + rest)), |a| + |m| + 1;
    forall i | 0 <= i < |l| ensures s[n..n + |l|][i] == l[i] { assert s[n + i] == (([t] + l) + rest)[1 + i]; }
  }

  lemma RunsShuffle(s0: seq<byte>, h: byte, u: seq<byte>, m: seq<byte>, t: byte, l: seq<byte>, rest: seq<byte>,
                    x: seq<byte>, w: byte)
    requires |m| + 1 == |x|
    ensures var s := (s0 + ([h] + u)) + (m + (([t] + l) + rest));
            Overwrite(s[|s0| := w], |s0| + 1 + |u|, x) == (s0 + ([w] + ((u + x) + l))) + rest
  {
    hide Overwrite;
    var g, k := [w] + u, l + rest;
    PatchInside(s0, [h], u, m + (([t] + l) + rest), 0, w);
    assert [h][0 := w] == [w];
    Assoc([t], l, rest);
    Assoc(m, [t], k);
    OverwriteMiddle(s0 + g, m + [t], k, x);
    Assoc(s0, g, x + k);
    Assoc(g, x, k);
    JoinedRun(w, u, x, l, rest);
    Assoc(s0, [w] + ((u + x) + l), rest);
  }

  // ---- the whole pass

  /** How many literals stand at the end of the instructions done; not known of those at the very start. */
  ghost function LitsBefore(p: seq<Instr>): Option<nat> {
    if p == [] then None
    else
      match p[|p| - 1]
      case First(_) => None
      case Run(lits) => Some(|lits|)
      case Copy(_, _, _, tail) => Some(|tail|)
  }

  /** A match, or the end, follows the next instruction. */
  ghost predicate MatchFollows(r: seq<Instr>) { |r| == 1 || (|r| > 1 && r[1].Copy?) }

  /** The head of the run that follows the next instruction; zero if there is none or it is long. */
  ghost function RunFollows(r: seq<Instr>): nat {
    if |r| > 1 && r[1].Run? && 4 <= |r[1].lits| <= 18 then |r[1].lits| - 3 else 0
  }

  /** What becomes of the next instruction: it stays, it becomes literals of the match before it, it joins the run
      behind it, or it joins both runs around it. */
  datatype Rule = Keep | Shorten | JoinNext | JoinBoth

  /** After a run, an M2 match of three bytes may join it to the next run; after a match, an M1 match, or another one of
      three bytes that is not M2, may become literals. A run has at most 18 literals then. */
  ghost function RuleFor(p: seq<Instr>, r: seq<Instr>): (rule: Rule)
    requires r != []
    ensures rule != Keep ==> p != [] && r[0].Copy?
    ensures rule == Shorten || rule == JoinNext ==> p[|p| - 1].Copy?
    ensures rule == JoinBoth ==> p[|p| - 1].Run?
    ensures rule == JoinNext || rule == JoinBoth ==> |r| > 1 && r[1].Run?
  {
    if !(r[0].Copy? && r[0].tail == [] && LitsBefore(p).Some?) then Keep
    else
      var lit, t, len, kind := LitsBefore(p).value, RunFollows(r), r[0].len, r[0].kind;
      if p[|p| - 1].Run? then if kind == M2 && len == 3 && 0 < t && lit + 3 + t < 16 then JoinBoth else Keep
      else if kind == M1 then
        if lit == 1 && MatchFollows(r) then Shorten else if 0 < t && lit + 2 + t < 16 then JoinNext else Keep
      else if (kind == M3 || kind == M4) && len == 3 then
        if lit == 0 && MatchFollows(r) then Shorten else if 0 < t && lit + 3 + t < 16 then JoinNext else Keep
      else Keep
  }

  ghost function OutputOf(p: seq<Instr>): seq<byte> { if Expand([], p).Some? then Expand([], p).value else [] }

  /** The instructions after the pass, of which `p` are done and `r` to come. */
  ghost function Rewrite(p: seq<Instr>, r: seq<Instr>): seq<Instr>
    decreases |r|
  {
    if r == [] then p
    else
      var out, rule := OutputOf(p), RuleFor(p, r);
      if rule == Keep || !(1 <= r[0].off <= |out|) then Rewrite(p + [r[0]], r[1..])
      else
        var x := Copied(out, r[0].off, r[0].len);
        match rule
        case Shorten => Rewrite(WithTail(p, x), r[1..])
        case JoinNext => Rewrite(WithRun(p, x, r[1].lits), r[2..])
        case JoinBoth => Rewrite(WithRuns(p, x, r[1].lits), r[2..])
  }

  /** The whole pass. */
  ghost function Pass(ins: seq<Instr>): seq<Instr> {
    if ins != [] && ins[0].First? then Rewrite([ins[0]], ins[1..]) else Rewrite([], ins)
  }

  lemma RuleKeep(p: seq<Instr>, r: seq<Instr>)
    requires r != [] && RuleFor(p, r) == Keep
    ensures Rewrite(p, r) == Rewrite(p + [r[0]], r[1..])
  {
    hide RuleFor, Copied, Expand;
  }

  /** What a rewrite makes of the instructions. */
  lemma RuleApplies(p: seq<Instr>, r: seq<Instr>, out: seq<byte>)
    requires r != [] && RuleFor(p, r) != Keep && Expand([], p) == Some(out) && 1 <= r[0].off <= |out|
    ensures var x := Copied(out, r[0].off, r[0].len);
            Rewrite(p, r) ==
            match RuleFor(p, r)
            case Shorten => Rewrite(WithTail(p, x), r[1..])
            case JoinNext => Rewrite(WithRun(p, x, r[1].lits), r[2..])
            case JoinBoth => Rewrite(WithRuns(p, x, r[1].lits), r[2..])
  {
    hide RuleFor, Copied, Expand, WithTail, WithRun, WithRuns;
  }

  /** Between two matches, or before the end, an M1 match behind one literal, or an M3 or M4 match of three bytes behind
      none, becomes literals of the match before it. */
  lemma BecomesLiterals(p: seq<Instr>, c: Instr, i: Instr, rest: seq<Instr>, out: seq<byte>)
    requires c.Copy? && i.Copy? && i.tail == [] && (rest == [] || rest[0].Copy?)
    requires (i.kind == M1 && i.len == 2 && |c.tail| == 1) || (i.kind in {M3, M4} && i.len == 3 && c.tail == [])
    requires Expand([], p + [c]) == Some(out) && 1 <= i.off <= |out|
    ensures Rewrite(p + [c], [i] + rest)
         == Rewrite(p + [Copy(c.kind, c.len, c.off, c.tail + Copied(out, i.off, i.len))], rest)
  {
    hide Rewrite, Expand, Copied;
    var q, r := p + [c], [i] + rest;
    assert q[|q| - 1] == c && q[..|q| - 1] == p && r[1..] == rest;
    assert rest != [] ==> r[1] == rest[0];
    RuleApplies(q, r, out);
  }

  /** Before a short run an M1 match, or an M3 or M4 match of three bytes, joins it together with the literals before
      it, as long as the new run is short. */
  lemma JoinsRun(p: seq<Instr>, c: Instr, i: Instr, l: seq<byte>, rest: seq<Instr>, out: seq<byte>)
    requires c.Copy? && i.Copy? && i.tail == [] && 4 <= |l| && |c.tail| + i.len + |l| < 19
    requires (i.kind == M1 && i.len == 2) || (i.kind in {M3, M4} && i.len == 3)
    requires Expand([], p + [c]) == Some(out) && 1 <= i.off <= |out|
    ensures Rewrite(p + [c], [i, Run(l)] + rest)
         == Rewrite(p + [Copy(c.kind, c.len, c.off, []), Run((c.tail + Copied(out, i.off, i.len)) + l)], rest)
  {
    hide Rewrite, Expand, Copied;
    var q, r := p + [c], [i, Run(l)] + rest;
    assert q[|q| - 1] == c && q[..|q| - 1] == p && r[2..] == rest && r[1] == Run(l);
    RuleApplies(q, r, out);
    var e, f := Copy(c.kind, c.len, c.off, []), Run((c.tail + Copied(out, i.off, i.len)) + l);
    assert (p + [e]) + [f] == p + [e, f];
  }

  /** An M2 match of three bytes between short runs joins them, as long as the new run is short. */
  lemma JoinsRuns(p: seq<Instr>, u: seq<byte>, off: nat, l: seq<byte>, rest: seq<Instr>, out: seq<byte>)
    requires 4 <= |l| && |u| + 3 + |l| < 19 && Expand([], p + [Run(u)]) == Some(out) && 1 <= off <= |out|
    ensures Rewrite(p + [Run(u)], [Copy(M2, 3, off, []), Run(l)] + rest)
         == Rewrite(p + [Run((u + Copied(out, off, 3)) + l)], rest)
  {
    hide Rewrite, Expand, Copied;
    var q, r := p + [Run(u)], [Copy(M2, 3, off, []), Run(l)] + rest;
    assert q[|q| - 1] == Run(u) && q[..|q| - 1] == p && r[2..] == rest && r[1] == Run(l);
    RuleApplies(q, r, out);
  }

  /** Literals, matches with literals behind them and longer matches stay. */
  lemma Stays(p: seq<Instr>, i: Instr, rest: seq<Instr>)
    requires i.Copy? ==> i.tail != [] || i.kind == MX || (i.kind != M1 && i.len > 3)
    ensures Rewrite(p, [i] + rest) == Rewrite(p + [i], rest)
  {
    hide Rewrite;
    assert ([i] + rest)[1..] == rest;
    RuleKeep(p, [i] + rest);
  }

  /** The pass never makes more instructions. */
  lemma {:induction false} RewriteShrinks(p: seq<Instr>, r: seq<Instr>)
    ensures |Rewrite(p, r)| <= |p| + |r|
    decreases |r|
  {
    hide Expand, Copied, RuleFor;
    if r != [] {
      var out, rule := OutputOf(p), RuleFor(p, r);
      if rule == Keep || !(1 <= r[0].off <= |out|) {
        RewriteShrinks(p + [r[0]], r[1..]);
      } else {
        var x := Copied(out, r[0].off, r[0].len);
        match rule
        case Shorten => RewriteShrinks(WithTail(p, x), r[1..]);
        case JoinNext => RewriteShrinks(WithRun(p, x, r[1].lits), r[2..]);
        case JoinBoth => RewriteShrinks(WithRuns(p, x, r[1].lits), r[2..]);
      }
    }
  }

  /** Two runs of four literals with a match of three bytes between them become one run of eleven. */
  lemma PassSample()
    ensures Pass([Run([97, 98, 99, 100]), Copy(M2, 3, 4, []), Run([101, 102, 103, 104])])
         == [Run([97, 98, 99, 100, 97, 98, 99, 101, 102, 103, 104])]
  {
    hide Rewrite, Expand, Copied;
    var u: seq<byte>, l: seq<byte> := [97, 98, 99, 100], [101, 102, 103, 104];
    var m, x := [Copy(M2, 3, 4, []), Run(l)], Copied(u, 4, 3);
    assert [Run(u), Copy(M2, 3, 4, []), Run(l)] == [Run(u)] + m && m + [] == m;
    NothingBefore(Run(u));
    NothingBefore(Run((u + x) + l));
    Stays([], Run(u), m);
    OneRun(u);
    JoinsRuns([], u, 4, l, [], u);
    CopiedBytes(u, 4);
    assert x == [97, 98, 99];
    assert (u + x) + l == [97, 98, 99, 100, 97, 98, 99, 101, 102, 103, 104];
    RewriteDone([Run((u + x) + l)]);
  }

  lemma NothingBefore(i: Instr)
    ensures [] + [i] == [i]
  {
  }

  lemma OneRun(u: seq<byte>)
    ensures Expand([], [Run(u)]) == Some(u)
  {
    assert [Run(u)][1..] == [] && [] + u == u;
  }

  lemma RewriteDone(p: seq<Instr>)
    ensures Rewrite(p, []) == p
  {
  }
}
