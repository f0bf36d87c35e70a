/** ct_init of gzip.c: the tables from lengths and distances to codes, and the trees of the fixed codes. */
module StaticTables {
  import opened Bits
  import opened Canonical
  import opened DeflateTables
  import opened Inflate
  import opened BlockFormat
  import opened HuffmanBuild
  import opened HuffmanTrees

  /** What ct_init computes for lengths (less the minimum length) and distances (less one). */
  datatype Tables = Tables(lengthCode: seq<nat>, baseLength: seq<nat>, distCode: seq<nat>, baseDist: seq<nat>)

  /** The distance code of a distance less one. */
  function DCode(t: Tables, dist: nat): nat
    requires |t.distCode| == 512 && dist < 32768
  {
    if dist < 256 then t.distCode[dist] else t.distCode[256 + dist / 128]
  }

  /** The code of a length less the minimum length. */
  function NormalLengthCode(l: nat): nat { LengthCode(l + MIN_MATCH) }

  /** The code of a distance less one. */
  function NormalDistCode(d: nat): nat { DistCode(d + 1) }

  /** The tables agree with the codes of the format. */
  ghost predicate Correct(t: Tables) {
    && |t.lengthCode| == 256 && |t.baseLength| == LENGTH_CODES && |t.distCode| == 512 && |t.baseDist| == D_CODES
    && (forall l :: 0 <= l < 256 ==> t.lengthCode[l] == NormalLengthCode(l))
    && (forall d :: 0 <= d < 32768 ==> DCode(t, d) == NormalDistCode(d))
    && (forall c :: 0 <= c < LENGTH_CODES && EXTRA_LBITS[c] > 0 ==> t.baseLength[c] + MIN_MATCH == LENGTH_BASE[c])
    && (forall c :: 0 <= c < D_CODES ==> t.baseDist[c] + 1 == DIST_BASE[c])
  }

  lemma {:induction false} Increasing(c: nat, d: nat)
    requires c <= d < D_CODES
    ensures DIST_BASE[c] <= DIST_BASE[d]
    ensures d < LENGTH_CODES ==> LENGTH_BASE[c] <= LENGTH_BASE[d]
    decreases d - c
  {
    if c < d {
      DistTiles(c);
      if c < 27 { LengthTiles(c); }
      Increasing(c + 1, d);
    }
  }

  /** The code whose range holds `v` is the largest one with a base up to `v`. */
  lemma {:induction false} CodeForAt(base: seq<nat>, v: nat, c: nat, top: nat)
    requires c <= top < |base| && base[c] <= v && forall d :: c < d <= top ==> v < base[d]
    ensures CodeFor(base, v, top) == c
    decreases top
  {
    if c < top { CodeForAt(base, v, c, top - 1); }
  }

  lemma LengthCodeIs(l: nat, c: nat)
    requires c < 28 && LENGTH_BASE[c] <= l < LENGTH_BASE[c] + Pow2(EXTRA_LBITS[c]) && l < 258
    ensures LengthCode(l) == c
  {
    hide Pow2;
    if c < 27 { LengthTiles(c); }
    forall d | c < d <= 28 ensures l < LENGTH_BASE[d] { if c < 27 { Increasing(c + 1, d); } }
    CodeForAt(LENGTH_BASE, l, c, 28);
  }

  lemma DistCodeIs(d: nat, c: nat)
    requires c < D_CODES && DIST_BASE[c] <= d < DIST_BASE[c] + Pow2(EXTRA_DBITS[c])
    ensures DistCode(d) == c
  {
    hide Pow2;
    if c < 29 { DistTiles(c); }
    forall e | c < e <= 29 ensures d < DIST_BASE[e] { Increasing(c + 1, e); }
    CodeForAt(DIST_BASE, d, c, 29);
  }

  lemma LengthRange(c: nat)
    requires c < 28
    ensures LENGTH_BASE[c] + Pow2(EXTRA_LBITS[c]) <= 259
    ensures c == 27 ==> LENGTH_BASE[c] + Pow2(EXTRA_LBITS[c]) == 259
    ensures c < 27 ==>
            LENGTH_BASE[c] + Pow2(EXTRA_LBITS[c]) <= 258 && LENGTH_BASE[c + 1] == LENGTH_BASE[c] + Pow2(EXTRA_LBITS[c])
  {
    assert Pow2(5) == 32;
    if c < 27 { LengthTiles(c); Increasing(c + 1, 27); }
  }

  /** Gives `size` table entries from `from` on the code `code`. */
  method FillCodes(table: array<nat>, from: nat, size: nat, code: nat) returns (end: nat)
    requires from + size <= table.Length
    modifies table
    ensures end == from + size
    ensures forall i :: 0 <= i < table.Length ==> table[i] == if from <= i < end then code else old(table[i])
  {
    end := from;
    for n := 0 to size
      invariant end == from + n
      invariant forall i :: 0 <= i < table.Length ==> table[i] == if from <= i < end then code else old(table[i])
    {
      table[end] := code;
      end := end + 1;
    }
  }

  lemma LengthStretch(c: nat)
    requires c < 28
    ensures LENGTH_BASE[c] >= 3
    ensures forall l: nat :: LENGTH_BASE[c] <= l + 3 < LENGTH_BASE[c] + Pow2(EXTRA_LBITS[c]) && l < 255 ==>
            NormalLengthCode(l) == c
  {
    hide Pow2, LengthCode;
    Increasing(0, c);
    forall l: nat | LENGTH_BASE[c] <= l + 3 < LENGTH_BASE[c] + Pow2(EXTRA_LBITS[c]) && l < 255
      ensures NormalLengthCode(l) == c
    {
      LengthCodeIs(l + 3, c);
    }
  }

  lemma DistStretch(c: nat)
    requires c < D_CODES
    ensures DIST_BASE[c] >= 1
    ensures forall d: nat :: DIST_BASE[c] <= d + 1 < DIST_BASE[c] + Pow2(EXTRA_DBITS[c]) ==> NormalDistCode(d) == c
  {
    hide Pow2, DistCode;
    Increasing(0, c);
    forall d: nat | DIST_BASE[c] <= d + 1 < DIST_BASE[c] + Pow2(EXTRA_DBITS[c]) ensures NormalDistCode(d) == c {
      DistCodeIs(d + 1, c);
    }
  }

  lemma GroupStretch(c: nat)
    requires 16 <= c < D_CODES
    ensures forall d: nat :: DIST_BASE[c] <= 128 * (d / 128) + 1 < DIST_BASE[c] + Pow2(EXTRA_DBITS[c]) ==>
            NormalDistCode(d) == c
  {
    hide Pow2, DistCode;
    forall d: nat | DIST_BASE[c] <= 128 * (d / 128) + 1 < DIST_BASE[c] + Pow2(EXTRA_DBITS[c])
      ensures NormalDistCode(d) == c
    {
      GroupCode(d / 128, d, c);
    }
  }

  /** The mapping from lengths to length codes. */
  method InitLengths() returns (lengthCode: array<nat>, baseLength: array<nat>)
    ensures lengthCode.Length == 256 && baseLength.Length == LENGTH_CODES && fresh(lengthCode) && fresh(baseLength)
    ensures forall l :: 0 <= l < 256 ==> lengthCode[l] == NormalLengthCode(l)
    ensures forall c :: 0 <= c < LENGTH_CODES && EXTRA_LBITS[c] > 0 ==> baseLength[c] + MIN_MATCH == LENGTH_BASE[c]
  {
    hide LengthCode;
    lengthCode := new nat[256](_ => 0);
    baseLength := new nat[LENGTH_CODES](_ => 0);
    var length: nat := InitLengthCodes(lengthCode, baseLength);
    LongestCode();
    lengthCode[length - 1] := LENGTH_CODES - 1;
  }

  /** All length codes but the last. */
  method InitLengthCodes(lengthCode: array<nat>, baseLength: array<nat>) returns (length: nat)
    requires lengthCode.Length == 256 && baseLength.Length == LENGTH_CODES && lengthCode != baseLength
    modifies lengthCode, baseLength
    ensures length == 256 && forall l :: 0 <= l < 255 ==> lengthCode[l] == NormalLengthCode(l)
    ensures forall c :: 0 <= c < 28 ==> baseLength[c] + 3 == LENGTH_BASE[c]
  {
    hide Pow2, LengthCode;
    length := 0;
    for code := 0 to LENGTH_CODES - 1
      invariant length + 3 == if code < 28 then LENGTH_BASE[code] else 259
      invariant forall l :: 0 <= l < length && l < 255 ==> lengthCode[l] == NormalLengthCode(l)
      invariant forall c :: 0 <= c < code ==> baseLength[c] + 3 == LENGTH_BASE[c]
    {
      LengthRange(code);
      LengthStretch(code);
      baseLength[code] := length;
      length := FillCodes(lengthCode, length, Pow2(EXTRA_LBITS[code]), code);
    }
  }

  lemma LongestCode()
    ensures LengthCode(258) == 28
  {
  }

  lemma DistRange(c: nat)
    requires c < D_CODES
    ensures DIST_BASE[c] + Pow2(EXTRA_DBITS[c]) == if c < 29 then DIST_BASE[c + 1] else 32769
    ensures c < 16 ==> DIST_BASE[c] + Pow2(EXTRA_DBITS[c]) <= 257
    ensures DIST_BASE[c] + Pow2(EXTRA_DBITS[c]) <= 32769
  {
    if c < 29 { DistTiles(c); Increasing(c + 1, 29); } else { assert Pow2(13) == 8192; }
    if c < 16 { Increasing(c + 1, 16); }
    Increasing(29, 29);
  }

  /** From code 16 on, a code's distances come in whole groups of 128. */
  lemma DistGroups(c: nat)
    requires 16 <= c < D_CODES
    ensures EXTRA_DBITS[c] >= 7 && Pow2(EXTRA_DBITS[c]) == 128 * Pow2(EXTRA_DBITS[c] - 7)
    ensures (DIST_BASE[c] - 1) % 128 == 0
  {
    assert Pow2(5) == 32 && Pow2(7) == 128;
    if c < 20 {} else if c < 24 {} else if c < 28 { assert Pow2(12) == 128 * Pow2(5); }
      else { assert Pow2(13) == 128 * Pow2(6); }
  }

  lemma GroupCode(i: nat, d: nat, c: nat)
    requires 16 <= c < D_CODES && d / 128 == i && DIST_BASE[c] <= 128 * i + 1 < DIST_BASE[c] + Pow2(EXTRA_DBITS[c])
    ensures NormalDistCode(d) == c
  {
    hide Pow2;
    DistGroups(c);
    DistCodeIs(d + 1, c);
  }

  /** The mapping from distances up to 256 to distance codes. */
  method InitNearDistances(distCode: array<nat>, baseDist: array<nat>)
    requires distCode.Length == 512 && baseDist.Length == D_CODES && distCode != baseDist
    modifies distCode, baseDist
    ensures forall d :: 0 <= d < 256 ==> distCode[d] == NormalDistCode(d)
    ensures forall c :: 0 <= c < 16 ==> baseDist[c] + 1 == DIST_BASE[c]
  {
    hide Pow2, DistCode;
    var dist := 0;
    for code := 0 to 16
      invariant dist + 1 == DIST_BASE[code] && dist <= 256
      invariant forall d :: 0 <= d < dist ==> distCode[d] == NormalDistCode(d)
      invariant forall c :: 0 <= c < code ==> baseDist[c] + 1 == DIST_BASE[c]
    {
      DistRange(code);
      DistStretch(code);
      baseDist[code] := dist;
      dist := FillCodes(distCode, dist, Pow2(EXTRA_DBITS[code]), code);
    }
  }

  /** The mapping from groups of 128 distances to distance codes. */
  method InitFarDistances(distCode: array<nat>, baseDist: array<nat>)
    requires distCode.Length == 512 && baseDist.Length == D_CODES && distCode != baseDist
    modifies distCode, baseDist
    ensures forall d :: 0 <= d < 256 ==> distCode[d] == old(distCode[d])
    ensures forall d :: 256 <= d < 32768 ==> distCode[256 + d / 128] == NormalDistCode(d)
    ensures forall c :: 0 <= c < 16 ==> baseDist[c] == old(baseDist[c])
    ensures forall c :: 16 <= c < D_CODES ==> baseDist[c] + 1 == DIST_BASE[c]
  {
    hide Pow2, DistCode;
    var dist := 2;
    for code := 16 to D_CODES
      invariant 128 * dist + 1 == if code < D_CODES then DIST_BASE[code] else 32769
      invariant forall d :: 0 <= d < 256 ==> distCode[d] == old(distCode[d])
      invariant forall d: nat :: 256 <= d && d / 128 < dist ==> distCode[256 + d / 128] == NormalDistCode(d)
      invariant forall c :: 0 <= c < 16 ==> baseDist[c] == old(baseDist[c])
      invariant forall c :: 16 <= c < code ==> baseDist[c] + 1 == DIST_BASE[c]
      invariant 2 <= dist <= 256
    {
      DistRange(code);
      DistGroups(code);
      GroupStretch(code);
      baseDist[code] := 128 * dist;
      var end := FillCodes(distCode, 256 + dist, Pow2(EXTRA_DBITS[code] - 7), code);
      dist := end - 256;
    }
  }

  method InitTables() returns (t: Tables)
    ensures Correct(t)
  {
    hide LengthCode, DistCode;
    var lengthCode, baseLength := InitLengths();
    var distCode, baseDist := new nat[512](_ => 0), new nat[D_CODES](_ => 0);
    InitNearDistances(distCode, baseDist);
    InitFarDistances(distCode, baseDist);
    t := Tables(lengthCode[..], baseLength[..], distCode[..], baseDist[..]);
  }

  /** Gives the codes from `from` on, up to `end`, the length `l`. */
  method FillStretch(t: CtData, bl: array<nat>, from: nat, end: nat, l: nat)
    requires from <= end <= t.len.Length && bl != t.len && l < bl.Length
    modifies t.len, bl
    ensures forall n :: 0 <= n < t.len.Length ==> t.len[n] == if from <= n < end then l else old(t.len[n])
    ensures forall b :: 0 <= b < bl.Length ==> bl[b] == old(bl[b]) + if b == l then end - from else 0
  {
    var n := from;
    while n < end
      invariant from <= n <= end
      invariant forall k :: 0 <= k < t.len.Length ==> t.len[k] == if from <= k < n then l else old(t.len[k])
      invariant forall b :: 0 <= b < bl.Length ==> bl[b] == old(bl[b]) + if b == l then n - from else 0
    {
      t.len[n] := l;
      n := n + 1;
      bl[l] := bl[l] + 1;
    }
  }

  /** The tree of the fixed literal/length code. */
  method InitStaticLiterals(t: CtData, bl: array<nat>)
    requires t.Apart() && t.len.Length == t.code.Length == L_CODES + 2 && bl.Length == 16 && bl != t.len && bl != t.code
    requires forall b :: 0 <= b < 16 ==> bl[b] == 0
    modifies t.len, t.code, bl
    ensures t.len[..] == FixedLengths() && Coded(FixedLengths(), t.code[..])
  {
    hide Count, NotOversubscribed, Coded;
    FillStretch(t, bl, 0, 144, 8);
    FillStretch(t, bl, 144, 256, 9);
    FillStretch(t, bl, 256, 280, 7);
    FillStretch(t, bl, 280, 288, 8);
    assert t.len[..] == FixedLengths();
    assert t.len[..L_CODES + 2] == t.len[..];
    forall b: nat
      ensures Count(FixedLengths(), b) == if b == 7 then 24 else if b == 8 then 152 else if b == 9 then 112 else 0
    {
      FixedCounts(b);
    }
    FixedLengthsFit();
    GenCodes(t, bl, L_CODES + 1, 9);
  }

  /** The tree of the fixed distance code. */
  method InitStaticDistances(t: CtData)
    requires t.Apart() && t.len.Length == t.code.Length == D_CODES
    modifies t.len, t.code
    ensures t.len[..] == FixedDistances() && Coded(FixedDistances(), t.code[..])
  {
    hide CodeBits, Lsb, Msb, Pow2;
    for n := 0 to D_CODES
      invariant forall k :: 0 <= k < n ==>
                t.len[k] == 5 && t.code[k] < Pow2(5) && Lsb(t.code[k], 5) == CodeBits(FixedDistances(), k)
    {
      t.len[n] := 5;
      FixedDistanceCode(n);
      FiveBits(n);
      t.code[n] := BiReverse(n, 5);
    }
  }

  lemma FiveBits(n: nat)
    requires n < D_CODES
    ensures n < Pow2(5)
  {
    assert Pow2(5) == 32;
  }
}
