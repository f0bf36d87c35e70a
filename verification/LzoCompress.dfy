/** do_compress and DO_COMPRESS of lzo1x_c.c: the LZO1X-1 compressor, for any contents of its dictionary. */
module LzoCompress {
  import opened Bits
  import Lz77
  import RollingHash
  import opened LzoFormat
  import opened LzoDecode
  import LzoDecodes
  import opened LzoSize
  import opened LzoEncode

  /** The first dictionary index of the four bytes at `p`. */
  function Index1(data: seq<byte>, p: nat, bits: nat): (d: nat)
    requires p + 3 < |data|
    ensures d < Pow2(bits)
  {
    var b: nat := data[p + 3];
    var x2 := RollingHash.BitXor(b * 64, data[p + 2]);
    var x1 := RollingHash.BitXor(x2 * 32, data[p + 1]);
    var x0 := RollingHash.BitXor(x1 * 32, data[p]);
    0x21 * x0 / 32 % Pow2(bits)
  }

  /** The second index, derived from the first. */
  function Index2(d: nat, bits: nat): (e: nat)
    requires bits == 14 || bits == 15
    ensures e < Pow2(bits)
  {
    Index2Fits(d, bits);
    RollingHash.BitXor(d % 0x800, BitOr(0x1f, Shl(1, bits - 1)))
  }

  lemma Index2Fits(d: nat, bits: nat)
    requires bits == 14 || bits == 15
    ensures RollingHash.BitXor(d % 0x800, BitOr(0x1f, Shl(1, bits - 1))) < Pow2(bits)
  {
    hide BitOr, RollingHash.BitXor, Shl;
    assert Pow2(5) == 32 && Pow2(11) == 0x800;
    Pow2Monotone(5, bits - 1);
    Pow2Monotone(11, bits - 1);
    ShlIsProduct(1, bits - 1);
    BitOrDisjoint(0x1f, 1, bits - 1);
    RollingHash.XorBound(d % 0x800, BitOr(0x1f, Shl(1, bits - 1)), bits);
  }

  /** The distance to a dictionary entry, as the unsigned pointer difference has it. */
  function Distance(ip: nat, entry: int): (off: nat) { (ip - entry) % 0x1_0000_0000 }

  /** Whether an entry, whatever it is, points to a usable string before `ip`. */
  predicate Usable(ip: nat, entry: int) {
    var off := Distance(ip, entry);
    ip - off >= 0 && 0 < off <= M4_MAX_OFFSET
  }

  /** A candidate at distance `off` is near, or agrees in its fourth byte. */
  predicate Promising(data: seq<byte>, ip: nat, off: nat)
    requires off <= ip && ip + 3 < |data|
  {
    off <= M2_MAX_OFFSET || data[ip - off + 3] == data[ip + 3]
  }

  /** The entry that decides at `ip`: the second one if the first points to a string that is not promising. */
  function Slot(data: seq<byte>, ip: nat, dict: seq<int>, bits: nat): (d: nat)
    requires (bits == 14 || bits == 15) && |dict| == Pow2(bits) && ip + 3 < |data|
    ensures d < |dict|
  {
    var d := Index1(data, ip, bits);
    if Usable(ip, dict[d]) && !Promising(data, ip, Distance(ip, dict[d])) then Index2(d, bits) else d
  }

  /** An entry that points to a promising string with the same three bytes. */
  predicate Matches(data: seq<byte>, ip: nat, entry: int)
    requires ip + 3 < |data|
  {
    var off := Distance(ip, entry);
    Usable(ip, entry) && Promising(data, ip, off) && data[ip - off..ip - off + 3] == data[ip..ip + 3]
  }

  /** Looks for a match of at least three bytes at `ip`; `index` is the entry to update. */
  method FindMatch(data: seq<byte>, ip: nat, dict: array<int>, bits: nat) returns (found: bool, off: nat, index: nat)
    requires (bits == 14 || bits == 15) && dict.Length == Pow2(bits) && ip + 3 < |data|
    ensures index == Slot(data, ip, dict[..], bits)
    ensures found <==> Matches(data, ip, dict[index])
    ensures found ==> off == Distance(ip, dict[index])
  {
    hide Pow2, RollingHash.BitXor, BitOr, Distance;
    index := Index1(data, ip, bits);
    if !Usable(ip, dict[index]) { return false, 0, index; }
    off := Distance(ip, dict[index]);
    if !Promising(data, ip, off) {
      index := Index2(index, bits);
      if !Usable(ip, dict[index]) { return false, 0, index; }
      off := Distance(ip, dict[index]);
      if !Promising(data, ip, off) { return false, 0, index; }
    }
    found := data[ip - off] == data[ip] && data[ip - off + 1] == data[ip + 1] && data[ip - off + 2] == data[ip + 2];
    SameThree(data, ip - off, ip);
  }

  lemma SameThree(data: seq<byte>, p: nat, q: nat)
    requires p <= q && q + 3 < |data|
    ensures data[p..p + 3] == data[q..q + 3] <==>
            data[p] == data[q] && data[p + 1] == data[q + 1] && data[p + 2] == data[q + 2]
  {
    assert data[p..p + 3] == [data[p], data[p + 1], data[p + 2]];
    assert data[q..q + 3] == [data[q], data[q + 1], data[q + 2]];
  }

  /** The bytes at `ip` repeat those `off` back, for `len` bytes. */
  ghost predicate Repeats(data: seq<byte>, ip: nat, off: nat, len: nat) {
    1 <= off <= ip && ip + len <= |data| && forall i :: ip <= i < ip + len ==> data[i] == data[i - off]
  }

  /** Extends a match of three bytes as far as it goes, testing for the end of the input only after the ninth byte. */
  method ExtendMatch(data: seq<byte>, ip: nat, off: nat) returns (len: nat)
    requires Repeats(data, ip, off, 3) && ip + M2_MAX_LEN + 1 <= |data|
    ensures Repeats(data, ip, off, len) && len >= 3 && (ip + len < |data| ==> data[ip + len] != data[ip + len - off])
  {
    len := 3;
    while len <= M2_MAX_LEN
      invariant 3 <= len <= M2_MAX_LEN + 1 && Repeats(data, ip, off, len)
    {
      if data[ip + len - off] != data[ip + len] { return; }
      len := len + 1;
    }
    while ip + len < |data| && data[ip + len - off] == data[ip + len]
      invariant M2_MAX_LEN < len && Repeats(data, ip, off, len)
    {
      len := len + 1;
    }
  }

  lemma MatchesRepeats(data: seq<byte>, ip: nat, entry: int)
    requires ip + 3 < |data| && Matches(data, ip, entry)
    ensures var off := Distance(ip, entry);
            Repeats(data, ip, off, 3) && off <= M4_MAX_OFFSET && Promising(data, ip, off)
  {
    SameThree(data, ip - Distance(ip, entry), ip);
  }

  /** How far the bytes at `ip` repeat those `off` back. */
  ghost function Extent(data: seq<byte>, ip: nat, off: nat): (len: nat)
    requires 1 <= off <= ip <= |data|
    ensures Repeats(data, ip, off, len) && (ip + len < |data| ==> data[ip + len] != data[ip + len - off])
    decreases |data| - ip
  {
    if ip < |data| && data[ip] == data[ip - off] then 1 + Extent(data, ip + 1, off) else 0
  }

  lemma ExtentIs(data: seq<byte>, ip: nat, off: nat, len: nat)
    requires Repeats(data, ip, off, len) && (ip + len < |data| ==> data[ip + len] != data[ip + len - off])
    ensures len == Extent(data, ip, off)
  {
  }

  lemma ExtentAtLeast(data: seq<byte>, ip: nat, off: nat, len: nat)
    requires Repeats(data, ip, off, len)
    ensures Extent(data, ip, off) >= len
  {
  }

  // ---- which instructions are written

  /** The instructions for all but the literals at the end, and where these start; at each position the dictionary has
      one entry set to it. */
  ghost function Scan(data: seq<byte>, dict: seq<int>, bits: nat, ip: nat, ii: nat,
                      ins: seq<Instr>): (r: (seq<Instr>, nat))
    requires (bits == 14 || bits == 15) && |dict| == Pow2(bits) && ii <= ip && ip + M2_MAX_LEN + 2 <= |data|
    ensures r.1 <= |data|
    decreases |data| - ip
  {
    hide Slot, Matches, AddLits, KindFor, Distance, Pow2;
    var d := Slot(data, ip, dict, bits);
    if Matches(data, ip, dict[d]) then
      MatchesRepeats(data, ip, dict[d]);
      var off := Distance(ip, dict[d]);
      var len := Extent(data, ip, off);
      var next := AddLits(ins, data[ii..ip]) + [Copy(KindFor(len, off), len, off, [])];
      ExtentAtLeast(data, ip, off, 3);
      if ip + len + M2_MAX_LEN + 5 >= |data| then (next, ip + len)
      else Scan(data, dict[d := ip], bits, ip + len, ip + len, next)
    else if ip + 1 + M2_MAX_LEN + 5 >= |data| then (ins, ii)
    else Scan(data, dict[d := ip], bits, ip + 1, ii, ins)
  }

  /** What a block is compressed to, from what the dictionary holds. */
  ghost function Compressed(data: seq<byte>, dict: seq<int>, bits: nat): seq<Instr>
    requires (bits == 14 || bits == 15) && |dict| == Pow2(bits)
  {
    if |data| <= M2_MAX_LEN + 5 then LastLits([], data)
    else
      var (ins, ii) := Scan(data, dict, bits, 4, 0, []);
      LastLits(ins, data[ii..])
  }

  lemma NextMatch(ins: seq<Instr>, data: seq<byte>, ip: nat, off: nat, len: nat)
    requires Repeats(data, ip, off, len) && len >= 3 && off <= M4_MAX_OFFSET && (off > M2_MAX_OFFSET ==> len >= 4)
    requires Good(ins, data[..ip], true) && ins != []
    ensures Sound(Copy(KindFor(len, off), len, off, []))
    ensures Good(ins + [Copy(KindFor(len, off), len, off, [])], data[..ip + len], true)
  {
    hide MatchHead, Lz77.CopyFrom, Good;
    var i := Copy(KindFor(len, off), len, off, []);
    MatchGains(len, off);
    Lz77.CopyMatches(data, ip, off, len);
    assert data[..ip + len] + [] == data[..ip + len];
    LzoDecodes.NeverStart(ins[|ins| - 1]);
    GoodSnoc(ins, data[..ip], i, true);
  }

  /** Stores the literals waiting and codes the match at `ip`. */
  method EmitMatch(data: seq<byte>, out: array<byte>, op: nat, ii: nat, ip: nat, off: nat, len: nat,
                   ghost ins: seq<Instr>)
    returns (p: nat, ghost ins': seq<Instr>)
    requires ii <= ip <= |data| && Good(ins, data[..ii], true) && (ins == [] || EndsInMatch(ins))
    requires (ins == [] ==> ii == 0 && ip >= 4)
    requires op <= out.Length && AllSound(ins) && out[..op] == Stream(ins) && out.Length >= MaxCompressedSize(|data|)
    requires Repeats(data, ip, off, len) && len >= 3 && off <= M4_MAX_OFFSET && (off > M2_MAX_OFFSET ==> len >= 4)
    modifies out
    ensures ins' == AddLits(ins, data[ii..ip]) + [Copy(KindFor(len, off), len, off, [])]
    ensures Good(ins', data[..ip + len], true) && EndsInMatch(ins')
    ensures p <= out.Length && AllSound(ins') && out[..p] == Stream(ins')
  {
    hide MatchHead, Good, Stream, Sound, AddLits, MaxCompressedSize, KindFor;
    ghost var lits := data[ii..ip];
    ghost var mid := AddLits(ins, lits);
    assert data[..ii] + lits == data[..ip];
    GoodLits(ins, data[..ii], lits, true);
    GoodFits(mid, data[..ip], |data|);
    LitsAdded(ins, lits);
    ghost var i := Copy(KindFor(len, off), len, off, []);
    NextMatch(mid, data, ip, off, len);
    GoodFits(mid + [i], data[..ip + len], |data|);
    StreamSnoc(mid, i);
    PlainMatch(len, off);
    p := op;
    if ip > ii {
      p := StoreLiterals(out, p, data, ii, ip - ii, ins);
    }
    p := PutMatch(out, p, len, off);
    ins' := mid + [i];
  }

  lemma LitsAdded(ins: seq<Instr>, lits: seq<byte>)
    requires ins != [] || lits != []
    ensures AddLits(ins, lits) != [] && (lits == [] ==> AddLits(ins, lits) == ins)
  {
  }

  lemma PlainMatch(len: nat, off: nat)
    requires len >= 3 && 1 <= off <= M4_MAX_OFFSET
    ensures var i := Copy(KindFor(len, off), len, off, []);
            Sound(i) && Bytes(i) == MatchHead(KindFor(len, off), len, off, 0)
  {
    hide MatchHead;
  }

  /** Compresses all but the last `t` bytes. */
  method DoCompress(data: seq<byte>, out: array<byte>, dict: array<int>, bits: nat)
    returns (op: nat, t: nat, ghost ins: seq<Instr>)
    requires |data| > M2_MAX_LEN + 5 && (bits == 14 || bits == 15) && dict.Length == Pow2(bits)
    requires out.Length >= MaxCompressedSize(|data|)
    modifies out, dict
    ensures t <= |data| && Scan(data, old(dict[..]), bits, 4, 0, []) == (ins, |data| - t)
    ensures Good(ins, data[..|data| - t], true) && (ins == [] || EndsInMatch(ins))
    ensures (ins == [] ==> t == |data|)
    ensures op <= out.Length && AllSound(ins) && out[..op] == Stream(ins)
  {
    hide Good, Stream, EndsInMatch, Pow2, MaxCompressedSize, Promising, Scan, Slot, Matches, AddLits, Distance;
    op, ins := 0, [];
    NothingYet(data, out[..0]);
    var ip, ii := 4, 0;
    var ipEnd := |data| - M2_MAX_LEN - 5;
    ghost var goal := Scan(data, dict[..], bits, 4, 0, []);
    while true
      invariant ii <= ip && ip + M2_MAX_LEN + 2 <= |data| && goal == Scan(data, dict[..], bits, ip, ii, ins)
      invariant Good(ins, data[..ii], true) && (ins == [] || EndsInMatch(ins)) && (ins == [] ==> ii == 0 && ip >= 4)
      invariant op <= out.Length && AllSound(ins) && out[..op] == Stream(ins)
      decreases |data| - ip
    {
      var found, off, index := FindMatch(data, ip, dict, bits);
      ghost var before, entry := dict[..], dict[index];
      dict[index] := ip;
      assert dict[..] == before[index := ip];
      if !found {
        ScanLiteral(data, before, bits, ip, ii, ins);
        ip := ip + 1;
        if ip >= ipEnd { break; }
      } else {
        MatchesRepeats(data, ip, entry);
        var len := ExtendMatch(data, ip, off);
        ScanMatch(data, before, bits, ip, ii, ins, len);
        FarMatch(data, ip, off, len);
        op, ins := EmitMatch(data, out, op, ii, ip, off, len, ins);
        MatchesEnd(ins);
        ip := ip + len;
        ii := ip;
        if ip >= ipEnd { break; }
      }
    }
    t := |data| - ii;
  }

  lemma ScanLiteral(data: seq<byte>, dict: seq<int>, bits: nat, ip: nat, ii: nat, ins: seq<Instr>)
    requires (bits == 14 || bits == 15) && |dict| == Pow2(bits) && ii <= ip && ip + M2_MAX_LEN + 2 <= |data|
    requires !Matches(data, ip, dict[Slot(data, ip, dict, bits)])
    ensures Scan(data, dict, bits, ip, ii, ins) ==
            if ip + M2_MAX_LEN + 6 >= |data| then (ins, ii)
            else Scan(data, dict[Slot(data, ip, dict, bits) := ip], bits, ip + 1, ii, ins)
  {
    hide Slot, Matches, AddLits, Distance, Pow2;
  }

  lemma ScanMatch(data: seq<byte>, dict: seq<int>, bits: nat, ip: nat, ii: nat, ins: seq<Instr>, len: nat)
    requires (bits == 14 || bits == 15) && |dict| == Pow2(bits) && ii <= ip && ip + M2_MAX_LEN + 2 <= |data|
    requires Matches(data, ip, dict[Slot(data, ip, dict, bits)]) && len >= 3
    requires var off := Distance(ip, dict[Slot(data, ip, dict, bits)]);
             Repeats(data, ip, off, len) && (ip + len < |data| ==> data[ip + len] != data[ip + len - off])
    ensures var d := Slot(data, ip, dict, bits);
            var off := Distance(ip, dict[d]);
            var next := AddLits(ins, data[ii..ip]) + [Copy(KindFor(len, off), len, off, [])];
            Scan(data, dict, bits, ip, ii, ins) ==
            if ip + len + M2_MAX_LEN + 5 >= |data| then (next, ip + len)
            else Scan(data, dict[d := ip], bits, ip + len, ip + len, next)
  {
    hide Slot, Matches, AddLits, Distance, Pow2, Repeats;
    ExtentIs(data, ip, Distance(ip, dict[Slot(data, ip, dict, bits)]), len);
  }

  lemma NothingYet(data: seq<byte>, none: seq<byte>)
    requires none == []
    ensures Good([], data[..0], true) && none == Stream([])
  {
  }

  lemma MatchesEnd(ins: seq<Instr>)
    requires EndsInMatch(ins)
    ensures ins != []
  {
  }

  lemma FarMatch(data: seq<byte>, ip: nat, off: nat, len: nat)
    requires Repeats(data, ip, off, len) && len >= 3 && ip + 3 < |data| && Promising(data, ip, off)
    requires ip + len < |data| ==> data[ip + len] != data[ip + len - off]
    ensures off > M2_MAX_OFFSET ==> len >= 4
  {
  }

  /** The instructions for the literals at the end. */
  ghost function LastLits(ins: seq<Instr>, lits: seq<byte>): seq<Instr> {
    if ins == [] && 1 <= |lits| <= 238 then [First(lits)] else AddLits(ins, lits)
  }

  lemma LastGood(ins: seq<Instr>, data: seq<byte>, lits: seq<byte>, gain: bool)
    requires Good(ins, data, gain) && (ins == [] || EndsInMatch(ins))
    ensures Good(LastLits(ins, lits), data + lits, gain)
  {
    hide Good;
    if ins == [] && 1 <= |lits| <= 238 {
      GoodSnoc([], data, First(lits), gain);
      assert [] + [First(lits)] == [First(lits)];
    } else {
      GoodLits(ins, data, lits, gain);
    }
  }

  /** Stores the last literals, in the special form if nothing was written before. */
  method StoreLast(out: array<byte>, op: nat, data: seq<byte>, ii: nat, t: nat, ghost ins: seq<Instr>) returns (p: nat)
    requires AllSound(ins) && (ins == [] || EndsInMatch(ins)) && 1 <= t && ii + t <= |data| && (op == 0 <==> ins == [])
    requires AllSound(LastLits(ins, data[ii..ii + t])) && |Stream(LastLits(ins, data[ii..ii + t]))| <= out.Length
    requires op <= out.Length && out[..op] == Stream(ins)
    modifies out
    ensures p <= out.Length && out[..p] == Stream(LastLits(ins, data[ii..ii + t]))
  {
    hide Stream, Sound, EndsInMatch, AddLits;
    ghost var lits := data[ii..ii + t];
    if op == 0 && t <= 238 {
      FirstBytes(lits);
      p := 1;
      out[0] := 17 + t;
      p := PutLiterals(out, p, data, ii, t);
      assert out[..1] == [17 + t];
    } else {
      p := StoreLiterals(out, op, data, ii, t, ins);
    }
  }

  lemma FirstBytes(lits: seq<byte>)
    requires 1 <= |lits| <= 238
    ensures AllSound([First(lits)]) && Stream([First(lits)]) == [17 + |lits|] + lits
  {
    StreamSnoc([], First(lits));
    assert [] + [First(lits)] == [First(lits)];
    assert Stream([]) == [];
  }

  /** Whether anything was written yet. */
  lemma {:induction false} StreamNotEmpty(ins: seq<Instr>)
    requires AllSound(ins) && ins != []
    ensures Stream(ins) != []
  {
    hide MatchHead, LongNumber;
    var i := ins[|ins| - 1];
    assert Sound(i);
    if i.Copy? { HeadAtLeast(i.kind, i.len, i.off, |i.tail|); }
  }

  lemma HeadAtLeast(k: Kind, len: nat, off: nat, tail: nat)
    requires InRange(k, len, off) && tail <= 3
    ensures |MatchHead(k, len, off, tail)| >= 2
  {
    hide LongNumber;
  }

  /** Compresses a block: the output is a well-formed stream for it that fits the maximal size. */
  method Compress(data: seq<byte>, out: array<byte>, dict: array<int>, bits: nat)
    returns (outLen: nat, ghost ins: seq<Instr>)
    requires (bits == 14 || bits == 15) && dict.Length == Pow2(bits) && out.Length >= MaxCompressedSize(|data|)
    modifies out, dict
    ensures ins == Compressed(data, old(dict[..]), bits)
    ensures Good(ins, data, true) && AllSound(ins) && outLen <= MaxCompressedSize(|data|) && out[..outLen] == File(ins)
  {
    hide Good, Stream, EndsInMatch, Pow2, MaxCompressedSize, LastLits, Scan;
    var op := 0;
    var t := |data|;
    ins := [];
    NothingYet(data, out[..0]);
    if |data| > M2_MAX_LEN + 5 {
      op, t, ins := DoCompress(data, out, dict, bits);
    }
    ghost var ii := |data| - t;
    assert data[..ii] + data[ii..] == data;
    LastGood(ins, data[..ii], data[ii..], true);
    ghost var all := LastLits(ins, data[ii..]);
    GoodFits(all, data, |data|);
    assert op == 0 <==> ins == [] by { if ins != [] { StreamNotEmpty(ins); } else { EmptyStream(); } }
    if t > 0 {
      assert data[|data| - t..(|data| - t) + t] == data[ii..];
      op := StoreLast(out, op, data, |data| - t, t, ins);
    } else {
      NoLits(ins, data[ii..]);
    }
    ins := all;
    op := PutEnd(out, op);
    outLen := op;
  }

  lemma EmptyStream()
    ensures Stream([]) == []
  {
  }

  lemma NoLits(ins: seq<Instr>, lits: seq<byte>)
    requires lits == []
    ensures LastLits(ins, lits) == ins
  {
  }

  /** Writes the end marker. */
  method PutEnd(out: array<byte>, op: nat) returns (p: nat)
    requires op + 3 <= out.Length
    modifies out
    ensures p == op + 3 && out[..p] == old(out[..op]) + END_MARKER
  {
    out[op] := 17;
    out[op + 1] := 0;
    out[op + 2] := 0;
    p := op + 3;
  }

  /** A compressed block decompresses to its data, in as much room as the data needs. */
  lemma RoundTrip(ins: seq<Instr>, data: seq<byte>, s: seq<byte>, cap: nat, lean: bool)
    requires Good(ins, data, lean) && AllSound(ins) && File(ins) <= s && |File(ins)| < 0x1_0000_0000 && cap >= |data|
    ensures Decode(s, |File(ins)|, cap) == Halt(Ok, data)
  {
    hide WellFormed, AllSound, Lean, Expand, Stream;
    LzoDecodes.FileDecodes(s, ins, cap);
  }

  // ---- what is found

  /** An entry is usable exactly if it is, in 32 bits, a position before `ip` and not too far. */
  lemma UsableIs(ip: nat, p: nat, entry: int)
    requires p < ip < 0x1_0000_0000 && (entry - p) % 0x1_0000_0000 == 0
    ensures Distance(ip, entry) == ip - p && (Usable(ip, entry) <==> ip - p <= M4_MAX_OFFSET)
  {
    var k := (entry - p) / 0x1_0000_0000;
    assert ip - entry == ip - p - k * 0x1_0000_0000;
  }

  /** A position in the first entry is taken if it is not too far and its four bytes agree. */
  lemma FirstEntryTaken(data: seq<byte>, q: nat, p: nat, dict: seq<int>, bits: nat)
    requires (bits == 14 || bits == 15) && |dict| == Pow2(bits) && p + 3 < |data| < 0x1_0000_0000
    requires q < p <= q + M4_MAX_OFFSET && data[q..q + 4] == data[p..p + 4]
    requires dict[Index1(data, q, bits)] == q
    ensures Slot(data, p, dict, bits) == Index1(data, q, bits)
    ensures Matches(data, p, dict[Slot(data, p, dict, bits)]) && Distance(p, dict[Slot(data, p, dict, bits)]) == p - q
  {
    hide Distance, Pow2, RollingHash.BitXor;
    assert data[q..q + 4] == [data[q], data[q + 1], data[q + 2], data[q + 3]];
    assert data[p..p + 4] == [data[p], data[p + 1], data[p + 2], data[p + 3]];
    assert Index1(data, q, bits) == Index1(data, p, bits);
    UsableIs(p, q, q);
    SameThree(data, q, p);
  }

  lemma XorAdds(x: nat, y: nat)
    requires y < 32
    ensures RollingHash.BitXor(32 * x, y) == 32 * x + y
  {
    hide RollingHash.BitXor;
    var y1, y2, y3, y4 := y / 2, y / 4, y / 8, y / 16;
    XorStep(x, y4);
    XorStep(2 * x, y3);
    XorStep(4 * x, y2);
    XorStep(8 * x, y1);
    XorStep(16 * x, y);
    RollingHash.XorCommutes(x, 0);
    RollingHash.XorZero(x);
  }

  lemma XorStep(x: nat, y: nat)
    ensures RollingHash.BitXor(2 * x, y) == 2 * RollingHash.BitXor(x, y / 2) + y % 2
  {
  }

  /** The indices in numbers, for bytes below 32. */
  lemma IndexOfSmall(data: seq<byte>, p: nat, bits: nat)
    requires p + 3 < |data| && data[p] < 32 && data[p + 1] < 32 && data[p + 2] < 32
    ensures var x: nat := data[p] as int + 0x20 * data[p + 1] as int + 0x400 * data[p + 2] as int +
            0x1_0000 * data[p + 3] as int;
            Index1(data, p, bits) == 33 * x / 32 % Pow2(bits)
  {
    hide Pow2, RollingHash.BitXor;
    var b2, b1, b0, b: nat := data[p + 2], data[p + 1], data[p], data[p + 3];
    XorAdds(2 * b, b2);
    XorAdds(2 * 32 * b + b2, b1);
    XorAdds(32 * (2 * 32 * b + b2) + b1, b0);
  }

  lemma SecondIndex()
    ensures Index2(0, 14) == 0x201f && Index2(0, 15) == 0x401f
  {
    hide BitOr, RollingHash.BitXor, Shl;
    Pow2Words();
    assert Pow2(5) == 32 && Pow2(13) == 0x2000 && Pow2(14) == 0x4000;
    ShlIsProduct(1, 13);
    ShlIsProduct(1, 14);
    BitOrDisjoint(0x1f, 1, 13);
    BitOrDisjoint(0x1f, 1, 14);
    RollingHash.XorZero(0x201f);
    RollingHash.XorZero(0x401f);
  }

  /** Every position in the first block of equal bytes matches if the entry is usable at all. */
  lemma MatchesSame(data: seq<byte>, c: byte, ip: nat, entry: int)
    requires data == seq(|data|, _ => c) && ip + 3 < |data| && ip <= M2_MAX_OFFSET
    ensures Matches(data, ip, entry) <==> Usable(ip, entry)
    ensures Usable(ip, entry) ==> Promising(data, ip, Distance(ip, entry))
    ensures Usable(ip, entry) ==> Extent(data, ip, Distance(ip, entry)) == |data| - ip
  {
    if Usable(ip, entry) {
      hide Distance;
      SameThree(data, ip - Distance(ip, entry), ip);
      assert Repeats(data, ip, Distance(ip, entry), |data| - ip);
      ExtentAtLeast(data, ip, Distance(ip, entry), |data| - ip);
    }
  }

  lemma SlotSame(data: seq<byte>, c: byte, ip: nat, dict: seq<int>, bits: nat)
    requires data == seq(|data|, _ => c) && 4 <= ip < ip + 3 < |data| && ip <= M2_MAX_OFFSET
    requires (bits == 14 || bits == 15) && |dict| == Pow2(bits)
    ensures Slot(data, ip, dict, bits) == Index1(data, 4, bits)
  {
    hide Usable, Promising, Distance, Pow2, RollingHash.BitXor, Index2;
    var d := Index1(data, ip, bits);
    MatchesSame(data, c, ip, dict[d]);
  }

  /** Equal bytes become a run of four or five of them and one match. */
  lemma SameBytes(data: seq<byte>, c: byte, dict: seq<int>, bits: nat) returns (k: nat, off: nat)
    requires data == seq(|data|, _ => c) && |data| >= 19 && (bits == 14 || bits == 15) && |dict| == Pow2(bits)
    ensures 1 <= off <= k && (k == 4 || k == 5)
    ensures Compressed(data, dict, bits) == [Run(data[..k]), Copy(KindFor(|data| - k, off), |data| - k, off, [])]
  {
    hide Slot, Matches, Usable, Distance, Pow2, Extent, Index1, KindFor;
    var d := Index1(data, 4, bits);
    SlotSame(data, c, 4, dict, bits);
    MatchesSame(data, c, 4, dict[d]);
    if Usable(4, dict[d]) {
      k, off := 4, Distance(4, dict[d]);
      UsableOffset(4, dict[d]);
      ScanMatch(data, dict, bits, 4, 0, [], |data| - 4);
    } else {
      k, off := 5, 1;
      var next := dict[d := 4];
      ScanLiteral(data, dict, bits, 4, 0, []);
      SlotSame(data, c, 5, next, bits);
      UsableIs(5, 4, 4);
      MatchesSame(data, c, 5, next[d]);
      ScanMatch(data, next, bits, 5, 0, [], |data| - 5);
    }
    assert data[|data|..] == [];
  }

  lemma UsableOffset(ip: nat, entry: int)
    requires Usable(ip, entry)
    ensures 1 <= Distance(ip, entry) <= ip
  {
  }

  /** So nineteen equal bytes or more become fewer, whatever the dictionary holds. */
  lemma SameBytesShrink(data: seq<byte>, c: byte, dict: seq<int>, bits: nat)
    requires data == seq(|data|, _ => c) && |data| >= 19 && (bits == 14 || bits == 15) && |dict| == Pow2(bits)
    ensures AllSound(Compressed(data, dict, bits)) && |File(Compressed(data, dict, bits))| < |data|
  {
    hide Compressed, Pow2;
    var k, off := SameBytes(data, c, dict, bits);
    var run, copy := Run(data[..k]), Copy(KindFor(|data| - k, off), |data| - k, off, []);
    StreamSnoc([], run);
    StreamSnoc([run], copy);
    assert [] + [run] == [run] && [run] + [copy] == [run, copy];
  }
}
