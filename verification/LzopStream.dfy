/** The block loops of lzo_compress and lzo_decompress in lzop.c: a whole run of blocks up to the end mark. */
module LzopStream {
  import opened Bits
  import opened LzoFormat
  import opened LzoSize
  import opened LzoEncode
  import opened LzoCompress
  import opened Lzo999
  import opened LzoRewrite
  import opened Adler32
  import opened LzopBlocks

  const LZO_BLOCK_SIZE := 262144
  const MAX_BLOCK_SIZE := 67108864

  type Word = x: nat | x < 0x1_0000_0000

  /** Which checksums the file has: of the data and of the compressed bytes. */
  datatype Flags = Flags(adlerD: bool, crcD: bool, adlerC: bool, crcC: bool)

  /** lzo_crc32 from its initial value. */
  type Crc = seq<byte> -> Word

  // ---- words

  /** A word, high byte first. */
  function Be32(v: Word): (b: seq<byte>)
    ensures |b| == 4
  {
    [v / 0x100_0000, v / 0x1_0000 % 256, v / 0x100 % 256, v % 256]
  }

  function Word32(b: seq<byte>): (v: Word)
    requires |b| == 4
    ensures Be32(v) == b
  {
    var v := ((b[0] as int * 256 + b[1]) * 256 + b[2]) * 256 + b[3];
    WordBytes(b[0], b[1], b[2], b[3]);
    v
  }

  lemma WordBytes(a: byte, b: byte, c: byte, d: byte)
    ensures var v := ((a as int * 256 + b) * 256 + c) * 256 + d;
            && 0 <= v < 0x1_0000_0000
            && v / 0x100_0000 == a && v / 0x1_0000 % 256 == b && v / 0x100 % 256 == c && v % 256 == d
  {
  }

  lemma WordIs(v: Word, w: Word)
    requires Be32(v) == Be32(w)
    ensures v == w
  {
    BytesSum(v);
    BytesSum(w);
  }

  lemma BytesSum(v: Word)
    ensures v == ((Be32(v)[0] as int * 256 + Be32(v)[1]) * 256 + Be32(v)[2]) * 256 + Be32(v)[3]
  {
    var a := v / 256;
    var b := a / 256;
    assert b == v / 0x1_0000 && b / 256 == v / 0x100_0000;
  }

  /** A word that is there only under a flag. */
  function Maybe(on: bool, v: Word): seq<byte> { if on then Be32(v) else [] }

  // ---- the file

  /** A block with what it stands for. */
  datatype Part = Part(b: Block, data: seq<byte>, ins: seq<Instr>)

  ghost predicate Fits(p: Part) { Packs(p.b, p.data, p.ins) && 0 < |p.data| <= MAX_BLOCK_SIZE }

  ghost predicate AllFit(ps: seq<Part>) { forall i :: 0 <= i < |ps| ==> Fits(ps[i]) }

  /** The checksum of some bytes. */
  function Adler(data: seq<byte>): Word {
    SumsFit(data);
    Pack(Checksum(Unpack(ADLER32_INIT_VALUE), data))
  }

  lemma SumsFit(data: seq<byte>)
    ensures Pack(Checksum(Unpack(ADLER32_INIT_VALUE), data)) < 0x1_0000_0000
  {
    FirstSums();
    ChecksumReduced(Unpack(ADLER32_INIT_VALUE), data);
  }

  method AdlerOf(data: seq<byte>) returns (c: Word)
    ensures c == Adler(data)
  {
    hide Checksum;
    FirstSums();
    SumsFit(data);
    c := LzoAdler32(ADLER32_INIT_VALUE, Some(data));
  }

  lemma FitsWords(p: Part)
    requires Fits(p)
    ensures p.b.dstLen == |p.data| < 0x1_0000_0000 && 0 < p.b.srcLen == |p.b.payload| <= p.b.dstLen
    ensures p.b.adler == Adler(p.data)
  {
    hide Good, Checksum, Stream;
  }

  /** The checksums of compressed bytes, if they are, and the bytes. */
  ghost function Packed(p: Part, f: Flags, crc: Crc, tail: seq<byte>): seq<byte> {
    if p.b.srcLen < p.b.dstLen
    then Maybe(f.adlerC, Adler(p.b.payload)) + (Maybe(f.crcC, crc(p.b.payload)) + (p.b.payload + tail))
    else p.b.payload + tail
  }

  /** A block in the file, and what follows it. */
  ghost function Written(p: Part, f: Flags, crc: Crc, tail: seq<byte>): seq<byte>
    requires Fits(p)
  {
    FitsWords(p);
    Be32(p.b.dstLen) + (Be32(p.b.srcLen) + Sums(p, f, crc, tail))
  }

  /** All checksums, and the bytes. */
  ghost function Sums(p: Part, f: Flags, crc: Crc, tail: seq<byte>): seq<byte> {
    Maybe(f.adlerD, Adler(p.data)) + (Maybe(f.crcD, crc(p.data)) + Packed(p, f, crc, tail))
  }

  /** The value of four bytes, high byte first. */
  function Big(b: seq<byte>): nat
    requires |b| == 4
  {
    0x100_0000 * b[0] as int + 0x1_0000 * b[1] as int + 0x100 * b[2] as int + b[3] as int
  }

  /** `w` is the words of the fields that are there, in their order, and then `rest`. */
  ghost predicate Reads(w: seq<byte>, fields: seq<(bool, nat)>, rest: seq<byte>)
    decreases |fields|
  {
    if fields == [] then w == rest
    else if !fields[0].0 then Reads(w, fields[1..], rest)
    else |w| >= 4 && Big(w[..4]) == fields[0].1 && Reads(w[4..], fields[1..], rest)
  }

  lemma ReadsFront(on: bool, v: Word, w: seq<byte>, fields: seq<(bool, nat)>, rest: seq<byte>)
    requires Reads(w, fields, rest)
    ensures Reads(Maybe(on, v) + w, [(on, v)] + fields, rest)
  {
    var x, fs := Maybe(on, v) + w, [(on, v)] + fields;
    assert fs[1..] == fields;
    if on {
      BytesSum(v);
      assert x[..4] == Be32(v) && x[4..] == w;
    } else {
      assert x == w;
    }
  }

  /** The checksums of the bytes, which are there only if these are compressed. */
  ghost function LastFields(p: Part, f: Flags, crc: Crc): seq<(bool, nat)> {
    var compressed := |p.b.payload| < |p.data|;
    [(f.adlerC && compressed, Adler(p.b.payload)), (f.crcC && compressed, crc(p.b.payload))]
  }

  /** A block in the file: the length of its data, the length of its bytes, and the checksums. */
  ghost function FieldsOf(p: Part, f: Flags, crc: Crc): seq<(bool, nat)> {
    [(true, |p.data|)] +
      ([(true, |p.b.payload|)] + ([(f.adlerD, Adler(p.data))] + ([(f.crcD, crc(p.data))] + LastFields(p, f, crc))))
  }

  lemma PackedReads(p: Part, f: Flags, crc: Crc, tail: seq<byte>)
    requires p.b.srcLen == |p.b.payload| && p.b.dstLen == |p.data|
    ensures Reads(Packed(p, f, crc, tail), LastFields(p, f, crc), p.b.payload + tail)
  {
    hide Maybe, Adler, Be32;
    var comp, rest := |p.b.payload| < |p.data|, p.b.payload + tail;
    var a, c := Adler(p.b.payload), crc(p.b.payload);
    var last: seq<(bool, nat)> := [(f.crcC && comp, c)];
    assert last + [] == last;
    ReadsFront(f.crcC && comp, c, rest, [], rest);
    ReadsFront(f.adlerC && comp, a, Maybe(f.crcC && comp, c) + rest, last, rest);
    PackedMaybe(p, f, crc, tail, comp);
  }

  /** The fields can be read off the file in this order, and the bytes follow. */
  lemma WrittenReads(p: Part, f: Flags, crc: Crc, tail: seq<byte>)
    requires Fits(p)
    ensures Reads(Written(p, f, crc, tail), FieldsOf(p, f, crc), p.b.payload + tail)
  {
    hide Fits, Maybe, Adler, Be32, Reads, LastFields, Packed;
    FitsWords(p);
    var n, m, rest, fs := |p.data|, |p.b.payload|, p.b.payload + tail, LastFields(p, f, crc);
    var a, c := Adler(p.data), crc(p.data);
    PackedReads(p, f, crc, tail);
    ReadsFront(f.crcD, c, Packed(p, f, crc, tail), fs, rest);
    ReadsFront(f.adlerD, a, Maybe(f.crcD, c) + Packed(p, f, crc, tail), [(f.crcD, c)] + fs, rest);
    ReadsFront(true, m, Sums(p, f, crc, tail), [(f.adlerD, a)] + ([(f.crcD, c)] + fs), rest);
    ReadsFront(true, n, Maybe(true, m) + Sums(p, f, crc, tail), [(true, m)] + ([(f.adlerD, a)] + ([(f.crcD, c)] + fs)),
               rest);
    AlwaysThere(m);
    AlwaysThere(n);
  }

  lemma AlwaysThere(v: Word)
    ensures Maybe(true, v) == Be32(v)
  {
  }

  lemma PackedMaybe(p: Part, f: Flags, crc: Crc, tail: seq<byte>, comp: bool)
    requires p.b.srcLen == |p.b.payload| && p.b.dstLen == |p.data| && comp == (|p.b.payload| < |p.data|)
    ensures Packed(p, f, crc, tail) ==
            Maybe(f.adlerC && comp, Adler(p.b.payload)) +
              (Maybe(f.crcC && comp, crc(p.b.payload)) + (p.b.payload + tail))
  {
    hide Adler, Be32;
    var x := p.b.payload + tail;
    assert [] + ([] + x) == x;
  }

  /** Blocks in the file, and what follows them. */
  ghost function Blocks(ps: seq<Part>, f: Flags, crc: Crc, tail: seq<byte>): seq<byte>
    requires AllFit(ps)
  {
    if ps == [] then tail else Written(ps[0], f, crc, Blocks(ps[1..], f, crc, tail))
  }

  /** The data of all blocks. */
  ghost function Contents(ps: seq<Part>): seq<byte> { if ps == [] then [] else ps[0].data + Contents(ps[1..]) }

  lemma WrittenTail(p: Part, f: Flags, crc: Crc, tail: seq<byte>)
    requires Fits(p)
    ensures Written(p, f, crc, tail) == Written(p, f, crc, []) + tail
  {
    hide Fits, Maybe, Be32, Adler;
    FitsWords(p);
    var a, b, c, d := Be32(p.b.dstLen), Be32(p.b.srcLen), Maybe(f.adlerD, Adler(p.data)), Maybe(f.crcD, crc(p.data));
    PackedTail(p, f, crc, tail);
    var e := Packed(p, f, crc, []);
    Assoc(d, e, tail);
    Assoc(c, d + e, tail);
    Assoc(b, c + (d + e), tail);
    Assoc(a, b + (c + (d + e)), tail);
  }

  lemma PackedTail(p: Part, f: Flags, crc: Crc, tail: seq<byte>)
    ensures Packed(p, f, crc, tail) == Packed(p, f, crc, []) + tail
  {
    hide Maybe, Adler;
    var a, b, c := Maybe(f.adlerC, Adler(p.b.payload)), Maybe(f.crcC, crc(p.b.payload)), p.b.payload;
    assert c + [] == c;
    Assoc(b, c, tail);
    Assoc(a, b + c, tail);
  }

  lemma {:induction false} BlocksTail(ps: seq<Part>, f: Flags, crc: Crc, tail: seq<byte>)
    requires AllFit(ps)
    ensures Blocks(ps, f, crc, tail) == Blocks(ps, f, crc, []) + tail
    decreases |ps|
  {
    hide Fits, Written;
    if ps != [] {
      var rest := Blocks(ps[1..], f, crc, []);
      BlocksTail(ps[1..], f, crc, tail);
      WrittenTail(ps[0], f, crc, rest + tail);
      WrittenTail(ps[0], f, crc, rest);
      Assoc(Written(ps[0], f, crc, []), rest, tail);
    }
  }

  lemma {:induction false} BlocksSnoc(ps: seq<Part>, p: Part, f: Flags, crc: Crc, tail: seq<byte>)
    requires AllFit(ps) && Fits(p)
    ensures AllFit(ps + [p]) && Blocks(ps + [p], f, crc, tail) == Blocks(ps, f, crc, Written(p, f, crc, tail))
    decreases |ps|
  {
    hide Fits, Written;
    if ps == [] {
      assert ps + [p] == [p] && [p][1..] == [];
    } else {
      assert (ps + [p])[1..] == ps[1..] + [p];
      BlocksSnoc(ps[1..], p, f, crc, tail);
    }
  }

  lemma {:induction false} ContentsSnoc(ps: seq<Part>, p: Part)
    ensures Contents(ps + [p]) == Contents(ps) + p.data
    decreases |ps|
  {
    if ps == [] {
      assert ps + [p] == [p] && [p][1..] == [];
    } else {
      assert (ps + [p])[1..] == ps[1..] + [p];
      ContentsSnoc(ps[1..], p);
      Assoc(ps[0].data, Contents(ps[1..]), p.data);
    }
  }

  // ---- lzo_compress

  /** LZO1X-1 with its number of dictionary bits, or LZO1X-999. */
  datatype Method = Lzo1(bits: nat) | Lzo999

  function Least(a: nat, b: nat): nat { if a < b then a else b }

  /** The data of the block that starts at `pos`. */
  function BlockAt(data: seq<byte>, pos: nat): (d: seq<byte>)
    requires pos <= |data|
  {
    data[pos..pos + Least(LZO_BLOCK_SIZE, |data| - pos)]
  }

  /** The parses that the match finder makes of the blocks from `pos` on pass the encoder's tests. */
  ghost predicate Parsed(data: seq<byte>, pos: nat, parses: seq<seq<Piece>>)
    requires pos <= |data|
    decreases |data| - pos
  {
    pos == |data| ||
    (parses != [] && Parses(BlockAt(data, pos), 0, parses[0]) && Sparing(parses[0]) &&
     Parsed(data, pos + |BlockAt(data, pos)|, parses[1..]))
  }

  ghost predicate Ready(m: Method, dict: array<int>, data: seq<byte>, parses: seq<seq<Piece>>) {
    match m
    case Lzo1(bits) => (bits == 14 || bits == 15) && dict.Length == Pow2(bits)
    case Lzo999 => Parsed(data, 0, parses)
  }

  /** The words and bytes of one block. */
  method WriteBlock(b: Block, data: seq<byte>, f: Flags, crc: Crc, ghost ins: seq<Instr>) returns (w: seq<byte>)
    requires Fits(Part(b, data, ins))
    ensures w == Written(Part(b, data, ins), f, crc, [])
  {
    hide Fits, Adler, Be32;
    ghost var p := Part(b, data, ins);
    FitsWords(p);
    w := Be32(b.dstLen) + Be32(b.srcLen);
    if f.adlerD { w := w + Be32(b.adler); }
    if f.crcD { w := w + Be32(crc(data)); }
    ghost var head := w;
    HeadIs(p, f, crc, head);
    if b.srcLen < b.dstLen {
      if f.adlerC {
        var c := AdlerOf(b.payload);
        w := w + Be32(c);
      }
      if f.crcC { w := w + Be32(crc(b.payload)); }
    }
    w := w + b.payload;
    PackedIs(p, f, crc, head, w);
  }

  lemma HeadIs(p: Part, f: Flags, crc: Crc, head: seq<byte>)
    requires Fits(p) && p.b.dstLen < 0x1_0000_0000 && p.b.srcLen < 0x1_0000_0000
    requires head == ((Be32(p.b.dstLen) + Be32(p.b.srcLen)) + Maybe(f.adlerD, Adler(p.data))) +
             Maybe(f.crcD, crc(p.data))
    ensures Written(p, f, crc, []) == head + Packed(p, f, crc, [])
  {
    hide Fits, Maybe, Be32, Adler, Packed;
    var a, b, c, d := Be32(p.b.dstLen), Be32(p.b.srcLen), Maybe(f.adlerD, Adler(p.data)), Maybe(f.crcD, crc(p.data));
    var e := Packed(p, f, crc, []);
    Assoc((a + b) + c, d, e);
    Assoc(a + b, c, d + e);
    Assoc(a, b, c + (d + e));
  }

  lemma PackedIs(p: Part, f: Flags, crc: Crc, head: seq<byte>, w: seq<byte>)
    requires w == (if p.b.srcLen < p.b.dstLen
                   then (head + Maybe(f.adlerC, Adler(p.b.payload))) + Maybe(f.crcC, crc(p.b.payload)) else head) +
                     p.b.payload
    ensures w == head + Packed(p, f, crc, [])
  {
    hide Maybe, Adler;
    var a, b, c := Maybe(f.adlerC, Adler(p.b.payload)), Maybe(f.crcC, crc(p.b.payload)), p.b.payload;
    assert c + [] == c;
    Assoc(head + a, b, c);
    Assoc(head, a, b + c);
  }

  /** The block is what the method gives: the stream of its encoder, optimized for LZO1X-999, if that is shorter than
      the data, and else the data. */
  ghost predicate Made(m: Method, p: Part) {
    match m
    case Lzo1(bits) => exists dict: seq<int> :: MadeBy1(p, dict, bits)
    case Lzo999 => exists pieces: seq<Piece> :: MadeBy999(p, pieces)
  }

  ghost predicate MadeBy1(p: Part, dict: seq<int>, bits: nat) {
    && AllSound(p.ins) && (|p.b.payload| == |p.data| <==> |File(p.ins)| >= |p.data|)
    && (bits == 14 || bits == 15) && |dict| == Pow2(bits) && p.ins == Compressed(p.data, dict, bits)
  }

  ghost predicate MadeBy999(p: Part, pieces: seq<Piece>) {
    Parses(p.data, 0, pieces) && Sparing(pieces) &&
    var coded := CodeAll(p.data, 0, [], pieces);
    && AllSound(coded) && (|p.b.payload| == |p.data| <==> |File(coded)| >= |p.data|)
    && p.ins == if |p.b.payload| < |p.data| then Pass(coded) else coded
  }

  /** All blocks are made by the method, and all but the last are full. */
  ghost predicate AllMade(m: Method, ps: seq<Part>) {
    && (forall i :: 0 <= i < |ps| ==> Made(m, ps[i]) && |ps[i].data| <= LZO_BLOCK_SIZE)
    && forall i :: 0 <= i < |ps| - 1 ==> |ps[i].data| == LZO_BLOCK_SIZE
  }

  /** One block in the method chosen. */
  method PackBlock(m: Method, data: seq<byte>, b2: array<byte>, dict: array<int>, pieces: seq<Piece>)
    returns (b: Block, ghost ins: seq<Instr>)
    requires 0 < |data| <= LZO_BLOCK_SIZE && b2.Length == MaxCompressedSize(LZO_BLOCK_SIZE)
    requires m.Lzo1? ==> (m.bits == 14 || m.bits == 15) && dict.Length == Pow2(m.bits)
    requires m.Lzo999? ==> Parses(data, 0, pieces) && Sparing(pieces)
    modifies b2, dict
    ensures Fits(Part(b, data, ins)) && Made(m, Part(b, data, ins))
  {
    hide Packs, Parses, Sparing, Pow2, Compressed, File, Pass, CodeAll;
    ghost var entries := dict[..];
    match m
    case Lzo1(bits) =>
      b, ins := CompressBlock(data, b2, dict, bits);
      PacksSizes(b, data, ins);
      assert MadeBy1(Part(b, data, ins), entries, bits);
    case Lzo999 =>
      b, ins := CompressBlock999(data, pieces);
      PacksSizes(b, data, ins);
      assert MadeBy999(Part(b, data, ins), pieces);
  }

  lemma PacksSizes(b: Block, data: seq<byte>, ins: seq<Instr>)
    requires Packs(b, data, ins)
    ensures b.srcLen == |b.payload| <= |data|
  {
    hide Good, Stream;
  }

  lemma NoBlocks(m: Method, f: Flags, crc: Crc)
    ensures AllFit([]) && AllMade(m, []) && Blocks([], f, crc, []) == [] && Contents([]) == []
  {
  }

  /** One block more. */
  lemma BlockAdded(m: Method, ps: seq<Part>, p: Part, f: Flags, crc: Crc, file: seq<byte>, w: seq<byte>)
    requires AllFit(ps) && AllMade(m, ps) && file == Blocks(ps, f, crc, [])
    requires Fits(p) && Made(m, p) && |p.data| <= LZO_BLOCK_SIZE && w == Written(p, f, crc, [])
    requires ps != [] ==> |ps[|ps| - 1].data| == LZO_BLOCK_SIZE
    ensures AllFit(ps + [p]) && AllMade(m, ps + [p]) && file + w == Blocks(ps + [p], f, crc, [])
    ensures Contents(ps + [p]) == Contents(ps) + p.data
  {
    hide Fits, Made, Written, Blocks, Contents;
    BlocksTail(ps, f, crc, w);
    BlocksSnoc(ps, p, f, crc, []);
    ContentsSnoc(ps, p);
  }

  /** Compresses all data, block by block, with one dictionary and one buffer, and writes the end mark. */
  method CompressFile(data: seq<byte>, m: Method, f: Flags, crc: Crc, dict: array<int>, parses: seq<seq<Piece>>)
    returns (file: seq<byte>, ghost ps: seq<Part>)
    requires Ready(m, dict, data, parses)
    modifies dict
    ensures AllFit(ps) && file == Blocks(ps, f, crc, Be32(0)) && Contents(ps) == data && AllMade(m, ps)
  {
    hide Fits, Written, Be32, Parses, Sparing, Pow2, MaxCompressedSize, Made, AllMade, AllFit, Blocks, Contents;
    NoBlocks(m, f, crc);
    var b2 := new byte[MaxCompressedSize(LZO_BLOCK_SIZE)];
    var pos, rest := 0, parses;
    file, ps := [], [];
    while pos < |data|
      invariant pos <= |data| && (m.Lzo999? ==> Parsed(data, pos, rest))
      invariant AllFit(ps) && file == Blocks(ps, f, crc, []) && Contents(ps) == data[..pos]
      invariant AllMade(m, ps) && (pos < |data| && ps != [] ==> |ps[|ps| - 1].data| == LZO_BLOCK_SIZE)
    {
      var d := BlockAt(data, pos);
      var b, ins := PackBlock(m, d, b2, dict, if m.Lzo999? then rest[0] else []);
      var w := WriteBlock(b, d, f, crc, ins);
      ghost var p := Part(b, d, ins);
      BlockAdded(m, ps, p, f, crc, file, w);
      assert data[..pos] + d == data[..pos + |d|];
      file, ps, pos := file + w, ps + [p], pos + |d|;
      if m.Lzo999? { rest := rest[1..]; }
    }
    assert data[..|data|] == data;
    BlocksTail(ps, f, crc, Be32(0));
    file := file + Be32(0);
  }

  // ---- lzo_decompress

  lemma TookWord(v: Word, more: seq<byte>, w: Word, tail: seq<byte>)
    requires Be32(v) + more == Be32(w) + tail
    ensures v == w && more == tail
  {
    hide Be32;
    var s := Be32(v) + more;
    assert Be32(v) == s[..4] == Be32(w) && more == s[4..] == tail;
    WordIs(v, w);
  }

  /** read32: the next word, if there is one. */
  method Read32(rest: seq<byte>) returns (v: Option<Word>, more: seq<byte>)
    ensures |rest| < 4 ==> v.None?
    ensures |rest| >= 4 ==> v.Some? && rest == Be32(v.value) + more
  {
    if |rest| < 4 { return None, rest; }
    assert rest == rest[..4] + rest[4..];
    return Some(Word32(rest[..4])), rest[4..];
  }

  /** A word that is read only under a flag. */
  method ReadMaybe(on: bool, rest: seq<byte>, ghost w: Word, ghost tail: seq<byte>)
    returns (v: Option<Word>, more: seq<byte>)
    requires rest == Maybe(on, w) + tail
    ensures v.Some? && more == tail && (on ==> v.value == w)
  {
    hide Be32;
    v, more := Some(0), rest;
    if on {
      v, more := Read32(rest);
      TookWord(v.value, more, w, tail);
    }
  }

  /** The checksums in front of a block; those that the file does not have are left open. */
  datatype Sums4 = Sums4(dAdler: Word, dCrc: Word, cAdler: Word, cCrc: Word)

  ghost predicate SumsOf(h: Sums4, p: Part, f: Flags, crc: Crc) {
    && (f.adlerD ==> h.dAdler == Adler(p.data)) && (f.crcD ==> h.dCrc == crc(p.data))
    && (p.b.srcLen < p.b.dstLen && f.adlerC ==> h.cAdler == Adler(p.b.payload))
    && (p.b.srcLen < p.b.dstLen && f.crcC ==> h.cCrc == crc(p.b.payload))
  }

  method ReadSums(rest: seq<byte>, packed: bool, f: Flags, crc: Crc, ghost p: Part, ghost tail: seq<byte>)
    returns (h: Option<Sums4>, more: seq<byte>)
    requires packed == (p.b.srcLen < p.b.dstLen)
    requires rest == Sums(p, f, crc, tail)
    ensures h.Some? && SumsOf(h.value, p, f, crc) && more == p.b.payload + tail
  {
    hide Maybe, Adler;
    var a, b, c, d;
    ghost var e := Packed(p, f, crc, tail);
    a, more := ReadMaybe(f.adlerD, rest, Adler(p.data), Maybe(f.crcD, crc(p.data)) + e);
    if a.None? { return None, more; }
    b, more := ReadMaybe(f.crcD, more, crc(p.data), e);
    if b.None? { return None, more; }
    c, d := Some(0), Some(0);
    if packed {
      ghost var q := p.b.payload;
      c, more := ReadMaybe(f.adlerC, more, Adler(q), Maybe(f.crcC, crc(q)) + (q + tail));
      if c.None? { return None, more; }
      d, more := ReadMaybe(f.crcC, more, crc(q), q + tail);
      if d.None? { return None, more; }
    }
    h := Some(Sums4(a.value, b.value, c.value, d.value));
  }

  /** Do the bytes have the checksums that the file gives? */
  method Check(data: seq<byte>, adler: bool, a: Word, useCrc: bool, c: Word, crc: Crc) returns (ok: bool)
    ensures ok <==> (adler ==> Adler(data) == a) && (useCrc ==> crc(data) == c)
  {
    ok := true;
    if adler {
      var s := AdlerOf(data);
      ok := s == a;
    }
    if ok && useCrc { ok := crc(data) == c; }
  }

  /** One block: its bytes go to the end of the buffer and, if they are fewer than the data, are decompressed there;
      all checksums are compared unless that is switched off. */
  method UnpackChecked(rest: seq<byte>, dstLen: nat, srcLen: nat, h: Sums4, buf: array<byte>, f: Flags, fast: bool,
                       crc: Crc, ghost p: Part, ghost tail: seq<byte>)
    returns (r: Option<seq<byte>>, more: seq<byte>)
    requires Fits(p) && dstLen == p.b.dstLen && srcLen == p.b.srcLen && SumsOf(h, p, f, crc)
    requires rest == p.b.payload + tail && buf.Length >= MaxCompressedSize(dstLen)
    modifies buf
    ensures r == Some(p.data) && more == tail
  {
    hide Packs, Adler, MaxCompressedSize;
    FitsWords(p);
    var payload := rest[..srcLen];
    more := rest[srcLen..];
    assert payload == p.b.payload && more == tail;
    if srcLen < dstLen && !fast {
      var ok := Check(payload, f.adlerC, h.cAdler, f.crcC, h.cCrc, crc);
      if !ok { return None, more; }
    }
    r := UnpackBlock(payload, dstLen, buf, p.b, p.data, p.ins);
    if r.None? { return; }
    if !fast {
      var ok := Check(r.value, f.adlerD, h.dAdler, f.crcD, h.dCrc, crc);
      if !ok { return None, more; }
    }
  }

  lemma NextBlock(ps: seq<Part>, f: Flags, crc: Crc, i: nat)
    requires i <= |ps| && AllFit(ps)
    ensures AllFit(ps[i..]) && |Blocks(ps[i..], f, crc, Be32(0))| >= 4
    ensures i < |ps| ==> Fits(ps[i]) && AllFit(ps[i + 1..])
    ensures Blocks(ps[i..], f, crc, Be32(0))
            == if i == |ps| then Be32(0) else Written(ps[i], f, crc, Blocks(ps[i + 1..], f, crc, Be32(0)))
  {
    hide Fits, Be32, Maybe, Packed;
    if i < |ps| { assert ps[i..][1..] == ps[i + 1..] && ps[i..][0] == ps[i]; }
  }

  /** The first word is zero only at the end. */
  lemma FirstWord(ps: seq<Part>, f: Flags, crc: Crc, i: nat, v: Word, more: seq<byte>)
    requires i <= |ps| && AllFit(ps) && Blocks(ps[i..], f, crc, Be32(0)) == Be32(v) + more
    ensures v == 0 <==> i == |ps|
    ensures i < |ps| ==> v == ps[i].b.dstLen && ps[i].b.srcLen < 0x1_0000_0000
    ensures i < |ps| ==>
            more == Be32(ps[i].b.srcLen) + Sums(ps[i], f, crc, Blocks(ps[i + 1..], f, crc, Be32(0)))
  {
    hide Fits, Be32, Maybe, Packed, Adler;
    NextBlock(ps, f, crc, i);
    if i == |ps| {
      assert Be32(0) + [] == Be32(0);
      TookWord(v, more, 0, []);
    } else {
      var p := ps[i];
      FitsWords(p);
      TookWord(v, more, p.b.dstLen, Be32(p.b.srcLen) + Sums(p, f, crc, Blocks(ps[i + 1..], f, crc, Be32(0))));
    }
  }

  /** The length of the bytes, which must be from one to that of the data. */
  method ReadLength(dst: Word, rest: seq<byte>, f: Flags, crc: Crc, ghost p: Part, ghost tail: seq<byte>)
    returns (src: Option<Word>, more: seq<byte>)
    requires Fits(p) && dst == p.b.dstLen && p.b.srcLen < 0x1_0000_0000
    requires rest == Be32(p.b.srcLen) + Sums(p, f, crc, tail)
    ensures src == Some(p.b.srcLen) && more == Sums(p, f, crc, tail)
  {
    hide Fits, Be32, Sums;
    FitsWords(p);
    FitsBlock(p);
    if dst == 0xffff_ffff || dst > MAX_BLOCK_SIZE { return None, rest; }
    src, more := Read32(rest);
    if src.None? { return; }
    TookWord(src.value, more, p.b.srcLen, Sums(p, f, crc, tail));
    if src.value <= 0 || src.value > dst { return None, more; }
  }

  lemma FitsBlock(p: Part)
    requires Fits(p)
    ensures |p.data| <= MAX_BLOCK_SIZE
  {
    hide Packs;
  }

  lemma LargerSize(a: nat, b: nat)
    requires a <= b
    ensures MaxCompressedSize(a) <= MaxCompressedSize(b)
  {
  }

  /** Reads blocks up to the end mark. One buffer serves for all, and gives way to a larger one for a larger block; none
      of the errors can occur on what was written. */
  method DecompressFile(file: seq<byte>, f: Flags, fast: bool, crc: Crc, ghost ps: seq<Part>)
    returns (r: Option<seq<byte>>)
    requires AllFit(ps) && file == Blocks(ps, f, crc, Be32(0))
    ensures r == Some(Contents(ps))
  {
    hide Fits, Written, Be32, MaxCompressedSize, Sums, SumsOf, Blocks;
    var rest, out := file, [];
    var blockSize: nat := LZO_BLOCK_SIZE;
    var b2: array?<byte> := null;
    ghost var i := 0;
    assert ps[0..] == ps && ps[..0] == [];
    while true
      invariant 0 <= i <= |ps| && rest == Blocks(ps[i..], f, crc, Be32(0)) && out == Contents(ps[..i])
      invariant b2 != null ==> fresh(b2) && b2.Length == MaxCompressedSize(blockSize)
      decreases |ps| - i
    {
      NextBlock(ps, f, crc, i);
      var dst, more := Read32(rest);
      if dst.None? { return None; }
      FirstWord(ps, f, crc, i, dst.value, more);
      if dst.value == 0 {
        assert ps[..i] == ps;
        return Some(out);
      }
      ghost var p, tail := ps[i], Blocks(ps[i + 1..], f, crc, Be32(0));
      var src;
      src, more := ReadLength(dst.value, more, f, crc, p, tail);
      if src.None? { return None; }
      var h;
      h, more := ReadSums(more, src.value < dst.value, f, crc, p, tail);
      if h.None? { return None; }
      if dst.value > blockSize { b2, blockSize := null, dst.value; }
      if b2 == null { b2 := new byte[MaxCompressedSize(blockSize)]; }
      LargerSize(dst.value, blockSize);
      var d;
      d, rest := UnpackChecked(more, dst.value, src.value, h.value, b2, f, fast, crc, p, tail);
      if d.None? { return None; }
      out := out + d.value;
      ContentsSnoc(ps[..i], p);
      assert ps[..i] + [p] == ps[..i + 1];
      i := i + 1;
    }
  }

  // ---- both

  /** Whatever the method, its dictionary, the parses it makes within its tests and the checksums chosen: what is
      compressed and then decompressed comes back. */
  method RoundTripFile(data: seq<byte>, m: Method, entries: seq<int>, parses: seq<seq<Piece>>, f: Flags, fast: bool,
                       crc: Crc)
    returns (r: Option<seq<byte>>)
    requires m.Lzo1? ==> (m.bits == 14 || m.bits == 15) && |entries| == Pow2(m.bits)
    requires m.Lzo999? ==> Parsed(data, 0, parses)
    ensures r == Some(data)
  {
    hide Pow2, Parsed, Blocks, AllFit;
    var dict := new int[|entries|](i requires 0 <= i < |entries| => entries[i]);
    var file, ps := CompressFile(data, m, f, crc, dict, parses);
    r := DecompressFile(file, f, fast, crc, ps);
  }
}
