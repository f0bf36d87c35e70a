/** The block layer of lzop.c: compress with LZO1X-1 or LZO1X-999 or store, and decompress in one buffer. */
module LzopBlocks {
  import opened Bits
  import opened LzoFormat
  import opened LzoDecode
  import opened LzoSize
  import opened LzoEncode
  import opened LzoCompress
  import opened Lzo999
  import opened LzoRewrite
  import opened LzoOptimize
  import opened Adler32

  const ADLER32_INIT_VALUE := 1

  /** A block of the file: both lengths, the checksum of the data, and the bytes, compressed if that makes them
      fewer. */
  datatype Block = Block(dstLen: nat, srcLen: nat, adler: nat, payload: seq<byte>)

  /** What lzo_compress writes for a block: a stream that stands for the data, or the data itself. */
  ghost predicate Packs(b: Block, data: seq<byte>, ins: seq<Instr>) {
    && b.dstLen == |data| && b.srcLen == |b.payload| <= |data|
    && b.adler == Pack(Checksum(Unpack(ADLER32_INIT_VALUE), data))
    && (b.srcLen == |data| ==> b.payload == data)
    && (b.srcLen < |data| ==> Good(ins, data, true) && AllSound(ins) && b.payload == File(ins))
  }

  /** A block compressed with LZO1X-1, whatever the dictionary and the buffer hold. */
  method CompressBlock(data: seq<byte>, b2: array<byte>, dict: array<int>, bits: nat)
    returns (b: Block, ghost ins: seq<Instr>)
    requires (bits == 14 || bits == 15) && dict.Length == Pow2(bits) && |data| > 0
    requires b2.Length >= MaxCompressedSize(|data|)
    modifies b2, dict
    ensures Packs(b, data, ins) && AllSound(ins) && (b.srcLen == |data| <==> |File(ins)| >= |data|)
    ensures ins == Compressed(data, old(dict[..]), bits)
  {
    hide Good, Pow2, File, MaxCompressedSize, Checksum, Pack;
    FirstSums();
    var adler := LzoAdler32(ADLER32_INIT_VALUE, Some(data));
    var dstLen;
    dstLen, ins := Compress(data, b2, dict, bits);
    if dstLen < |data| {
      b := Block(|data|, dstLen, adler, b2[..dstLen]);
    } else {
      b := Block(|data|, |data|, adler, data);
    }
  }

  /** A block compressed with LZO1X-999, whatever parse the match finder chose, and optimized; neither internal error
      can occur. */
  method CompressBlock999(data: seq<byte>, pieces: seq<Piece>) returns (b: Block, ghost ins: seq<Instr>)
    requires Parses(data, 0, pieces) && Sparing(pieces) && |data| > 0
    ensures Packs(b, data, ins)
    ensures var coded := CodeAll(data, 0, [], pieces);
            && AllSound(coded) && (b.srcLen == |data| <==> |File(coded)| >= |data|)
            && ins == if b.srcLen < |data| then Pass(coded) else coded
  {
    hide Good, File, MaxCompressedSize, Checksum, Pack, Parses, Sparing, Pass;
    FirstSums();
    var adler := LzoAdler32(ADLER32_INIT_VALUE, Some(data));
    ParseFits(data, pieces);
    var c := new Coder(MaxCompressedSize(|data|));
    var dstLen;
    dstLen, ins := Encode(c, data, pieces);
    if dstLen < |data| {
      var b1 := new byte[|data|](i requires 0 <= i < |data| => data[i]);
      GoodStream(ins, data);
      var code, newLen;
      code, newLen, ins := Optimize(c.out, dstLen, b1, ins, data, true);
      assert code == Ok && newLen == |data|;
      StreamGood(ins, data);
      b := Block(|data|, dstLen, adler, c.out[..dstLen]);
    } else {
      b := Block(|data|, |data|, adler, data);
    }
  }

  /** A sparing parse fits the buffer. */
  lemma ParseFits(data: seq<byte>, pieces: seq<Piece>)
    requires Parses(data, 0, pieces) && Sparing(pieces)
    ensures AllSound(CodeAll(data, 0, [], pieces)) && |File(CodeAll(data, 0, [], pieces))| <= MaxCompressedSize(|data|)
  {
    hide Good, Stream, Parses, Sparing, CodeAll;
    NoPieces(data, pieces, []);
    CodeAllGood(data, 0, [], pieces, true);
    GoodFits(CodeAll(data, 0, [], pieces), data, |data|);
  }

  lemma StreamGood(ins: seq<Instr>, data: seq<byte>)
    requires WellFormed(Start, ins) && AllSound(ins) && Lean(Start, ins) && Expand([], ins) == Some(data)
    ensures Good(ins, data, true)
  {
    hide WellFormed, AllSound, Lean, Expand;
  }

  lemma FirstSums()
    ensures Reduced(Unpack(ADLER32_INIT_VALUE))
  {
  }

  /** Reads the bytes into the end of the buffer, whatever it held, and decompresses them in place if need be. */
  method UnpackBlock(payload: seq<byte>, dstLen: nat, buf: array<byte>, ghost b: Block, ghost data: seq<byte>,
                     ghost ins: seq<Instr>)
    returns (r: Option<seq<byte>>)
    requires Packs(b, data, ins) && payload == b.payload && dstLen == b.dstLen
    requires buf.Length >= MaxCompressedSize(b.dstLen) && |data| < 0x1_0000_0000
    modifies buf
    ensures r == Some(data)
  {
    hide Good, MaxCompressedSize, Checksum, Pack, Stream;
    SizeAtLeast(dstLen);
    var size, srcLen := buf.Length, |payload|;
    var b1 := size - srcLen;
    forall i | 0 <= i < srcLen { buf[b1 + i] := payload[i]; }
    assert buf[b1..size] == payload;
    if srcLen < dstLen {
      GoodStream(ins, data);
      var code, d := DecompressInPlace(buf, 0, size, srcLen, dstLen, ins);
      if code != Ok || d != dstLen { return None; }
      assert buf[..dstLen] == buf[0..0 + dstLen];
      r := Some(buf[..dstLen]);
    } else {
      r := Some(buf[b1..b1 + srcLen]);
    }
  }

  /** Decompresses a block in a buffer of its own, and compares length and checksum. */
  method DecompressBlock(b: Block, size: nat, ghost data: seq<byte>, ghost ins: seq<Instr>)
    returns (r: Option<seq<byte>>)
    requires Packs(b, data, ins) && size >= MaxCompressedSize(b.dstLen) && |data| < 0x1_0000_0000
    ensures r == Some(data)
  {
    hide Good, MaxCompressedSize, Checksum, Pack, Stream;
    var buf := new byte[size];
    r := UnpackBlock(b.payload, b.dstLen, buf, b, data, ins);
    if r.None? { return None; }
    FirstSums();
    var c := LzoAdler32(ADLER32_INIT_VALUE, Some(r.value));
    if c != b.adler { return None; }
  }

  lemma GoodStream(ins: seq<Instr>, data: seq<byte>)
    requires Good(ins, data, true)
    ensures WellFormed(Start, ins) && AllSound(ins) && Lean(Start, ins) && Expand([], ins) == Some(data)
  {
    hide WellFormed, AllSound, Lean, Expand;
  }

  /** Whatever the dictionary holds, a block that is compressed and decompressed comes back, in place and with its
      checksum. */
  method RoundTripBlock(data: seq<byte>, entries: seq<int>, bits: nat) returns (r: Option<seq<byte>>)
    requires (bits == 14 || bits == 15) && |entries| == Pow2(bits) && 0 < |data| < 0x1_0000_0000
    ensures r == Some(data)
  {
    hide Packs, Pow2, MaxCompressedSize;
    var dict := new int[Pow2(bits)](i requires 0 <= i < |entries| => entries[i]);
    var b2 := new byte[MaxCompressedSize(|data|)];
    var b, ins := CompressBlock(data, b2, dict, bits);
    PacksLength(b, data, ins);
    r := DecompressBlock(b, MaxCompressedSize(b.dstLen), data, ins);
  }

  lemma PacksLength(b: Block, data: seq<byte>, ins: seq<Instr>)
    requires Packs(b, data, ins)
    ensures b.dstLen == |data|
  {
    hide Good;
  }

  /** The same for LZO1X-999 with its optimizer, for every parse that its tests allow. */
  method RoundTripBlock999(data: seq<byte>, pieces: seq<Piece>) returns (r: Option<seq<byte>>)
    requires Parses(data, 0, pieces) && Sparing(pieces) && 0 < |data| < 0x1_0000_0000
    ensures r == Some(data)
  {
    hide Packs, MaxCompressedSize, Parses, Sparing;
    var b, ins := CompressBlock999(data, pieces);
    PacksLength(b, data, ins);
    r := DecompressBlock(b, MaxCompressedSize(b.dstLen), data, ins);
  }
}
