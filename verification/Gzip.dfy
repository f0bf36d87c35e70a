/** zip of gzip.c: the gzip file around the deflated data, and a reader for it written from section 2.3 of RFC 1952. */
module Gzip {
  import opened Bits
  import opened Inflate
  import opened Crc32
  import opened SlidingWindow
  import opened BitWriter
  import opened TokenBuffer
  import opened BlockEncoder
  import opened Deflate

  /** A 32 bit number, least significant byte first. */
  function Word32(n: nat): (w: seq<byte>)
    ensures |w| == 4
  {
    WordBytes(n % 65536) + WordBytes(n / 65536 % 65536)
  }

  /** The ten bytes in front of the compressed data. */
  function Header(time: nat): (h: seq<byte>)
    ensures |h| == 10
  {
    Word32(0x00088b1f) + Word32(time) + [2, 3]
  }

  /** What section 2.3 of RFC 1952 calls a member: its time, extra flags, operating system and data. */
  datatype Member = Member(time: nat, extra: byte, system: byte, data: seq<byte>)

  /** A number written least significant byte first. */
  function Number(b: seq<byte>): nat { if b == [] then 0 else b[0] as int + 256 * Number(b[1..]) }

  /** Reads a gzip file without optional fields; the checksum and the size must agree. */
  ghost function ReadGzip(file: seq<byte>): Option<Member> {
    if |file| < 18 || file[..4] != [0x1f, 0x8b, 8, 0] then None
    else
      match DecodeBlocks(BytesToBits(file), 80, [])
      case Bad => None
      case Good(data, end) =>
        var p := BytesFor(end);
        if |file| == p + 8 && Number(file[p..p + 4]) == Crc(data) && Number(file[p + 4..]) == |data| % 0x1_0000_0000
        then Some(Member(Number(file[4..8]), file[8], file[9], data)) else None
  }

  lemma NumberOfWord(n: nat)
    ensures Number(Word32(n)) == n % 0x1_0000_0000
  {
    var a, b := n % 65536, n / 65536 % 65536;
    NumberOfBytes(a % 256, a / 256, b % 256, b / 256);
    LowWord(n);
  }

  lemma NumberOfBytes(a: byte, b: byte, c: byte, d: byte)
    ensures Number([a, b, c, d]) == a as int + 256 * b as int + 65536 * c as int + 0x100_0000 * d as int
  {
    assert [a, b, c, d][1..] == [b, c, d] && [b, c, d][1..] == [c, d] && [c, d][1..] == [d] && [d][1..] == [];
    assert Number([d]) == d as int;
    assert Number([c, d]) == c as int + 256 * d as int;
  }

  lemma LowWord(n: nat)
    ensures n % 65536 + 65536 * (n / 65536 % 65536) == n % 0x1_0000_0000
  {
    var q := n / 65536;
    RollingHash.ModIs(n, q / 65536, 0x1_0000_0000, n % 65536 + 65536 * (q % 65536));
  }

  lemma ByteOfBits(a: byte, b: byte)
    requires Lsb(a, 8) == Lsb(b, 8)
    ensures a == b
  {
    Pow2Words();
    ValueOfLsb(a, 8);
    ValueOfLsb(b, 8);
  }

  /** Bytes are determined by their bits. */
  lemma {:induction false} PrefixOfBits(a: seq<byte>, b: seq<byte>)
    requires BytesToBits(a) <= BytesToBits(b)
    ensures a <= b
    decreases |a|
  {
    hide BytesToBits, Lsb;
    if a != [] {
      var n := |a| - 1;
      var p, q := a[..n], b[..n];
      assert a == p + [a[n]] && b == (q + [b[n]]) + b[n + 1..];
      BytesToBitsConcat(p, [a[n]]);
      BytesToBitsConcat(q + [b[n]], b[n + 1..]);
      BytesToBitsConcat(q, [b[n]]);
      var x, y := BytesToBits(p), BytesToBits(q);
      assert x == BytesToBits(b)[..8 * n];
      assert y == BytesToBits(b)[..8 * n];
      PrefixOfBits(p, b);
      BytesToBitsOne(a[n]);
      BytesToBitsOne(b[n]);
      assert Lsb(a[n], 8) == BytesToBits(b)[8 * n..8 * n + 8];
      assert Lsb(b[n], 8) == BytesToBits(b)[8 * n..8 * n + 8];
      ByteOfBits(a[n], b[n]);
    }
  }

  /** The file put together from its parts is read back. */
  lemma FileReadBack(time: nat, bytes: seq<byte>, data: seq<byte>, end: nat, crc: nat, size: nat)
    requires BytesToBits(Header(time)) <= BytesToBits(bytes) && end <= 8 * |bytes| < end + 8
    requires forall bits :: BytesToBits(bytes) <= bits ==> DecodeBlocks(bits, 80, []) == Good(data, end)
    requires crc == Crc(data) && size == |data| % 0x1_0000_0000
    ensures ReadGzip(bytes + Word32(crc) + Word32(size)) == Some(Member(time % 0x1_0000_0000, 2, 3, data))
  {
    hide BytesToBits, DecodeBlocks, Remainder, Word32, Number, Header;
    PrefixOfBits(Header(time), bytes);
    HeaderFields(time);
    var t := Word32(crc) + Word32(size);
    var file, n := bytes + t, |bytes|;
    assert bytes + Word32(crc) + Word32(size) == file;
    BytesToBitsConcat(bytes, t);
    FileParts(bytes, Word32(crc), Word32(size), Header(time));
    CrcWord(data);
    NumberOfWord(crc);
    NumberOfWord(size);
  }

  lemma CrcWord(data: seq<byte>)
    ensures 0 <= Crc(data) < 0x1_0000_0000
  {
    hide Remainder;
    RemainderBound(ULONG_MAX, data);
  }

  lemma FileParts(bytes: seq<byte>, a: seq<byte>, b: seq<byte>, head: seq<byte>)
    requires |a| == |b| == 4 && |head| == 10 && head <= bytes
    ensures var file, n := bytes + (a + b), |bytes|;
            && file[n..n + 4] == a && file[n + 4..] == b && file[..4] == head[..4]
            && file[4..8] == head[4..8] && file[8] == head[8] && file[9] == head[9]
  {
    var file, n := bytes + (a + b), |bytes|;
    assert file[..n] == bytes && file[n..] == a + b;
  }

  /** The header without naming how it is written. */
  lemma HeaderFields(time: nat)
    ensures var h := Header(time);
            h[..4] == [0x1f, 0x8b, 8, 0] && Number(h[4..8]) == time % 0x1_0000_0000 && h[8] == 2 && h[9] == 3
  {
    var h := Header(time);
    NumberOfWord(time);
    assert h[4..8] == Word32(time);
    assert Word32(0x00088b1f) == [0x1f, 0x8b, 8, 0];
  }

  method Put32(out: Output, n: nat)
    requires out.Buffered()
    modifies out`outcnt, out`written, out`bytes, out.outbuf
    ensures out.Buffered() && out.bytes == old(out.bytes) + Word32(n)
  {
    out.Put16(n % 65536);
    out.Put16(n / 65536 % 65536);
  }

  /** Nothing but the whole bytes `bytes` is put out yet. */
  ghost predicate Idle(e: Encoder, bytes: seq<byte>)
    reads e.Repr()
  {
    e.Valid() && e.tb.tokens == [] && e.log == [] && e.compressedLen == 0 && e.out.bytes == bytes &&
      e.out.biValid == 0 && e.out.biBuf == 0
  }

  method PutHeader32(e: Encoder, n: nat, ghost before: seq<byte>)
    requires Idle(e, before)
    modifies e.out, e.out.outbuf
    ensures Idle(e, before + Word32(n))
  {
    hide Word32, Encoder.Layout, Encoder.Sizes, Encoder.Statics, Encoder.BlClear, Counted, Tokens.Valid,
         StaticTables.Correct, Output.Buffered;
    LayoutBytes(e);
    Put32(e.out, n);
  }

  method PutHeader8(e: Encoder, c: byte, ghost before: seq<byte>)
    requires Idle(e, before)
    modifies e`skip, e.out, e.out.outbuf
    ensures Idle(e, before + [c]) && e.skip == |before| + 1
  {
    hide Encoder.Layout, Encoder.Sizes, Encoder.Statics, Encoder.BlClear, Counted, Tokens.Valid, StaticTables.Correct,
         Output.Buffered;
    LayoutBytes(e);
    e.out.Put8(c);
    e.skip := |before| + 1;
  }

  lemma IdleCounts(e: Encoder, bytes: seq<byte>)
    requires Idle(e, bytes) && e.skip == |bytes|
    ensures e.Valid() && e.tb.tokens == [] && e.log == [] && Counts(e.compressedLen, |e.out.Sent()|, e.skip)
    ensures e.out.Sent() == BytesToBits(bytes)
  {
    StreamWhole(bytes);
  }

  lemma OutputParts(e: Encoder)
    ensures {e, e.out, e.out.outbuf} <= e.Parts()
  {
  }

  /** Writes the whole gzip file; reading it back gives exactly the bytes read from the input. */
  method Zip(m: Window, e: Encoder, src: Input, timeStamp: nat)
    requires Apart(m, e) && Empty(m) && src !in e.Repr() && Idle(e, [])
    requires src.Valid() && src.pos == 0 && Filled(src.table)
    modifies m, m.window, m.prev, m.head, src, e.Parts()
    ensures src.Valid() && (src.pos == |src.data| || 0 in old(src.limits))
    ensures ReadGzip(e.out.written) == Some(Member(timeStamp % 0x1_0000_0000, 2, 3, src.data[..src.pos]))
  {
    hide Idle, Encoder.Parts, Encoder.Repr, Encoder.Valid, Counts, Output.Sent, BytesToBits, DecodeBlocks, Register,
         ReadGzip, Word32, Started, Filled;
    PartsOnly(e);
    OutputParts(e);
    ghost var limits := src.limits;
    ghost var magic := [] + Word32(0x00088b1f) + Word32(timeStamp);
    PutHeader32(e, 0x00088b1f, []);
    PutHeader32(e, timeStamp, [] + Word32(0x00088b1f));
    LmInit(m, src, limits);
    PutHeader8(e, 2, magic);
    PutHeader8(e, 3, magic + [2]);
    assert magic + [2] + [3] == Header(timeStamp);
    IdleCounts(e, Header(timeStamp));
    var r, end, found := DeflateAll(m, e, src, limits);
    WriteTrailer(e.out, src, timeStamp, end);
  }

  /** Writes the checksum and the size, and everything still buffered. */
  method WriteTrailer(out: Output, src: Input, ghost timeStamp: nat, ghost end: nat)
    requires out.Valid() && out.biValid == 0 && out.Sent() == BytesToBits(out.bytes) && end <= |out.Sent()| < end + 8
    requires src.Valid() && Filled(src.table) && BytesToBits(Header(timeStamp)) <= out.Sent()
    requires forall bits :: out.Sent() <= bits ==> DecodeBlocks(bits, 80, []) == Good(src.data[..src.pos], end)
    modifies out`outcnt, out`written, out`bytes, out.outbuf
    ensures ReadGzip(out.written) == Some(Member(timeStamp % 0x1_0000_0000, 2, 3, src.data[..src.pos]))
  {
    hide Output.Sent, BytesToBits, DecodeBlocks, Register, Remainder, ReadGzip, Word32, Header, Filled;
    ghost var bytes, data := out.bytes, src.data[..src.pos];
    RegisterIsRemainder(src.table, ULONG_MAX, data);
    CrcWord(data);
    FileReadBack(timeStamp, bytes, data, end, ULONG_MAX - src.crc, src.isize);
    Put32(out, ULONG_MAX - src.crc);
    Put32(out, src.isize);
    out.FlushOutbuf();
  }

  /** Compresses `data`, read in pieces of at most `limits`: the file is read back as the bytes read, which are all
      unless a read gave nothing. */
  method Pack(data: seq<byte>, limits: seq<nat>, timeStamp: nat) returns (file: seq<byte>, n: nat)
    ensures n <= |data| && (n == |data| || 0 in limits)
    ensures ReadGzip(file) == Some(Member(timeStamp % 0x1_0000_0000, 2, 3, data[..n]))
  {
    hide Register, ReadGzip, Encoder.Valid, DecodeBlocks, Encoder.Repr;
    var table := FillTable();
    var e := new Encoder();
    NewParts(e);
    var src := new Input(data, limits, table);
    var m := new Window();
    NewIdle(e);
    Zip(m, e, src, timeStamp);
    file, n := e.out.written, src.pos;
  }

  lemma NewParts(e: Encoder)
    ensures forall o :: o in e.Repr() ==> allocated(o)
  {
  }

  lemma NewIdle(e: Encoder)
    requires e.Valid() && e.tb.tokens == [] && e.log == [] && e.compressedLen == 0 && e.out.bytes == []
    requires e.out.biValid == 0
    ensures Idle(e, [])
  {
  }
}
