/** The output side of gzip.c: the byte buffer in front of the descriptor and the 16-bit bit buffer. */
module BitWriter {
  import opened Bits

  const OUTBUFSIZ := 8192

  /** The bit string of some whole bytes and the `valid` bits waiting in `buf`. */
  ghost function Stream(bytes: seq<byte>, buf: nat, valid: nat): seq<bool> {
    BytesToBits(bytes) + Lsb(buf, valid)
  }

  /** The 16-bit result of `buf | value << valid`. */
  method OrShifted(buf: nat, value: nat, valid: nat) returns (w: nat)
    requires buf < Pow2(valid)
    ensures w == (buf + Shl(value, valid)) % 65536
  {
    BitOrDisjoint(buf, value, valid);
    w := BitOr(buf, Shl(value, valid)) % 65536;
  }

  class Output {
    const outbuf: array<byte>
    var outcnt: nat
    /** Everything handed to the output descriptor so far. */
    var written: seq<byte>
    var biBuf: nat
    var biValid: nat

    /** All complete bytes produced so far, written or still buffered. */
    ghost var bytes: seq<byte>

    ghost predicate Buffered()
      reads this`outcnt, this`written, this`bytes, outbuf
    {
      outbuf.Length == OUTBUFSIZ && outcnt < OUTBUFSIZ && bytes == written + outbuf[..outcnt]
    }

    ghost predicate Valid()
      reads this, outbuf
    {
      Buffered() && biValid <= 16 && biBuf < Pow2(biValid)
    }

    /** The bit string sent so far, including the bits waiting in `biBuf`. */
    ghost function Sent(): seq<bool>
      reads this
    {
      Stream(bytes, biBuf, biValid)
    }

    constructor ()
      ensures Valid() && fresh(outbuf)
      ensures bytes == [] && biValid == 0 && Sent() == []
    {
      outbuf := new byte[OUTBUFSIZ];
      outcnt := 0;
      written := [];
      bytes := [];
      biBuf, biValid := 0, 0;
    }

    method FlushOutbuf()
      requires outbuf.Length == OUTBUFSIZ && outcnt <= OUTBUFSIZ
      modifies this`outcnt, this`written
      ensures outcnt == 0 && written == old(written + outbuf[..outcnt])
    {
      if outcnt == 0 { return; }
      written := written + outbuf[..outcnt];
      outcnt := 0;
    }

    method Put8(c: byte)
      requires Buffered()
      modifies this`outcnt, this`written, this`bytes, outbuf
      ensures Buffered() && bytes == old(bytes) + [c]
    {
      outbuf[outcnt] := c;
      outcnt := outcnt + 1;
      bytes := bytes + [c];
      assert outbuf[..outcnt] == old(outbuf[..outcnt]) + [c];
      if outcnt == OUTBUFSIZ { FlushOutbuf(); }
    }

    /** Puts a 16 bit value, low byte first. */
    method Put16(w: nat)
      requires Buffered() && w < 65536
      modifies this`outcnt, this`written, this`bytes, outbuf
      ensures Buffered() && bytes == old(bytes) + WordBytes(w)
    {
      if outcnt < OUTBUFSIZ - 2 {
        outbuf[outcnt] := w % 256;
        outbuf[outcnt + 1] := w / 256;
        outcnt := outcnt + 2;
        bytes := bytes + WordBytes(w);
        assert outbuf[..outcnt] == old(outbuf[..outcnt]) + WordBytes(w);
      } else {
        Put8(w % 256);
        Put8(w / 256);
      }
    }

    /** Sends the `length` low bits of `value`. */
    method SendBits(value: nat, length: nat)
      requires Valid() && length <= 16 && value < Pow2(length)
      modifies this, outbuf
      ensures Valid() && Sent() == old(Sent()) + Lsb(value, length)
    {
      hide BytesToBits, Lsb, Pow2, Shl, Shr, Stream;
      if biValid > 16 - length {
        SpillWord(bytes, biBuf, biValid, value, length);
        biBuf := OrShifted(biBuf, value, biValid);
        Put16(biBuf);
        biBuf := Shr(value, 16 - biValid);
        biValid := biValid + length - 16;
      } else {
        KeepWord(bytes, biBuf, biValid, value, length);
        biBuf := OrShifted(biBuf, value, biValid);
        biValid := biValid + length;
      }
    }

    /** Writes out the bits of an incomplete byte, padded with zero bits. */
    method BiWindup()
      requires Valid()
      modifies this, outbuf
      ensures Valid() && biValid == 0
      ensures Sent() == old(Sent()) + Lsb(0, Align(|old(Sent())|))
      ensures Sent() == BytesToBits(bytes)
    {
      hide BytesToBits, Align;
      AlignAfter(|bytes|, biValid);
      if biValid > 8 {
        WindupWord(bytes, biBuf, biValid);
        Put16(biBuf);
      } else if biValid > 0 {
        WindupByte(bytes, biBuf, biValid);
        Put8(biBuf);
      }
      biBuf := 0;
      biValid := 0;
    }

    method PutBytes(buf: seq<byte>)
      requires Buffered()
      modifies this`outcnt, this`written, this`bytes, outbuf
      ensures Buffered() && bytes == old(bytes) + buf
    {
      for i := 0 to |buf|
        invariant Buffered() && bytes == old(bytes) + buf[..i]
      {
        Put8(buf[i]);
      }
      assert buf[..|buf|] == buf;
    }

    /** Copies a stored block: the length and its complement if requested, then the bytes. */
    method CopyBlock(buf: seq<byte>, header: bool)
      requires Valid() && |buf| < 65536
      modifies this, outbuf
      ensures Valid() && biValid == 0
      ensures Sent() == old(Sent()) + Lsb(0, Align(|old(Sent())|))
                        + (if header then (Lsb(|buf|, 16) + Lsb(65535 - |buf|, 16)) + BytesToBits(buf)
                          else BytesToBits(buf))
    {
      hide BytesToBits, Lsb;
      BiWindup();
      ghost var aligned := bytes;
      if header {
        Put16(|buf|);
        Put16(65535 - |buf|);
      }
      PutBytes(buf);
      StreamWhole(aligned);
      StreamWhole(bytes);
      if header { StoredStream(aligned, |buf|, buf); } else { BytesToBitsConcat(aligned, buf); }
    }
  }

  lemma StreamWhole(bytes: seq<byte>)
    ensures Stream(bytes, 0, 0) == BytesToBits(bytes)
  {}

  lemma StreamWord(bytes: seq<byte>, w: nat, buf: nat, valid: nat)
    requires w < 65536
    ensures Stream(bytes + WordBytes(w), buf, valid) == BytesToBits(bytes) + (Lsb(w, 16) + Lsb(buf, valid))
  {
    hide Lsb, BytesToBits, WordBytes;
    BytesToBitsConcat(bytes, WordBytes(w));
    WordBits(w);
    Assoc(BytesToBits(bytes), Lsb(w, 16), Lsb(buf, valid));
  }

  lemma StoredStream(bytes: seq<byte>, n: nat, buf: seq<byte>)
    requires n < 65536
    ensures BytesToBits(((bytes + WordBytes(n)) + WordBytes(65535 - n)) + buf)
            == BytesToBits(bytes) + ((Lsb(n, 16) + Lsb(65535 - n, 16)) + BytesToBits(buf))
  {
    hide Lsb, BytesToBits, WordBytes;
    var nb, cb := WordBytes(n), WordBytes(65535 - n);
    BytesToBitsConcat((bytes + nb) + cb, buf);
    BytesToBitsConcat(bytes + nb, cb);
    BytesToBitsConcat(bytes, nb);
    WordBits(n);
    WordBits(65535 - n);
    Assoc(BytesToBits(bytes), Lsb(n, 16), Lsb(65535 - n, 16));
    Assoc(BytesToBits(bytes), Lsb(n, 16) + Lsb(65535 - n, 16), BytesToBits(buf));
  }

  /** What spilling a full buffer puts out and keeps are the waiting bits and then the bits of the value. */
  lemma SpillBits(buf: nat, valid: nat, value: nat, length: nat)
    requires valid <= 16 && length <= 16 < valid + length && buf < Pow2(valid)
    ensures Lsb((buf + Shl(value, valid)) % 65536, 16) + Lsb(Shr(value, 16 - valid), valid + length - 16)
            == Lsb(buf, valid) + Lsb(value, length)
  {
    hide Lsb, Pow2, Shl, Shr;
    var lo, hi := Lsb(value, 16 - valid), Lsb(Shr(value, 16 - valid), valid + length - 16);
    LsbLowWord(buf + Shl(value, valid));
    LsbConcat(buf, valid, value, 16 - valid);
    LsbSplit(value, 16 - valid, valid + length - 16);
    Assoc(Lsb(buf, valid), lo, hi);
  }

  lemma SpillWord(bytes: seq<byte>, buf: nat, valid: nat, value: nat, length: nat)
    requires valid <= 16 && length <= 16 < valid + length && buf < Pow2(valid) && value < Pow2(length)
    ensures var w, hi := (buf + Shl(value, valid)) % 65536, Shr(value, 16 - valid);
            hi < Pow2(valid + length - 16)
            && Stream(bytes + WordBytes(w), hi, valid + length - 16) == Stream(bytes, buf, valid) + Lsb(value, length)
  {
    hide BytesToBits, Lsb, Pow2, Shl, Shr;
    SpillBits(buf, valid, value, length);
    ShrBound(value, 16 - valid, length);
    StreamWord(bytes, (buf + Shl(value, valid)) % 65536, Shr(value, 16 - valid), valid + length - 16);
    Assoc(BytesToBits(bytes), Lsb(buf, valid), Lsb(value, length));
  }

  lemma KeepWord(bytes: seq<byte>, buf: nat, valid: nat, value: nat, length: nat)
    requires valid + length <= 16 && buf < Pow2(valid) && value < Pow2(length)
    ensures var w := buf + Shl(value, valid);
            w % 65536 == w < Pow2(valid + length)
            && Stream(bytes, w, valid + length) == Stream(bytes, buf, valid) + Lsb(value, length)
  {
    hide Lsb, Pow2, Shl, BytesToBits;
    LsbConcat(buf, valid, value, length);
    ShlBound(buf, valid, value, length);
    WordBound(buf + Shl(value, valid), valid + length);
    Assoc(BytesToBits(bytes), Lsb(buf, valid), Lsb(value, length));
  }

  lemma WordBound(v: nat, n: nat)
    requires n <= 16 && v < Pow2(n)
    ensures v % 65536 == v
    ensures n <= 8 ==> v < 256
  {
    Pow2Words();
    Pow2Monotone(n, 16);
    if n <= 8 { Pow2Monotone(n, 8); }
  }

  lemma WindupWord(bytes: seq<byte>, buf: nat, valid: nat)
    requires 8 < valid <= 16 && buf < Pow2(valid)
    ensures buf < 65536
    ensures Stream(bytes + WordBytes(buf), 0, 0) == Stream(bytes, buf, valid) + Lsb(0, 16 - valid)
  {
    hide BytesToBits, Pow2;
    WordBound(buf, valid);
    PadWord(16, buf, valid);
    StreamWord(bytes, buf, 0, 0);
    Assoc(BytesToBits(bytes), Lsb(buf, valid), Lsb(0, 16 - valid));
  }

  lemma WindupByte(bytes: seq<byte>, buf: nat, valid: nat)
    requires valid <= 8 && buf < Pow2(valid)
    ensures buf < 256
    ensures Stream(bytes + [buf], 0, 0) == Stream(bytes, buf, valid) + Lsb(0, 8 - valid)
  {
    hide BytesToBits, Pow2;
    WordBound(buf, valid);
    PadWord(8, buf, valid);
    BytesToBitsConcat(bytes, [buf]);
    BytesToBitsOne(buf);
    Assoc(BytesToBits(bytes), Lsb(buf, valid), Lsb(0, 8 - valid));
  }

  lemma LsbLowWord(v: nat)
    ensures Lsb(v % 65536, 16) == Lsb(v, 16)
  {
    Pow2Words();
    ShlIsProduct(v / 65536, 16);
    LsbIgnoresHighBits(v % 65536, 16, v / 65536);
  }

  lemma PadWord(width: nat, buf: nat, valid: nat)
    requires valid <= width && buf < Pow2(valid)
    ensures buf < Pow2(width) && Lsb(buf, width) == Lsb(buf, valid) + Lsb(0, width - valid)
  {
    Pow2Monotone(valid, width);
    ShlZero(valid);
    LsbConcat(buf, valid, 0, width - valid);
  }

  lemma {:induction false} ShlZero(k: nat)
    ensures Shl(0, k) == 0
  {
    if k > 0 { ShlZero(k - 1); }
  }
}
