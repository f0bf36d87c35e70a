/** The checksum of gzip: a division by a polynomial, bit by bit, and the table-driven register of gzip.c (updcrc). */
module Crc32 {
  import opened Bits
  import opened RollingHash

  const ULONG_MAX := 0xffff_ffff

  const POLYNOMIAL := 0xedb8_8320

  // ---- bit by bit

  /** One bit of the division. */
  function Divide(c: nat): nat { if c % 2 == 1 then BitXor(c / 2, POLYNOMIAL) else c / 2 }

  function DivideBits(c: nat, n: nat): nat
    decreases n
  {
    if n == 0 then c else DivideBits(Divide(c), n - 1)
  }

  /** The remainder after all bits of `data`, low bits first. */
  function Remainder(c: nat, data: seq<byte>): nat {
    if data == [] then c else DivideBits(BitXor(Remainder(c, data[..|data| - 1]), data[|data| - 1]), 8)
  }

  /** The checksum of section 8 of RFC 1952. */
  function Crc(data: seq<byte>): int { ULONG_MAX - Remainder(ULONG_MAX, data) }

  lemma DivideLinear(x: nat, y: nat)
    ensures Divide(BitXor(x, y)) == BitXor(Divide(x), Divide(y))
  {
    XorHalf(x, y);
    hide BitXor;
    var a, b := x / 2, y / 2;
    var ap, bp := BitXor(a, POLYNOMIAL), BitXor(b, POLYNOMIAL);
    XorAssociates(a, b, POLYNOMIAL);
    XorAssociates(a, POLYNOMIAL, b);
    XorCommutes(POLYNOMIAL, b);
    if x % 2 == 1 && y % 2 == 1 {
      XorAssociates(a, POLYNOMIAL, bp);
      XorAssociates(b, POLYNOMIAL, POLYNOMIAL);
      XorCommutes(POLYNOMIAL, bp);
      XorSelf(POLYNOMIAL);
      XorCommutes(b, 0);
      XorZero(b);
    }
  }

  lemma {:induction false} DivideBitsLinear(x: nat, y: nat, n: nat)
    ensures DivideBits(BitXor(x, y), n) == BitXor(DivideBits(x, n), DivideBits(y, n))
    decreases n
  {
    hide BitXor, Divide;
    if n > 0 {
      DivideLinear(x, y);
      DivideBitsLinear(Divide(x), Divide(y), n - 1);
    }
  }

  /** `n` bits higher. */
  ghost function Raised(x: nat, n: nat): nat { if n == 0 then x else 2 * Raised(x, n - 1) }

  /** The bits from `n` on. */
  ghost function High(x: nat, n: nat): nat
    decreases n
  {
    if n == 0 then x else High(x / 2, n - 1)
  }

  lemma {:induction false} DivideZeros(x: nat, n: nat)
    ensures DivideBits(Raised(x, n), n) == x
    decreases n
  {
    if n > 0 { DivideZeros(x, n - 1); }
  }

  /** A number is its low bits and its high bits. */
  lemma {:induction false} XorParts(x: nat, n: nat)
    ensures BitXor(Low(x, n), Raised(High(x, n), n)) == x
    decreases n
  {
    hide BitXor;
    if n == 0 {
      XorZero(x);
    } else {
      XorParts(x / 2, n - 1);
      XorDouble(Low(x / 2, n - 1), Raised(High(x / 2, n - 1), n - 1), x % 2);
    }
  }

  lemma XorDouble(a: nat, b: nat, bit: nat)
    requires bit < 2
    ensures BitXor(2 * a + bit, 2 * b) == 2 * BitXor(a, b) + bit
  {
  }

  lemma {:induction false} XorHigh(x: nat, y: nat, n: nat)
    ensures High(BitXor(x, y), n) == BitXor(High(x, n), High(y, n))
    decreases n
  {
    hide BitXor;
    if n > 0 {
      XorHalf(x, y);
      XorHigh(x / 2, y / 2, n - 1);
    }
  }

  lemma HighIs(x: nat)
    ensures High(x, 8) == x / 256
  {
    var x2 := x / 2 / 2;
    var x4 := x2 / 2 / 2;
    assert High(x, 8) == High(x2, 6) == High(x4, 4);
    assert x2 == x / 4 && x4 == x / 16;
  }

  // ---- byte by byte

  /** One step of the shift register. */
  function Shift(table: seq<nat>, c: nat, b: byte): nat
    requires |table| == 256
  {
    BitXor(table[BitXor(c, b) % 256], c / 256)
  }

  /** The register after all bytes of `data`. */
  function Register(table: seq<nat>, c: nat, data: seq<byte>): nat
    requires |table| == 256
  {
    if data == [] then c else Shift(table, Register(table, c, data[..|data| - 1]), data[|data| - 1])
  }

  /** The register can be fed piece by piece. */
  lemma {:induction false} RegisterConcat(table: seq<nat>, c: nat, a: seq<byte>, b: seq<byte>)
    requires |table| == 256
    ensures Register(table, c, a + b) == Register(table, Register(table, c, a), b)
    decreases |b|
  {
    if b == [] {
      assert a + b == a;
    } else {
      var n := |b| - 1;
      assert (a + b)[..|a + b| - 1] == a + b[..n];
      RegisterConcat(table, c, a, b[..n]);
    }
  }

  method UpdCrc(table: seq<nat>, crc: nat, s: seq<byte>) returns (c: nat)
    requires |table| == 256
    ensures c == Register(table, crc, s)
  {
    c := crc;
    for i := 0 to |s|
      invariant c == Register(table, crc, s[..i])
    {
      assert s[..i + 1][..i] == s[..i];
      c := BitXor(table[BitXor(c, s[i]) % 256], c / 256);
    }
    assert s[..|s|] == s;
  }

  /** What crc32_filltable makes. */
  ghost predicate Filled(table: seq<nat>) {
    |table| == 256 && forall i :: 0 <= i < 256 ==> table[i] == DivideBits(i, 8)
  }

  method FillTable() returns (table: seq<nat>)
    ensures Filled(table)
  {
    hide BitXor;
    table := [];
    for i := 0 to 256
      invariant |table| == i && forall k :: 0 <= k < i ==> table[k] == DivideBits(k, 8)
    {
      var c: nat := i;
      for j := 0 to 8
        invariant DivideBits(c, 8 - j) == DivideBits(i, 8)
      {
        c := if c % 2 == 1 then BitXor(c / 2, POLYNOMIAL) else c / 2;
      }
      table := table + [c];
    }
  }

  /** One step of the register divides by eight bits. */
  lemma ShiftDivides(table: seq<nat>, c: nat, b: byte)
    requires Filled(table)
    ensures Shift(table, c, b) == DivideBits(BitXor(c, b), 8)
  {
    hide BitXor, DivideBits;
    hide Low, High, Raised;
    var x := BitXor(c, b);
    XorParts(x, 8);
    LowIs8(x);
    DivideBitsLinear(x % 256, Raised(High(x, 8), 8), 8);
    DivideZeros(High(x, 8), 8);
    XorHigh(c, b, 8);
    HighIs(b);
    HighIs(c);
    XorCommutes(c / 256, 0);
    XorZero(c / 256);
  }

  /** The register with the table of crc32_filltable is the remainder. */
  lemma {:induction false} RegisterIsRemainder(table: seq<nat>, c: nat, data: seq<byte>)
    requires Filled(table)
    ensures Register(table, c, data) == Remainder(c, data)
    decreases |data|
  {
    hide BitXor, DivideBits, Filled;
    if data != [] {
      var n := |data| - 1;
      RegisterIsRemainder(table, c, data[..n]);
      ShiftDivides(table, Remainder(c, data[..n]), data[n]);
    }
  }

  lemma {:induction false} RemainderBound(c: nat, data: seq<byte>)
    requires c <= ULONG_MAX
    ensures Remainder(c, data) <= ULONG_MAX
  {
    hide BitXor, DivideBits;
    if data != [] {
      var r := Remainder(c, data[..|data| - 1]);
      RemainderBound(c, data[..|data| - 1]);
      Width32();
      XorBound(r, data[|data| - 1], 32);
      DivideBound(BitXor(r, data[|data| - 1]), 8);
    }
  }

  lemma {:induction false} DivideBound(c: nat, n: nat)
    requires c <= ULONG_MAX
    ensures DivideBits(c, n) <= ULONG_MAX
    decreases n
  {
    if n > 0 {
      Width32();
      XorBound(c / 2, POLYNOMIAL, 32);
      hide BitXor;
      DivideBound(Divide(c), n - 1);
    }
  }

  lemma Width32()
    ensures Pow2(32) == 0x1_0000_0000
  {
    Pow2Words();
    assert Pow2(20) == 1048576;
    assert Pow2(24) == 16777216;
    assert Pow2(28) == 268435456;
  }

  /** Four bytes 0xff leave the register zero, and a byte 0x80 the polynomial. */
  lemma CrcOfOnes()
    ensures Crc([]) == 0 && Crc([0xff, 0xff, 0xff, 0xff]) == 0xffff_ffff
    ensures Crc([0xff, 0xff, 0xff, 0xff, 0x80]) == 0x1247_7cdf
  {
    hide BitXor, DivideBits;
    var s := [0xff, 0xff, 0xff, 0xff, 0x80];
    assert s[..4][..3] == s[..3] && s[..3][..2] == s[..2] && s[..2][..1] == s[..1] && s[..1][..0] == [];
    assert s[..4] == [0xff, 0xff, 0xff, 0xff];
    OnesDivide(0xff_ffff);
    OnesDivide(0xffff);
    OnesDivide(0xff);
    OnesDivide(0);
    assert Remainder(ULONG_MAX, s[..1]) == 0xff_ffff;
    assert Remainder(ULONG_MAX, s[..2]) == 0xffff;
    assert Remainder(ULONG_MAX, s[..3]) == 0xff;
    assert Remainder(ULONG_MAX, s[..4]) == 0;
    XorZero(0x80);
    TopBitDivides();
  }

  /** A byte 0xff moves a register that ends in eight ones. */
  lemma OnesDivide(x: nat)
    ensures DivideBits(BitXor(256 * x + 255, 0xff), 8) == x
  {
    hide BitXor, DivideBits, Low, High, Raised;
    var c := 256 * x + 255;
    XorParts(c, 8);
    LowIs8(c);
    HighIs(c);
    var r := Raised(x, 8);
    XorCommutes(255, r);
    XorAssociates(r, 255, 255);
    XorSelf(255);
    XorCommutes(r, 0);
    XorZero(r);
    DivideZeros(x, 8);
  }

  lemma TopBitDivides()
    ensures DivideBits(0x80, 8) == POLYNOMIAL
  {
    hide BitXor;
    XorZero(POLYNOMIAL);
    assert DivideBits(0x80, 8) == DivideBits(0x10, 5) == DivideBits(0x2, 2);
  }
}
