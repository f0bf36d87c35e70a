/** The rolling hash of three bytes in gzip.c (UPDATE_HASH). */
module RollingHash {
  import opened Bits

  const HASH_SIZE := 0x2000

  /** Bitwise exclusive or. */
  function BitXor(x: nat, y: nat): nat
    decreases x + y
  {
    if x == 0 && y == 0 then 0
    else 2 * BitXor(x / 2, y / 2) + (if x % 2 != y % 2 then 1 else 0)
  }

  /** Shifts the hash key and mixes in the next byte. */
  function Update(h: nat, c: byte): (r: nat)
    ensures r < HASH_SIZE
  {
    BitXor(32 * h, c) % HASH_SIZE
  }

  /** The hash key of three bytes. */
  function Hash3(b0: byte, b1: byte, b2: byte): (r: nat)
    ensures r < HASH_SIZE
  {
    Update(Update(Update(0, b0), b1), b2)
  }

  /** The key already holds the bytes `b0` and `b1`. */
  ghost predicate Primed(h: nat, b0: byte, b1: byte) { h % 256 == Update(Update(0, b0), b1) % 256 }

  /** The low `k` bits. */
  ghost function Low(x: nat, k: nat): nat
    decreases k
  {
    if k == 0 then 0 else 2 * Low(x / 2, k - 1) + x % 2
  }

  lemma {:induction false} LowIsMod(x: nat, k: nat)
    ensures Low(x, k) == x % Pow2(k)
  {
    if k > 0 {
      LowIsMod(x / 2, k - 1);
      HalfMod(x, Pow2(k - 1));
    }
  }

  lemma HalfMod(x: nat, p: nat)
    requires p > 0
    ensures x % (2 * p) == 2 * (x / 2 % p) + x % 2
  {
    var q, r := x / 2 / p, x / 2 % p;
    assert x / 2 == q * p + r;
    assert x == q * (2 * p) + (2 * r + x % 2);
    ModIs(x, q, 2 * p, 2 * r + x % 2);
  }

  lemma ModIs(x: nat, q: nat, m: nat, r: nat)
    requires x == q * m + r && r < m
    ensures x % m == r
  {
    var d := x / m - q;
    assert x == x / m * m + x % m;
    assert d * m == x / m * m - q * m;
    SmallMultiple(d, m);
  }

  lemma SmallMultiple(d: int, m: nat)
    ensures d >= 1 ==> d * m >= m
    ensures d <= -1 ==> d * m + m <= 0
    ensures d == 0 ==> d * m == 0
  {
  }

  /** The low bits of an exclusive or are those of the low bits. */
  lemma {:induction false} XorLow(x: nat, y: nat, k: nat)
    ensures Low(BitXor(x, y), k) == Low(BitXor(Low(x, k), Low(y, k)), k)
    decreases k
  {
    if k > 0 {
      XorHalf(x, y);
      XorHalf(Low(x, k), Low(y, k));
      XorLow(x / 2, y / 2, k - 1);
    }
  }

  lemma Lows(x: nat)
    ensures Low(x, 3) == x % 8 && Low(x, 8) == x % 256 && Low(x, 13) == x % 8192
  {
    Powers();
    LowIsMod(x, 3);
    LowIsMod(x, 8);
    LowIsMod(x, 13);
  }

  lemma {:induction false} XorInjective(x: nat, c: nat, d: nat)
    requires BitXor(x, c) == BitXor(x, d)
    ensures c == d
    decreases x + c + d
  {
    if x + c + d > 0 {
      XorHalf(x, c);
      XorHalf(x, d);
      XorInjective(x / 2, c / 2, d / 2);
    }
  }

  lemma XorHalf(x: nat, c: nat)
    ensures BitXor(x, c) / 2 == BitXor(x / 2, c / 2) && BitXor(x, c) % 2 == (if x % 2 != c % 2 then 1 else 0)
  {
  }

  lemma {:induction false} XorSelf(x: nat)
    ensures BitXor(x, x) == 0
  {
    if x > 0 { XorSelf(x / 2); }
  }

  lemma {:induction false} XorCommutes(x: nat, y: nat)
    ensures BitXor(x, y) == BitXor(y, x)
    decreases x + y
  {
    if x + y > 0 { XorCommutes(x / 2, y / 2); }
  }

  lemma {:induction false} XorAssociates(x: nat, y: nat, z: nat)
    ensures BitXor(BitXor(x, y), z) == BitXor(x, BitXor(y, z))
    decreases x + y + z
  {
    if x + y + z > 0 {
      XorAssociates(x / 2, y / 2, z / 2);
      var l, r := BitXor(BitXor(x, y), z), BitXor(x, BitXor(y, z));
      XorHalf(x, y);
      XorHalf(y, z);
      XorHalf(BitXor(x, y), z);
      XorHalf(x, BitXor(y, z));
      hide BitXor;
      assert l / 2 == r / 2 && l % 2 == r % 2;
    }
  }

  lemma XorCancels(x: nat, y: nat)
    requires BitXor(x, y) == 0
    ensures x == y
  {
    XorAssociates(x, y, y);
    XorSelf(y);
    XorCommutes(x, 0);
    XorZero(x);
    XorZero(y);
  }

  lemma {:induction false} XorBound(x: nat, y: nat, k: nat)
    requires x < Pow2(k) && y < Pow2(k)
    ensures BitXor(x, y) < Pow2(k)
    decreases k
  {
    if k > 0 && !(x == 0 && y == 0) { XorBound(x / 2, y / 2, k - 1); }
  }

  lemma Powers()
    ensures Pow2(3) == 8 && Pow2(8) == 256 && Pow2(13) == 8192
  {
    assert Pow2(5) == 32 && Pow2(10) == 1024;
  }

  lemma Low13(x: nat)
    ensures Low(x, 13) == x % 8192
  {
    Lows(x);
  }

  lemma Low8(x: nat)
    ensures x % 8192 % 256 == Low(x, 8)
  {
    hide Low;
    Lows(x);
    var r := x % 8192;
    assert x == x / 8192 * 8192 + r && r == r / 256 * 256 + r % 256;
    ModIs(x, 32 * (x / 8192) + r / 256, 256, r % 256);
  }

  lemma Shifted(h: nat, m: nat)
    requires m > 0
    ensures 32 * h % (32 * m) == 32 * (h % m)
  {
    assert h == h / m * m + h % m;
    assert 32 * h == h / m * (32 * m) + 32 * (h % m);
    ModIs(32 * h, h / m, 32 * m, 32 * (h % m));
  }

  lemma LowShifted(h: nat)
    ensures Low(32 * h, 13) == Low(32 * (h % 256), 13) && Low(32 * h, 8) == Low(32 * (h % 8), 8)
  {
    hide Low;
    LowShifted13(h);
    LowShifted8(h);
  }

  lemma LowShifted13(h: nat)
    ensures Low(32 * h, 13) == Low(32 * (h % 256), 13)
  {
    hide Low;
    Shifted(h, 256);
    Low13(32 * h);
    Low13(32 * (h % 256));
  }

  lemma LowShifted8(h: nat)
    ensures Low(32 * h, 8) == Low(32 * (h % 8), 8)
  {
    hide Low;
    Shifted(h, 8);
    LowIs8(32 * h);
    LowIs8(32 * (h % 8));
  }

  lemma LowIs8(x: nat)
    ensures Low(x, 8) == x % 256
  {
    Lows(x);
  }

  /** The new key depends only on the low eight bits of the old one. */
  lemma UpdateLow(h: nat, c: byte)
    ensures Update(h, c) == Update(h % 256, c)
  {
    hide Low, BitXor;
    var g := 32 * (h % 256);
    LowShifted(h);
    Low13(BitXor(32 * h, c));
    Low13(BitXor(g, c));
    XorLow(32 * h, c, 13);
    XorLow(g, c, 13);
  }

  /** The low three bits of the new key are those of the byte. */
  lemma UpdateMod8(h: nat, c: byte)
    ensures Update(h, c) % 8 == c % 8
  {
    hide Low, BitXor;
    Lows(32 * h);
    Lows(0);
    Lows(c);
    Lows(BitXor(32 * h, c));
    XorLow(32 * h, c, 3);
    XorLow(0, c, 3);
    XorZero(c);
  }

  /** The low eight bits of the new key depend only on the low three of the old one. */
  lemma UpdateMod256(h: nat, c: byte)
    ensures Update(h, c) % 256 == Update(h % 8, c) % 256
  {
    hide Low, BitXor;
    var g := 32 * (h % 8);
    LowShifted(h);
    Low8(BitXor(32 * h, c));
    Low8(BitXor(g, c));
    XorLow(32 * h, c, 8);
    XorLow(g, c, 8);
  }

  lemma {:induction false} XorZero(c: nat)
    ensures BitXor(0, c) == c
  {
    if c > 0 { XorZero(c / 2); }
  }

  /** Two updates leave a key that holds just these bytes. */
  lemma PrimedAfter(h: nat, b0: byte, b1: byte)
    ensures Primed(Update(Update(h, b0), b1), b0, b1)
  {
    hide Update;
    UpdateMod8(h, b0);
    UpdateMod8(0, b0);
    UpdateMod256(Update(h, b0), b1);
    UpdateMod256(Update(0, b0), b1);
  }

  /** A primed key becomes the hash of three bytes, and is primed for the next position. */
  lemma PrimedUpdate(h: nat, b0: byte, b1: byte, b2: byte)
    requires Primed(h, b0, b1)
    ensures Update(h, b2) == Hash3(b0, b1, b2) && Primed(Update(h, b2), b1, b2)
  {
    hide Update;
    UpdateLow(h, b2);
    UpdateLow(Update(Update(0, b0), b1), b2);
    PrimedAfter(Update(0, b0), b1, b2);
  }

  /** Strings with the same key and the same first two bytes have the same third byte. */
  lemma HashDecides(b0: byte, b1: byte, c: byte, d: byte)
    requires Hash3(b0, b1, c) == Hash3(b0, b1, d)
    ensures c == d
  {
    hide Low, BitXor, Update;
    SameUpdate(Update(Update(0, b0), b1), c, d);
  }

  lemma SameUpdate(h: nat, c: byte, d: byte)
    requires Update(h, c) == Update(h, d)
    ensures c == d
  {
    hide Low, BitXor, Pow2;
    var x := 32 * h % 8192;
    Powers();
    Lows(32 * h);
    Lows(c);
    Lows(d);
    Lows(BitXor(32 * h, c));
    Lows(BitXor(32 * h, d));
    XorLow(32 * h, c, 13);
    XorLow(32 * h, d, 13);
    Lows(BitXor(x, c));
    Lows(BitXor(x, d));
    XorBound(x, c, 13);
    XorBound(x, d, 13);
    XorInjective(x, c, d);
  }
}
