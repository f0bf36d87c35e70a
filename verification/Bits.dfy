/** Bit strings and the fixed-width integer operations the compressors use on natural numbers. */
module Bits {

  type byte = x: int | 0 <= x < 256

  datatype Option<+T> = None | Some(value: T)

  /** A slice of a prefix. */
  lemma SliceOfPrefix<T>(s: seq<T>, n: nat, a: nat, b: nat)
    requires a <= b <= n <= |s|
    ensures s[..n][a..b] == s[a..b]
  {
    var l, r := s[..n][a..b], s[a..b];
    assert |l| == |r|;
    forall i | 0 <= i < b - a ensures l[i] == r[i] {
      assert l[i] == s[..n][a + i] == s[a + i];
      assert r[i] == s[a + i];
    }
  }

  /** A slice of a suffix. */
  lemma SliceOfSuffix<T>(s: seq<T>, n: nat, a: nat, b: nat)
    requires n + a <= n + b <= |s|
    ensures s[n..][a..b] == s[n + a..n + b]
  {
    var l, r := s[n..][a..b], s[n + a..n + b];
    assert |l| == |r|;
    forall i | 0 <= i < b - a ensures l[i] == r[i] {
      assert l[i] == s[n..][a + i] == s[n + a + i];
      assert r[i] == s[n + a + i];
    }
  }

  lemma Assoc<T>(a: seq<T>, b: seq<T>, c: seq<T>)
    ensures (a + b) + c == a + (b + c)
  {}

  function Pow2(n: nat): (p: nat)
    ensures p > 0
  {
    if n == 0 then 1 else 2 * Pow2(n - 1)
  }

  lemma {:induction false} Pow2Monotone(a: nat, b: nat)
    requires a <= b
    ensures Pow2(a) <= Pow2(b)
  {
    if a < b { Pow2Monotone(a, b - 1); }
  }

  lemma Pow2Words()
    ensures Pow2(8) == 256 && Pow2(16) == 65536
  {}

  lemma LsbEmpty(v: nat)
    ensures Lsb(v, 0) == []
  {}

  /** `v << k`. */
  function Shl(v: nat, k: nat): nat
    decreases k
  {
    if k == 0 then v else 2 * Shl(v, k - 1)
  }

  lemma {:induction false} ShlIsProduct(v: nat, k: nat)
    ensures Shl(v, k) == Pow2(k) * v
  {
    if k > 0 { ShlIsProduct(v, k - 1); }
  }

  /** `v >> k`. */
  function Shr(v: nat, k: nat): nat
    decreases k
  {
    if k == 0 then v else Shr(v / 2, k - 1)
  }

  lemma {:induction false} ShrBound(v: nat, k: nat, n: nat)
    requires k <= n && v < Pow2(n)
    ensures Shr(v, k) < Pow2(n - k)
  {
    if k > 0 { ShrBound(v / 2, k - 1, n - 1); }
  }

  lemma {:induction false} ShlBound(a: nat, k: nat, b: nat, m: nat)
    requires a < Pow2(k) && b < Pow2(m)
    ensures a + Shl(b, k) < Pow2(k + m)
  {
    if k > 0 { ShlBound(a / 2, k - 1, b, m); }
  }

  /** The `n` low bits of `v`, least significant bit first: the order of section 3.1.1 of RFC 1951. */
  function Lsb(v: nat, n: nat): (b: seq<bool>)
    ensures |b| == n
  {
    if n == 0 then [] else [v % 2 == 1] + Lsb(v / 2, n - 1)
  }

  /** The `n` low bits of `v`, most significant bit first: the order of Huffman codes. */
  function Msb(v: nat, n: nat): (b: seq<bool>)
    ensures |b| == n
  {
    if n == 0 then [] else Msb(v / 2, n - 1) + [v % 2 == 1]
  }

  /** The number written by a bit string, least significant bit first. */
  function Value(b: seq<bool>): nat {
    if b == [] then 0 else (if b[0] then 1 else 0) + 2 * Value(b[1..])
  }

  lemma {:induction false} ValueOfLsb(v: nat, n: nat)
    requires v < Pow2(n)
    ensures Value(Lsb(v, n)) == v
  {
    if n > 0 { ValueOfLsb(v / 2, n - 1); }
  }

  /** Packing `b` above the `k` bits of `a` concatenates the bit strings. */
  lemma {:induction false} LsbConcat(a: nat, k: nat, b: nat, m: nat)
    requires a < Pow2(k)
    ensures Lsb(a + Shl(b, k), k + m) == Lsb(a, k) + Lsb(b, m)
  {
    if k > 0 {
      LsbConcat(a / 2, k - 1, b, m);
      assert (a + Shl(b, k)) / 2 == a / 2 + Shl(b, k - 1);
    }
  }

  lemma {:induction false} LsbSplit(v: nat, k: nat, m: nat)
    ensures Lsb(v, k + m) == Lsb(v, k) + Lsb(Shr(v, k), m)
  {
    if k > 0 { LsbSplit(v / 2, k - 1, m); }
  }

  lemma {:induction false} LsbIgnoresHighBits(a: nat, k: nat, b: nat)
    ensures Lsb(a + Shl(b, k), k) == Lsb(a, k)
  {
    if k > 0 {
      LsbIgnoresHighBits(a / 2, k - 1, b);
      assert (a + Shl(b, k)) / 2 == a / 2 + Shl(b, k - 1);
    }
  }

  /** Bitwise or of two naturals. */
  function BitOr(x: nat, y: nat): nat
    decreases x + y
  {
    if x == 0 && y == 0 then 0
    else 2 * BitOr(x / 2, y / 2) + (if x % 2 == 1 || y % 2 == 1 then 1 else 0)
  }

  lemma {:induction false} BitOrZero(x: nat)
    ensures BitOr(x, 0) == x == BitOr(0, x)
  {
    if x > 0 { BitOrZero(x / 2); }
  }

  /** Or-ing in a value above the bits already used adds it. */
  lemma {:induction false} BitOrDisjoint(x: nat, y: nat, k: nat)
    requires x < Pow2(k)
    ensures BitOr(x, Shl(y, k)) == x + Shl(y, k)
  {
    if k == 0 {
      BitOrZero(y);
    } else if x == 0 {
      BitOrZero(Shl(y, k));
    } else {
      BitOrDisjoint(x / 2, y, k - 1);
    }
  }

  /** The bits of a byte sequence, byte by byte, least significant bit first. */
  function BytesToBits(s: seq<byte>): (b: seq<bool>)
    ensures |b| == 8 * |s|
  {
    seq(8 * |s|, i requires 0 <= i < 8 * |s| => Lsb(s[i / 8], 8)[i % 8])
  }

  lemma BytesToBitsConcat(s: seq<byte>, t: seq<byte>)
    ensures BytesToBits(s + t) == BytesToBits(s) + BytesToBits(t)
  {}

  lemma BytesToBitsOne(c: byte)
    ensures BytesToBits([c]) == Lsb(c, 8)
  {}

  /** The two bytes of a 16 bit word, low byte first. */
  function WordBytes(w: nat): seq<byte>
    requires w < 65536
  {
    [w % 256, w / 256]
  }

  lemma WordBits(w: nat)
    requires w < 65536
    ensures BytesToBits(WordBytes(w)) == Lsb(w, 16)
  {
    assert Pow2(8) == 256;
    ShlIsProduct(w / 256, 8);
    LsbConcat(w % 256, 8, w / 256, 8);
    BytesToBitsOne(w % 256);
    BytesToBitsOne(w / 256);
    BytesToBitsConcat([w % 256], [w / 256]);
    assert WordBytes(w) == [w % 256] + [w / 256];
  }

  lemma BitOrEven(x: nat, b: nat)
    requires x % 2 == 0 && b < 2
    ensures BitOr(x, b) == x + b
  {
    BitOrZero(x / 2);
  }

  /** Moving the low bit of `c` to the low end of `r` keeps the bit string the two stand for. */
  lemma ReverseStep(c: nat, l: nat, r: nat, n: nat)
    requires l > 0
    ensures Msb(c, l) + Lsb(r, n) == Msb(c / 2, l - 1) + Lsb(2 * r + c % 2, n + 1)
  {
    assert (2 * r + c % 2) / 2 == r;
    assert Lsb(2 * r + c % 2, n + 1) == [c % 2 == 1] + Lsb(r, n);
    assert (Msb(c / 2, l - 1) + [c % 2 == 1]) + Lsb(r, n) == Msb(c / 2, l - 1) + ([c % 2 == 1] + Lsb(r, n));
  }

  /** How many bits are missing to the next byte boundary. */
  function Align(n: nat): nat { (8 - n % 8) % 8 }

  lemma AlignAfter(bytes: nat, valid: nat)
    requires valid <= 16
    ensures Align(8 * bytes + valid) == if valid > 8 then 16 - valid else if valid > 0 then 8 - valid else 0
  {
    assert (8 * bytes + valid) % 8 == valid % 8;
  }

  /** Reverses the low `len` bits of `code`. */
  method BiReverse(code: nat, len: nat) returns (res: nat)
    requires 1 <= len
    ensures res < Pow2(len)
    ensures Lsb(res, len) == Msb(code, len)
  {
    var c, l := code, len;
    ghost var half: nat := 0;
    res := 0;
    while true
      invariant 1 <= l <= len
      invariant res == 2 * half && half < Pow2(len - l)
      invariant Msb(code, len) == Msb(c, l) + Lsb(half, len - l)
      decreases l
    {
      ReverseStep(c, l, half, len - l);
      BitOrEven(res, c % 2);
      res := BitOr(res, c % 2);
      l := l - 1;
      half := res;
      assert half < Pow2(len - l);
      if l <= 0 { return; }
      c := c / 2;
      res := res * 2;
    }
  }
}
