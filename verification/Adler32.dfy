/** lzo_adler32 of lzop.c: the checksum of section 2.2 of RFC 1950, reduced only every 5552 bytes. */
module Adler32 {
  import opened Bits
  import Probing

  const LZO_BASE := 65521
  const LZO_NMAX := 5552

  /** The two sums. */
  datatype Sums = Sums(s1: nat, s2: nat)

  /** Both sums after one more byte, reduced each time. */
  function Next(s: Sums, c: byte): Sums {
    var s1 := (s.s1 + c) % LZO_BASE;
    Sums(s1, (s.s2 + s1) % LZO_BASE)
  }

  /** The checksum as defined: both sums reduced after every byte. */
  function Checksum(s: Sums, data: seq<byte>): Sums {
    if data == [] then s else Next(Checksum(s, data[..|data| - 1]), data[|data| - 1])
  }

  /** Both sums in unbounded numbers, never reduced. */
  function Plain(s: Sums, data: seq<byte>): Sums {
    if data == [] then s
    else
      var p := Plain(s, data[..|data| - 1]);
      Sums(p.s1 + data[|data| - 1], p.s2 + p.s1 + data[|data| - 1])
  }

  function Unpack(adler: nat): Sums { Sums(adler % 65536, adler / 65536 % 65536) }

  function Pack(s: Sums): nat { s.s2 * 65536 + s.s1 }

  ghost predicate Reduced(s: Sums) { s.s1 < LZO_BASE && s.s2 < LZO_BASE }

  /** A checksum can be continued. */
  lemma {:induction false} ChecksumConcat(s: Sums, a: seq<byte>, b: seq<byte>)
    ensures Checksum(s, a + b) == Checksum(Checksum(s, a), b)
    decreases |b|
  {
    hide Next;
    if b == [] {
      assert a + b == a;
    } else {
      var n := |b| - 1;
      assert (a + b)[..|a + b| - 1] == a + b[..n];
      ChecksumConcat(s, a, b[..n]);
    }
  }

  lemma {:induction false} ChecksumReduced(s: Sums, data: seq<byte>)
    requires Reduced(s)
    ensures Reduced(Checksum(s, data))
  {
    if data != [] { ChecksumReduced(s, data[..|data| - 1]); }
  }

  lemma PackUnpack(s: Sums)
    requires Reduced(s)
    ensures Unpack(Pack(s)) == s && Pack(s) < 0x1_0000_0000
  {
  }

  /** Twice the largest second sum after `j` bytes. */
  function Bound(j: nat): nat { 2 * 65535 * (j + 1) + 255 * (j * (j + 1)) }

  lemma BoundStep(j: nat)
    ensures Bound(j + 1) == Bound(j) + 2 * (65535 + 255 * (j + 1))
  {
    assert (j + 1) * (j + 2) == j * (j + 1) + 2 * (j + 1);
  }

  lemma BoundFits(j: nat)
    requires j <= LZO_NMAX
    ensures Bound(j) < 2 * 0x1_0000_0000
  {
    assert j * (j + 1) <= LZO_NMAX * (LZO_NMAX + 1) by { Grows(j, LZO_NMAX, j + 1, LZO_NMAX + 1); }
  }

  lemma Grows(a: nat, b: nat, c: nat, d: nat)
    requires a <= b && c <= d
    ensures a * c <= b * d
  {
    assert a * c <= a * d;
    assert (b - a) * d >= 0;
  }

  /** What the second sum can come to after `n` bytes from reduced sums. */
  function Worst(n: nat): nat { 255 * (n * (n + 1)) / 2 + (n + 1) * (LZO_BASE - 1) }

  lemma WorstGrows(n: nat, m: nat)
    requires n <= m
    ensures Worst(n) <= Worst(m)
  {
    Grows(n, m, n + 1, m + 1);
  }

  /** 5552 is the most bytes after which it fits 32 bits. */
  lemma NmaxIsLargest(n: nat)
    ensures Worst(n) <= 0xffff_ffff <==> n <= LZO_NMAX
  {
    if n <= LZO_NMAX { WorstGrows(n, LZO_NMAX); } else { WorstGrows(LZO_NMAX + 1, n); }
    assert Worst(5552) == 4294690200 && Worst(5553) == 4296171735;
  }

  lemma ModAdd(x: nat, y: nat)
    ensures (x % LZO_BASE + y) % LZO_BASE == (x + y) % LZO_BASE
  {
    var q, r := x / LZO_BASE, (x % LZO_BASE + y) / LZO_BASE;
    assert x + y == (q + r) * LZO_BASE + (x % LZO_BASE + y) % LZO_BASE;
  }

  lemma NextMod(s1: nat, s2: nat, c: byte)
    ensures Next(Sums(s1 % LZO_BASE, s2 % LZO_BASE), c) == Sums((s1 + c) % LZO_BASE, (s2 + (s1 + c)) % LZO_BASE)
  {
    ModAdd(s1, c);
    ModAdd(s2, (s1 + c) % LZO_BASE);
    ModAdd(s1 + c, s2);
  }

  /** Adds up to 5552 bytes in 32 bit counters without reducing. */
  method AddChunk(s1: nat, s2: nat, buf: seq<byte>) returns (t1: nat, t2: nat)
    requires s1 < 65536 && s2 < 65536 && |buf| <= LZO_NMAX
    ensures t1 < 0x1_0000_0000 && t2 < 0x1_0000_0000 && Sums(t1, t2) == Plain(Sums(s1, s2), buf)
    ensures Sums(t1 % LZO_BASE, t2 % LZO_BASE) == Checksum(Sums(s1 % LZO_BASE, s2 % LZO_BASE), buf)
  {
    hide Next, Bound, Plain, Checksum;
    t1, t2 := s1, s2;
    ghost var first, start := Sums(s1, s2), Sums(s1 % LZO_BASE, s2 % LZO_BASE);
    BoundZero();
    NoBytes(first, start, buf);
    for j := 0 to |buf|
      invariant t1 <= 65535 + 255 * j && 2 * t2 <= Bound(j) && Sums(t1, t2) == Plain(first, buf[..j])
      invariant Sums(t1 % LZO_BASE, t2 % LZO_BASE) == Checksum(start, buf[..j])
    {
      OneMore(first, start, buf, j);
      NextMod(t1, t2, buf[j]);
      BoundStep(j);
      BoundFits(j + 1);
      t1 := Wrapped(t1, buf[j]);
      t2 := Wrapped(t2, t1);
    }
    assert buf[..|buf|] == buf;
    BoundFits(|buf|);
  }

  /** 32 bit addition. */
  function Wrapped(x: nat, y: nat): (r: nat)
    ensures r < 0x1_0000_0000 && (x + y < 0x1_0000_0000 ==> r == x + y)
  {
    (x + y) % 0x1_0000_0000
  }

  lemma NoBytes(s: Sums, t: Sums, buf: seq<byte>)
    ensures Plain(s, buf[..0]) == s && Checksum(t, buf[..0]) == t
  {
  }

  lemma OneMore(s: Sums, t: Sums, buf: seq<byte>, j: nat)
    requires j < |buf|
    ensures Checksum(t, buf[..j + 1]) == Next(Checksum(t, buf[..j]), buf[j])
    ensures var p := Plain(s, buf[..j]); Plain(s, buf[..j + 1]) == Sums(p.s1 + buf[j], p.s2 + (p.s1 + buf[j]))
  {
    hide Next;
    assert buf[..j + 1][..j] == buf[..j];
  }

  lemma BoundZero()
    ensures Bound(0) == 2 * 65535
  {
  }

  /** The checksum of a buffer; without a buffer, the initial value. */
  method LzoAdler32(adler: nat, buf: Option<seq<byte>>) returns (r: nat)
    requires adler < 0x1_0000_0000
    ensures buf.None? ==> r == 1
    ensures buf.Some? && Reduced(Unpack(adler)) ==> r == Pack(Checksum(Unpack(adler), buf.value)) && Reduced(Unpack(r))
  {
    hide Checksum;
    if buf.None? { return 1; }
    var s1: nat, s2: nat := adler % 65536, adler / 65536 % 65536;
    var data, pos: nat := buf.value, 0;
    EmptyChecksum(Unpack(adler));
    assert data[..0] == [];
    while pos < |data|
      invariant pos <= |data| && s1 < 65536 && s2 < 65536
      invariant Reduced(Unpack(adler)) ==> Sums(s1, s2) == Checksum(Unpack(adler), data[..pos]) && Reduced(Sums(s1, s2))
    {
      var k := if |data| - pos < LZO_NMAX then |data| - pos else LZO_NMAX;
      ChecksumConcat(Unpack(adler), data[..pos], data[pos..pos + k]);
      assert data[..pos] + data[pos..pos + k] == data[..pos + k];
      s1, s2 := AddChunk(s1, s2, data[pos..pos + k]);
      s1 := s1 % LZO_BASE;
      s2 := s2 % LZO_BASE;
      pos := pos + k;
    }
    assert data[..pos] == data;
    if Reduced(Unpack(adler)) { PackUnpack(Sums(s1, s2)); }
    r := s2 * 65536 + s1;
  }

  lemma EmptyChecksum(s: Sums)
    ensures Checksum(s, []) == s
  {
  }

  /** Continuing from a checksum gives the checksum of the whole. */
  lemma Composes(adler: nat, a: seq<byte>, b: seq<byte>)
    requires adler < 0x1_0000_0000 && Reduced(Unpack(adler))
    ensures Pack(Checksum(Unpack(Pack(Checksum(Unpack(adler), a))), b)) == Pack(Checksum(Unpack(adler), a + b))
  {
    ChecksumReduced(Unpack(adler), a);
    PackUnpack(Checksum(Unpack(adler), a));
    ChecksumConcat(Unpack(adler), a, b);
  }

  // ---- the modulus

  /** A divisor is below 256, or what it divides `n` into is. */
  lemma SmallDivisor(n: nat, d: nat, e: nat)
    requires n < 65536 && 2 <= d < n && n == d * e
    ensures 2 <= e && (d < 256 || e < 256)
  {
    if d >= 256 && e >= 256 { Grows(256, d, 256, e); }
    if e < 2 { Grows(d, d, e, 1); }
  }

  lemma BaseNotDivided(d: nat)
    requires 2 <= d < 256
    ensures LZO_BASE % d != 0
  {
    var q := LZO_BASE / d;
    assert LZO_BASE == q * d + LZO_BASE % d;
  }

  lemma BaseAt(d: nat)
    requires 2 <= d < LZO_BASE
    ensures LZO_BASE % d != 0
  {
    var e, r := LZO_BASE / d, LZO_BASE % d;
    assert LZO_BASE == d * e + r;
    if r == 0 {
      SmallDivisor(LZO_BASE, d, e);
      if d < 256 {
        BaseNotDivided(d);
      } else {
        BaseNotDivided(e);
        Probing.MultipleHasNoRemainder(e, d);
      }
    }
  }

  /** The modulus is the largest prime below 65536. */
  lemma BaseIsPrime()
    ensures Probing.Prime(LZO_BASE) && forall n :: LZO_BASE < n < 65536 ==> !Probing.Prime(n)
  {
    assert Probing.Prime(LZO_BASE) by { forall d | 2 <= d < LZO_BASE ensures LZO_BASE % d != 0 { BaseAt(d); } }
    forall n | LZO_BASE < n < 65536 ensures !Probing.Prime(n) {
      hide Probing.Prime;
      NotPrime(n);
    }
  }

  lemma NotPrime(n: nat)
    requires LZO_BASE < n < 65536
    ensures !Probing.Prime(n)
  {
    assert n % 2 == 0 || n % 3 == 0 || n % 5 == 0 || n % 7 == 0 || n % 13 == 0 || n % 19 == 0;
  }

  /** The checksum of "a". */
  lemma ChecksumOfA()
    ensures Pack(Checksum(Unpack(1), [0x61])) == 0x0062_0062
  {
    assert [0x61][..0] == [];
  }
}
