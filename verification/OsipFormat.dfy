/** The boot header of flash_stitched: a 32-byte preamble, seven 24-byte entries and an exclusive-or checksum. */
module OsipFormat {
  import opened Bits
  import opened RollingHash

  const PREAMBLE := 0x20
  const ENTRY := 24
  const ENTRIES := 7
  const HEADER := 200
  const BACKUP_LOC := 0xE0
  const CHECKSUM := 7
  const NUM_IMAGES := 9
  const BLOCK := 512
  const WORD := 0x1_0000_0000

  type Bytes = seq<byte>

  type Header = h: Bytes | |h| == HEADER witness seq(HEADER, _ => 0)

  // ---- exclusive or

  function XorByte(x: byte, y: byte): (r: byte) {
    XorBound(x, y, 8);
    Pow2Words();
    BitXor(x, y)
  }

  function XorAll(s: Bytes): byte {
    if s == [] then 0 else XorByte(XorAll(s[..|s| - 1]), s[|s| - 1])
  }

  /** Writing `v` where a zero was adds `v` to the exclusive or. */
  lemma {:induction false} XorFill(s: Bytes, k: nat, v: byte)
    requires k < |s| && s[k] == 0
    ensures XorAll(s[k := v]) == XorByte(XorAll(s), v)
    decreases |s|
  {
    var n := |s| - 1;
    var before := XorAll(s[..n]);
    if k == n {
      assert s[k := v][..n] == s[..n];
      XorCommutes(before, 0);
      XorZero(before);
    } else {
      assert s[k := v][..n] == s[..n][k := v];
      XorFill(s[..n], k, v);
      XorAssociates(before, v, s[n]);
      XorCommutes(v, s[n]);
      XorAssociates(before, s[n], v);
    }
  }

  // ---- fields

  /** `b` written over `d` at `off`. */
  function Put(d: Bytes, off: nat, b: Bytes): (r: Bytes)
    requires off + |b| <= |d|
    ensures |r| == |d|
    ensures forall i :: 0 <= i < |d| ==> r[i] == if off <= i < off + |b| then b[i - off] else d[i]
  {
    d[..off] + b + d[off + |b|..]
  }

  function U32(b: Bytes): (r: nat)
    requires |b| == 4
    ensures r < WORD
  {
    b[0] as int + 0x100 * b[1] as int + 0x1_0000 * b[2] as int + 0x100_0000 * b[3] as int
  }

  function Le32(x: nat): (b: Bytes)
    ensures |b| == 4
  {
    [x % 0x100, x / 0x100 % 0x100, x / 0x1_0000 % 0x100, x / 0x100_0000 % 0x100]
  }

  lemma Le32U32(x: nat)
    requires x < WORD
    ensures U32(Le32(x)) == x
  {
    var a := x / 0x100;
    var b := a / 0x100;
    var c := b / 0x100;
    assert x == x % 0x100 + 0x100 * a && a == a % 0x100 + 0x100 * b && b == b % 0x100 + 0x100 * c;
    QuotientIs(x, 0x1_0000, b);
    QuotientIs(x, 0x100_0000, c);
  }

  lemma QuotientIs(x: nat, m: nat, q: nat)
    requires m > 0 && 0 <= x - m * q < m
    ensures x / m == q
  {
    var d := x / m - q;
    assert x == m * (x / m) + x % m;
    assert m * d == x - x % m - m * q;
    SmallMultiple(d, m);
  }

  function HeaderSize(h: Header): (n: nat)
    ensures n < 0x1_0000
  {
    h[10] as int + 0x100 * h[11] as int
  }

  /** "$OS$". */
  predicate Signed(h: Header) { h[..4] == [0x24, 0x4f, 0x53, 0x24] }

  function Entry(h: Header, n: nat): (e: Bytes)
    requires n < ENTRIES
    ensures |e| == ENTRY
  {
    h[PREAMBLE + ENTRY * n..PREAMBLE + ENTRY * (n + 1)]
  }

  function SetEntry(h: Header, n: nat, e: Bytes): (r: Header)
    requires n < ENTRIES && |e| == ENTRY
    ensures r[..PREAMBLE] == h[..PREAMBLE]
  {
    Put(h, PREAMBLE + ENTRY * n, e)
  }

  lemma EntryOfSet(h: Header, n: nat, e: Bytes, m: nat)
    requires n < ENTRIES && m < ENTRIES && |e| == ENTRY
    ensures Entry(SetEntry(h, n, e), m) == if m == n then e else Entry(h, m)
  {
  }

  // ---- the checksum

  /** The checksum covers no more than the header. */
  predicate Sized(h: Header) { HeaderSize(h) <= HEADER }

  /** The bytes the checksum covers add up to zero. */
  predicate Sound(h: Header) { Sized(h) && XorAll(h[..HeaderSize(h)]) == 0 }

  /** The header with its checksum set, as write_OSIP writes it. */
  function Seal(h: Header): (r: Header)
    requires Sized(h)
    ensures HeaderSize(r) == HeaderSize(h) && Signed(r) == Signed(h)
    ensures forall i :: 0 <= i < HEADER && i != CHECKSUM ==> r[i] == h[i]
  {
    var r := h[CHECKSUM := XorAll(h[CHECKSUM := 0][..HeaderSize(h)])];
    assert r[..4] == h[..4];
    r
  }

  /** What write_OSIP writes is sound exactly when the checksum covers itself, or covers bytes that add up to zero
      anyway. */
  lemma SealIsSound(h: Header)
    requires Sized(h)
    ensures Sound(Seal(h)) <==> CHECKSUM < HeaderSize(h) || XorAll(h[..HeaderSize(h)]) == 0
  {
    hide XorByte;
    var k, r := HeaderSize(h), Seal(h);
    if CHECKSUM < k {
      var z := h[CHECKSUM := 0][..k];
      assert r[..k] == z[CHECKSUM := XorAll(z)];
      XorFill(z, CHECKSUM, XorAll(z));
      XorWithSelf(XorAll(z));
    } else {
      assert r[..k] == h[..k];
    }
  }

  /** A signed header whose size field is one. */
  function ShortHeader(): Header {
    seq(HEADER, i => if i == 0 ||
      i == 3 then 0x24 else if i == 1 then 0x4f else if i == 2 then 0x53 else if i == 10 then 1 else 0)
  }

  /** It is written with a checksum that does not make it sound. */
  lemma ShortHeaderFails()
    ensures Signed(ShortHeader()) && Sized(ShortHeader()) && !Sound(Seal(ShortHeader()))
  {
    hide XorByte;
    var h := ShortHeader();
    assert h[..4] == [h[0], h[1], h[2], h[3]];
    var one := h[..1];
    assert one == [0x24] && one[..0] == [];
    XorFirst(0x24);
    SealIsSound(h);
  }

  lemma XorFirst(x: byte)
    ensures XorAll([x]) == x
  {
    assert [x][..0] == [];
    XorZero(x);
  }

  lemma XorWithSelf(x: byte)
    ensures XorByte(x, x) == 0
  {
    XorSelf(x);
  }

  /** A sound header is already sealed. */
  lemma SoundIsSealed(h: Header)
    requires Sound(h) && CHECKSUM < HeaderSize(h)
    ensures Seal(h) == h
  {
    var k := HeaderSize(h);
    var z, v := h[CHECKSUM := 0][..k], h[CHECKSUM];
    assert h[..k] == z[CHECKSUM := v];
    XorFill(z, CHECKSUM, v);
    XorCancels(XorAll(z), v);
    assert Seal(h) == h;
  }
}
