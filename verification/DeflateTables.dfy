/** The length and distance codes of section 3.2.5 of RFC 1951. */
module DeflateTables {
  import opened Bits

  const MIN_MATCH := 3
  const MAX_MATCH := 258
  const LENGTH_CODES := 29
  const D_CODES := 30
  const LITERALS := 256
  const END_BLOCK := 256
  const L_CODES := 286

  const EXTRA_LBITS: seq<nat> := [0, 0, 0, 0, 0, 0, 0, 0, 1, 1, 1, 1, 2, 2, 2, 2, 3, 3, 3, 3, 4, 4, 4, 4, 5, 5, 5, 5, 0]
  const LENGTH_BASE: seq<nat> :=
    [3, 4, 5, 6, 7, 8, 9, 10, 11, 13, 15, 17, 19, 23, 27, 31, 35, 43, 51, 59, 67, 83, 99, 115, 131, 163, 195, 227, 258]
  const EXTRA_DBITS: seq<nat> :=
    [0, 0, 0, 0, 1, 1, 2, 2, 3, 3, 4, 4, 5, 5, 6, 6, 7, 7, 8, 8, 9, 9, 10, 10, 11, 11, 12, 12, 13, 13]
  const DIST_BASE: seq<nat> :=
    [1, 2, 3, 4, 5, 7, 9, 13, 17, 25, 33, 49, 65, 97, 129, 193, 257, 385, 513, 769, 1025, 1537, 2049, 3073, 4097,
     6145, 8193, 12289, 16385, 24577]

  /** The codes of the length table tile the lengths 3 to 258. */
  lemma LengthTiles(c: nat)
    requires c < 27
    ensures LENGTH_BASE[c + 1] == LENGTH_BASE[c] + Pow2(EXTRA_LBITS[c])
  {
    if c < 9 {} else if c < 18 {} else {}
  }

  lemma SmallPowers()
    ensures Pow2(0) == 1 && Pow2(1) == 2 && Pow2(2) == 4 && Pow2(3) == 8 && Pow2(4) == 16 && Pow2(5) == 32
    ensures Pow2(6) == 64
    ensures Pow2(7) == 128 && Pow2(8) == 256 && Pow2(9) == 512 && Pow2(10) == 1024 && Pow2(11) == 2048
    ensures Pow2(12) == 4096 && Pow2(13) == 8192
  {
  }

  lemma DistTiles(c: nat)
    requires c < 29
    ensures DIST_BASE[c + 1] == DIST_BASE[c] + Pow2(EXTRA_DBITS[c])
  {
    hide Pow2;
    SmallPowers();
    if c < 10 {} else if c < 20 {} else {}
  }

  lemma ExtraBounds(c: nat)
    ensures c < LENGTH_CODES ==> EXTRA_LBITS[c] <= 5
    ensures c < D_CODES ==> EXTRA_DBITS[c] <= 13
  {
    if c < 9 {} else if c < 18 {} else if c < 27 {} else {}
  }

  /** The tables by rule: a length has one more extra bit every four codes, a distance every two. */
  lemma TablesByRule(c: nat)
    ensures LENGTH_BASE[0] == 3 && LENGTH_BASE[28] == 258 && EXTRA_LBITS[28] == 0 && DIST_BASE[0] == 1
    ensures c < 28 ==> EXTRA_LBITS[c] == if c < 8 then 0 else c / 4 - 1
    ensures c < 30 ==> EXTRA_DBITS[c] == if c < 4 then 0 else c / 2 - 1
  {
    if c < 8 {} else if c < 16 {} else if c < 24 {} else {}
  }

  /** The largest code whose base is at most `v`. */
  function CodeFor(base: seq<nat>, v: nat, c: nat): (r: nat)
    requires c < |base|
    ensures r <= c
  {
    if c == 0 || base[c] <= v then c else CodeFor(base, v, c - 1)
  }

  lemma {:induction false} CodeForBounds(base: seq<nat>, v: nat, c: nat)
    requires c < |base| && base[0] <= v
    ensures base[CodeFor(base, v, c)] <= v
    ensures CodeFor(base, v, c) < c ==> v < base[CodeFor(base, v, c) + 1]
  {
    if c > 0 && base[c] > v { CodeForBounds(base, v, c - 1); }
  }

  /** The code number (0 to 28) for a match length. */
  function LengthCode(len: nat): (c: nat)
    ensures c < LENGTH_CODES
  {
    CodeFor(LENGTH_BASE, len, 28)
  }

  /** The code number (0 to 29) for a match distance. */
  function DistCode(dist: nat): (c: nat)
    ensures c < D_CODES
  {
    CodeFor(DIST_BASE, dist, 29)
  }

  lemma LengthCodeFits(len: nat)
    requires 3 <= len <= 258
    ensures var c := LengthCode(len); LENGTH_BASE[c] <= len < LENGTH_BASE[c] + Pow2(EXTRA_LBITS[c])
  {
    var c := LengthCode(len);
    CodeForBounds(LENGTH_BASE, len, 28);
    if c < 27 { LengthTiles(c); }
  }

  lemma DistCodeFits(dist: nat)
    requires 1 <= dist <= 32768
    ensures var c := DistCode(dist); DIST_BASE[c] <= dist < DIST_BASE[c] + Pow2(EXTRA_DBITS[c])
  {
    var c := DistCode(dist);
    CodeForBounds(DIST_BASE, dist, 29);
    if c < 29 { DistTiles(c); } else { assert Pow2(13) == 8192; }
  }
}
