/** What each command of flash_stitched does to the device, byte by byte. */
module OsipEffects {
  import opened Bits
  import opened OsipFormat
  import opened OsipCommands
  import opened OsipRuns

  /** Where entry `n` of the header starts on the device. */
  function EntryOffset(n: nat): nat { 32 + 24 * n }

  // ---- update

  /** The bounds of the field of an entry that byte `k` is in: revisions, block, addresses, size and attribute. */
  function FieldOf(k: nat): (nat, nat)
    requires k < 21
  {
    if k < 2 then (0, 2) else if k < 4 then (2, 4) else if k < 8 then (4, 8) else if k < 12 then (8, 12)
    else if k < 16 then (12, 16) else if k < 20 then (16, 20) else (20, 21)
  }

  /** The field that byte `k` is in is given: it is not all ones. */
  ghost predicate GivenAt(given: Bytes, k: nat)
    requires |given| == 24 && k < 21
  {
    exists i :: FieldOf(k).0 <= i < FieldOf(k).1 && given[i] != 0xff
  }

  lemma TakenAt(was: Bytes, given: Bytes, k: nat)
    requires |was| == |given| == 24 && k < 21
    ensures var (lo, hi) := FieldOf(k);
            Field(was, given, lo, hi)[k - lo] == if GivenAt(given, k) then given[k] else was[k]
  {
    var (lo, hi) := FieldOf(k);
    var ones := seq(hi - lo, _ => 0xff);
    if GivenAt(given, k) {
      var i :| lo <= i < hi && given[i] != 0xff;
      assert given[lo..hi][i - lo] != ones[i - lo];
    } else {
      assert given[lo..hi] == ones;
    }
  }

  lemma MergedAt(was: Bytes, given: Bytes, k: nat)
    requires |was| == |given| == 24 && k < 24
    ensures Merged(was, given)[k] == if k < 21 && GivenAt(given, k) then given[k] else was[k]
  {
    hide Field, GivenAt;
    if k < 21 { TakenAt(was, given, k); }
  }

  /** The device after an update: in the entry the fields that are given, elsewhere nothing but the checksum changes. */
  lemma UpdatedBytes(d: Disk, n: nat, given: Bytes, i: nat)
    requires n < 7 && |given| == 24 && Sized(Primary(d)) && i < |d| && i != 7
    ensures var e, k := DoUpdate(d, n, given), i - EntryOffset(n);
            |e| == |d| && e[i] == if 0 <= k < 21 && GivenAt(given, k) then given[k] else d[i]
  {
    hide Merged, GivenAt, SetEntry;
    var h := Primary(d);
    var g := SetEntry(h, n, Merged(Entry(h, n), given));
    var k := i - EntryOffset(n);
    SealedAt(d, g, i);
    if i < 200 { SetAt(h, n, Merged(Entry(h, n), given), i); }
    if 0 <= k < 24 { MergedAt(Entry(h, n), given, k); }
  }

  lemma SealedAt(d: Disk, h: Header, i: nat)
    requires Sized(h) && i < |d| && i != 7
    ensures var e := PutPrimary(d, Seal(h)); |e| == |d| && e[i] == if i < 200 then h[i] else d[i]
  {
    hide Seal;
  }

  lemma SetAt(h: Header, n: nat, e: Bytes, i: nat)
    requires n < 7 && |e| == 24 && i < 200
    ensures var k := i - EntryOffset(n); SetEntry(h, n, e)[i] == if 0 <= k < 24 then e[k] else h[i]
  {
  }

  /** `--update 0 -l 100`: only the block is given. */
  const BLOCK_ONLY: Bytes := [0xff, 0xff, 0xff, 0xff, 100, 0, 0, 0] + seq(16, _ => 0xff)

  /** A device that starts entry 0 at block 5 starts it at block 100 then, and nothing else of the entry changes. */
  lemma BlockIsMoved(d: Disk)
    requires Sized(Primary(d)) && d[36..40] == [5, 0, 0, 0]
    ensures var e := DoUpdate(d, 0, BLOCK_ONLY);
            && |e| == |d| && U32(e[36..40]) == 100
            && forall i :: 0 <= i < |d| && i != 7 && !(36 <= i < 40) ==> e[i] == d[i]
  {
    hide DoUpdate;
    var e := DoUpdate(d, 0, BLOCK_ONLY);
    UpdatedBytes(d, 0, BLOCK_ONLY, 8);
    assert BLOCK_ONLY[4] == 100;
    forall i | 0 <= i < |d| && i != 7 ensures e[i] == if 36 <= i < 40 then BLOCK_ONLY[i - 32] else d[i] {
      UpdatedBytes(d, 0, BLOCK_ONLY, i);
    }
    assert e[36..40] == [100, 0, 0, 0];
  }

  // ---- invalidate

  /** A cleared entry keeps its block, its size and its attribute. */
  lemma ClearedAt(e: Bytes, k: nat)
    requires |e| == 24 && k < 24
    ensures Cleared(e)[k] == if 4 <= k < 8 || 16 <= k < 21 then e[k] else 0
  {
  }

  /** Entry `n` is the first one with the attribute `v`. */
  ghost predicate FirstWith(d: Disk, v: int, n: nat) {
    n < 7 && d[EntryOffset(n) + 20] == v && forall m: nat :: m < n ==> d[EntryOffset(m) + 20] != v
  }

  lemma {:induction false} HavingIsFirst(d: Disk, v: int, n: nat)
    requires n < 7
    ensures Having(Primary(d), v, 0) == n <==> FirstWith(d, v, n)
  {
    hide Having;
    var h := Primary(d);
    forall m: nat | m < 7 ensures Attribute(Entry(h, m)) == d[EntryOffset(m) + 20] {
      assert Entry(h, m)[20] == h[EntryOffset(m) + 20];
    }
    var r := Having(h, v, 0);
    assert r == n ==> FirstWith(d, v, n);
    assert r < n ==> d[EntryOffset(r) + 20] == v;
  }

  /** Some value names the entry. */
  ghost predicate Named(d: Disk, values: seq<int>, n: nat) {
    exists i :: 0 <= i < |values| && FirstWith(d, values[i], n)
  }

  lemma ChosenIsNamed(d: Disk, values: seq<int>, n: nat)
    requires n < 7
    ensures OsipRuns.Chosen(Primary(d), values, n) <==> Named(d, values, n)
  {
    hide FirstWith, Having;
    forall i | 0 <= i < |values| ensures Having(Primary(d), values[i], 0) == n <==> FirstWith(d, values[i], n) {
      HavingIsFirst(d, values[i], n);
    }
  }

  /** The entry that a byte of the header is in. */
  function EntryOf(i: nat): nat
    requires 32 <= i < 200
  {
    (i - 32) / 24
  }

  /** The device after invalidating, if it succeeds: in the entries named all but block, size and attribute is zero. */
  lemma InvalidatedBytes(d: Disk, values: seq<int>, i: nat)
    requires Sized(Primary(d)) && Invalidated(Primary(d), values).Some? && i < |d| && i != 7
    ensures var e := DoInvalidate(d, values);
            |e| == |d| && e[i] == if 32 <= i < 200 && Named(d, values, EntryOf(i)) &&
              !KeptAt((i - 32) % 24) then 0 else d[i]
  {
    hide Invalidated, Cleared, Named, Seal;
    var h := Primary(d);
    var g := Invalidated(h, values).value;
    SizedBy(g, h);
    if i < 32 {
      assert g[i] == g[..PREAMBLE][i] == h[..PREAMBLE][i];
    } else if i < 200 {
      InvalidatedEntries(h, values);
      var n, k := EntryOf(i), (i - 32) % 24;
      EntryByte(h, i);
      EntryByte(g, i);
      ChosenIsNamed(d, values, n);
      ClearedAt(Entry(h, n), k);
    }
  }

  /** Bytes of an entry that invalidating keeps. */
  predicate KeptAt(k: nat) { 4 <= k < 8 || 16 <= k < 21 }

  lemma EntryByte(h: Header, i: nat)
    requires 32 <= i < 200
    ensures EntryOf(i) < 7 && h[i] == Entry(h, EntryOf(i))[(i - 32) % 24]
  {
    var n, k := EntryOf(i), (i - 32) % 24;
    assert i == 32 + 24 * n + k;
  }

  /** It fails, and changes nothing, exactly if some value is the attribute of no entry. */
  lemma InvalidateFails(d: Disk, values: seq<int>)
    requires Sized(Primary(d))
    ensures Invalidated(Primary(d), values).None? <==>
            exists i :: 0 <= i < |values| && Missing(d, values[i])
    ensures Invalidated(Primary(d), values).None? ==> DoInvalidate(d, values) == d
  {
    hide Invalidated, Having, Missing;
    var h := Primary(d);
    InvalidatedEntries(h, values);
    forall i | 0 <= i < |values| ensures Having(h, values[i], 0) == 7 <==> Missing(d, values[i]) {
      MissingIs(d, values[i]);
    }
    if Chosen(h, values, 7) {
      var i :| 0 <= i < |values| && Having(h, values[i], 0) == 7;
      assert Missing(d, values[i]);
    }
  }

  /** No entry has the attribute. */
  ghost predicate Missing(d: Disk, v: int) {
    forall n: nat :: n < 7 ==> d[EntryOffset(n) + 20] != v
  }

  lemma MissingIs(d: Disk, v: int)
    ensures Having(Primary(d), v, 0) == 7 <==> Missing(d, v)
  {
    hide Having;
    var h := Primary(d);
    forall m: nat | m < 7 ensures Attribute(Entry(h, m)) == d[EntryOffset(m) + 20] {
      assert Entry(h, m)[20] == h[EntryOffset(m) + 20];
    }
    var r := Having(h, v, 0);
    if r < 7 { assert d[EntryOffset(r) + 20] == v; }
  }

  // ---- backup and restore

  /** A backup is a copy of the first 200 bytes at 0xE0. */
  lemma BackedUpBytes(d: Disk, i: nat)
    requires i < |d|
    ensures var e := DoBackup(d); |e| == |d| && e[i] == if 0xE0 <= i < 0xE0 + 200 then d[i - 0xE0] else d[i]
  {
  }

  /** "$OS$" at 0xE0. */
  predicate HasBackup(d: Disk) { d[0xE0] == 0x24 && d[0xE1] == 0x4f && d[0xE2] == 0x53 && d[0xE3] == 0x24 }

  lemma HasBackupIs(d: Disk)
    ensures Signed(Backup(d)) <==> HasBackup(d)
  {
    assert Backup(d)[..4] == [d[0xE0], d[0xE1], d[0xE2], d[0xE3]];
  }

  /** A restore copies it back, but for the checksum, and erases it; without one it changes nothing. */
  lemma RestoredBytes(d: Disk, i: nat)
    requires (Signed(Backup(d)) ==> Sized(Backup(d))) && i < |d| && i != 7
    ensures var e := DoRestore(d);
            && |e| == |d|
            && e[i] == (if !HasBackup(d) then d[i] else if i < 200 then d[0xE0 + i]
               else if 0xE0 <= i < 0xE0 + 200 then 0 else d[i])
  {
    HasBackupIs(d);
  }

  /** So a second restore finds none. */
  lemma RestoredOnce(d: Disk)
    requires Signed(Backup(d)) ==> Sized(Backup(d))
    ensures !Signed(Backup(DoRestore(d))) && DoRestore(DoRestore(d)) == DoRestore(d)
  {
    hide DoRestore;
    var e := DoRestore(d);
    HasBackupIs(d);
    if Signed(Backup(d)) { RestoredBytes(d, 0xE0); } else { RestoreIs(d); }
    HasBackupIs(e);
    RestoreIs(e);
  }

  lemma RestoreIs(d: Disk)
    requires !Signed(Backup(d))
    ensures DoRestore(d) == d
  {
  }

  // ---- flash

  /** Byte `k` of the entry recorded: the block stays as the header has it, the size is cut to 23 bits. */
  function RecordedByte(d: Disk, n: nat, image: Bytes, k: nat): byte
    requires n < 7 && |image| >= 200 && k < 24
  {
    if 4 <= k < 8 then d[EntryOffset(n) + k]
    else if k == 18 then image[EntryOffset(0) + 18] % 0x80
    else if k == 19 then 0
    else image[EntryOffset(0) + k]
  }

  /** The low 23 bits of a word. */
  function Low23(b: Bytes): nat
    requires |b| == 4
  {
    b[0] as int + 0x100 * b[1] as int + 0x1_0000 * (b[2] % 0x80) as int
  }

  lemma LowIs(b: Bytes)
    requires |b| == 4
    ensures U32(b) % 0x80_0000 == Low23(b) < 0x80_0000 && U32(b) * BLOCK % WORD == Low23(b) * BLOCK
  {
    var low: nat, high: nat := Low23(b), (b[2] / 0x80) as int + 2 * b[3] as int;
    assert U32(b) == low + 0x80_0000 * high && low < 0x80_0000;
    Remainder(low, 0x80_0000, high);
    Remainder(low * BLOCK, WORD, high);
  }

  lemma Remainder(r: nat, m: nat, q: nat)
    requires r < m
    ensures (r + m * q) % m == r
  {
    QuotientIs(r + m * q, m, q);
  }

  lemma Cut(b: Bytes)
    requires |b| == 4
    ensures Le32(U32(b) * BLOCK % WORD / BLOCK) == [b[0], b[1], b[2] % 0x80, 0]
  {
    hide U32, Le32;
    LowIs(b);
    var low := Low23(b);
    assert low * BLOCK / BLOCK == low;
    Split(b[0], b[1], b[2] % 0x80, low);
  }

  lemma Split(b0: byte, b1: byte, b2: byte, x: nat)
    requires x == b0 as int + 0x100 * b1 as int + 0x1_0000 * b2 as int
    ensures Le32(x) == [b0, b1, b2, 0]
  {
    QuotientIs(x, 0x100, b1 as int + 0x100 * b2 as int);
    QuotientIs(x, 0x1_0000, b2 as int);
    QuotientIs(x, 0x100_0000, 0);
  }

  lemma RecordedAtByte(d: Disk, n: nat, image: Bytes, k: nat)
    requires n < 7 && |image| >= 200 && k < 24
    ensures Recorded(Primary(d), n, image)[k] == RecordedByte(d, n, image, k)
  {
    var e := Entry(image[..HEADER], 0);
    Cut(e[16..20]);
    hide U32, Le32;
    assert forall j :: 0 <= j < 24 ==> e[j] == image[EntryOffset(0) + j];
    assert forall j :: 0 <= j < 24 ==> Entry(Primary(d), n)[j] == d[EntryOffset(n) + j];
  }

  /** The headers after an image has been recorded: entry `n`, in the backup if there is one; in the primary, which
      then counts one image, if there is none or `n` is 1. */
  function RecordedAs(d: Disk, n: nat, image: Bytes, i: nat): byte
    requires n < 7 && |image| >= 200 && i < |d|
  {
    var k := i - EntryOffset(n);
    if i < 200 && (n == 1 || !HasBackup(d)) then
      if i == 9 then 1 else if 0 <= k < 24 then RecordedByte(d, n, image, k) else d[i]
    else if HasBackup(d) && 0 <= k - 0xE0 < 24 then RecordedByte(d, n, image, k - 0xE0)
    else d[i]
  }

  lemma RelabelledBytes(d: Disk, n: nat, image: Bytes, i: nat)
    requires n < 7 && |image| >= 200 && i < 200
    ensures var k := i - EntryOffset(n);
            Relabelled(Primary(d), n, image)[i] ==
            if i == 9 then 1 else if 0 <= k < 24 then RecordedByte(d, n, image, k) else d[i]
  {
    hide Recorded, RecordedByte;
    var k := i - EntryOffset(n);
    if 0 <= k < 24 { RecordedAtByte(d, n, image, k); }
  }

  lemma RecordBytes(d: Disk, n: nat, image: Bytes, i: nat)
    requires n < 7 && |image| >= 200 && Sized(Primary(d)) && i < |d| && i != 7
    ensures var e := Record(d, n, image); |e| == |d| && e[i] == RecordedAs(d, n, image, i)
  {
    hide Recorded, RecordedByte, Relabelled, Seal;
    HasBackupIs(d);
    RecordLength(d, n, image);
    hide HasBackup, Signed;
    if i < 200 { RelabelledBytes(d, n, image, i); }
    var k := i - EntryOffset(n) - 0xE0;
    if 0 <= k < 24 { RecordedAtByte(d, n, image, k); }
  }

  /** Where the image goes: the block of the entry, of 512 bytes. */
  function Start(d: Disk, n: nat): nat
    requires n < 7
  {
    512 * Low23(d[EntryOffset(n) + 4..EntryOffset(n) + 8])
  }

  lemma StartIs(d: Disk, n: nat, image: Bytes)
    requires n < 7 && |image| >= 200
    ensures ImageAt(Recorded(Primary(d), n, image)) == if Start(d, n) < 0x8000_0000 then Start(d, n) else 0
  {
    hide Recorded, Low23, U32, Entry;
    var p := EntryOffset(n);
    EntrySlice(d, n, 4, 8);
    RecordedAt(Primary(d), n, image);
    LowIs(d[p + 4..p + 8]);
  }

  lemma EntrySlice(d: Bytes, n: nat, lo: nat, hi: nat)
    requires n < 7 && |d| >= 200 && lo <= hi <= 24
    ensures Entry(d[..HEADER], n)[lo..hi] == d[EntryOffset(n) + lo..EntryOffset(n) + hi]
  {
    var p := EntryOffset(n);
    SliceOfPrefix(d, HEADER, p, p + 24);
    SliceOfPrefix(d, p + 24, p + lo, p + hi);
    SliceOfSuffix(d[..p + 24], p, lo, hi);
    assert d[p..p + 24] == d[..p + 24][p..];
  }

  /** The device after flashing a well-made image: all of it but its first block from the start on, as far as the device
      reaches, and the entry. */
  lemma FlashedBytes(d: Disk, n: nat, image: Bytes, i: nat)
    requires n < 7 && Sized(Primary(d)) && WellMade(image) && i < |d| && i != 7 && 0 < Start(d, n) < 0x8000_0000
    ensures var e, j := DoFlash(d, n, image), i - Start(d, n);
            |e| == |d| && e[i] == if 0 <= j < |image| - 512 then image[512 + j] else RecordedAs(d, n, image, i)
  {
    hide Recorded, RecordedAs, Record, ImageAt, Start;
    StartIs(d, n, image);
    RecordBytes(d, n, image, i);
  }

  /** An image that is not well made changes nothing. */
  lemma NotFlashed(d: Disk, n: nat, image: Bytes)
    requires n < 7 && Sized(Primary(d))
    requires |image| < 512 || image[9] != 1 || U32(image[48..52]) * 512 % 0x1_0000_0000 != |image| - 512
    ensures DoFlash(d, n, image) == d
  {
    hide Entry, U32, Recorded, Record, ImageAt, WriteAt;
    if |image| >= 512 { EntrySlice(image, 0, 16, 20); }
  }
}
