/** The handlers of flash_stitched on a device and a header in memory. */
module OsipDevice {
  import opened Bits
  import opened OsipFormat
  import opened OsipCommands

  /** memcpy, and write at an offset. */
  method CopyInto(a: array<byte>, off: nat, b: Bytes)
    requires off + |b| <= a.Length
    modifies a
    ensures a[..] == Put(old(a[..]), off, b)
  {
    ghost var was := a[..];
    for i := 0 to |b|
      invariant forall k :: 0 <= k < a.Length ==> a[k] == if off <= k < off + i then b[k - off] else was[k]
    {
      a[off + i] := b[i];
    }
    assert a[..] == Put(was, off, b);
  }

  /** read_OSIP_loc: a copy of one of the headers. */
  method ReadOsip(device: array<byte>, backup: bool) returns (osip: array<byte>)
    requires device.Length >= BLOCK
    ensures fresh(osip) && osip.Length == HEADER
    ensures osip[..] == if backup then Backup(device[..]) else Primary(device[..])
  {
    osip := new byte[HEADER](_ => 0);
    var off := if backup then BACKUP_LOC else 0;
    CopyInto(osip, 0, device[off..off + HEADER]);
    assert osip[..] == device[off..off + HEADER];
  }

  /** write_OSIP: sets the checksum and writes the header to the start of the device. */
  method WriteOsip(device: array<byte>, osip: array<byte>)
    requires device.Length >= BLOCK && osip.Length == HEADER && osip != device && Sized(osip[..])
    modifies device, osip
    ensures osip[..] == Seal(old(osip[..])) && device[..] == PutPrimary(old(device[..]), Seal(old(osip[..])))
  {
    ghost var was: Header := osip[..];
    osip[CHECKSUM] := 0;
    assert osip[..] == was[CHECKSUM := 0];
    var size := osip[10] as int + 0x100 * osip[11] as int;
    var checksum: byte := 0;
    for i := 0 to size
      invariant osip[..] == was[CHECKSUM := 0] && checksum == XorAll(osip[..i])
    {
      assert osip[..i + 1][..i] == osip[..i];
      checksum := XorByte(checksum, osip[i]);
    }
    assert osip[..size] == was[CHECKSUM := 0][..size];
    osip[CHECKSUM] := checksum;
    assert osip[..] == Seal(was);
    CopyInto(device, 0, osip[..]);
  }

  method BackupHandle(device: array<byte>, osip: array<byte>)
    requires device.Length >= BLOCK && osip.Length == HEADER && osip != device
    modifies device
    ensures device[..] == PutBackup(old(device[..]), osip[..])
  {
    CopyInto(device, BACKUP_LOC, osip[..]);
  }

  method RestoreHandle(device: array<byte>) returns (code: int)
    requires device.Length >= BLOCK && Healthy(device[..])
    modifies device
    ensures device[..] == DoRestore(old(device[..])) && (code == 0 <==> Signed(Backup(old(device[..]))))
  {
    hide Seal, HeaderSize, Put;
    var osip := ReadOsip(device, true);
    if osip[..4] != [0x24, 0x4f, 0x53, 0x24] { return -1; }
    WriteOsip(device, osip);
    CopyInto(device, BACKUP_LOC, Blank());
    return 0;
  }

  /** The field is taken over unless it is all ones. */
  method Take(was: Bytes, given: Bytes, lo: nat, hi: nat) returns (r: Bytes)
    requires |was| == |given| == ENTRY && lo <= hi <= ENTRY
    ensures r == was[..lo] + Field(was, given, lo, hi) + was[hi..]
  {
    r := was;
    if given[lo..hi] != seq(hi - lo, _ => 0xff) { r := was[..lo] + given[lo..hi] + was[hi..]; }
    else { assert was == was[..lo] + was[lo..hi] + was[hi..]; }
  }

  /** A field that has not been taken over yet is as it was. */
  lemma NextField(done: Bytes, was: Bytes, given: Bytes, lo: nat, hi: nat)
    requires |was| == |given| == ENTRY && |done| == lo <= hi <= ENTRY
    ensures var now := done + was[lo..];
            now[..lo] + Field(now, given, lo, hi) + now[hi..] == (done + Field(was, given, lo, hi)) + was[hi..]
  {
    var now := done + was[lo..];
    assert now[..lo] == done && now[lo..hi] == was[lo..hi] && now[hi..] == was[hi..];
  }

  method UpdateHandle(device: array<byte>, number: nat, given: Bytes)
    requires device.Length >= BLOCK && number < ENTRIES && |given| == ENTRY && Sized(Primary(device[..]))
    modifies device
    ensures device[..] == DoUpdate(old(device[..]), number, given)
  {
    hide Seal, Put, Field;
    var osip := ReadOsip(device, false);
    ghost var h: Header := osip[..];
    var was := osip[PREAMBLE + ENTRY * number..PREAMBLE + ENTRY * (number + 1)];
    var upd := Take(was, given, 0, 2);
    NextField([], was, given, 0, 2);
    ghost var done := Field(was, given, 0, 2);
    assert upd == done + was[2..];
    NextField(done, was, given, 2, 4);
    upd := Take(upd, given, 2, 4);
    done := done + Field(was, given, 2, 4);
    NextField(done, was, given, 4, 8);
    upd := Take(upd, given, 4, 8);
    done := done + Field(was, given, 4, 8);
    NextField(done, was, given, 8, 12);
    upd := Take(upd, given, 8, 12);
    done := done + Field(was, given, 8, 12);
    NextField(done, was, given, 12, 16);
    upd := Take(upd, given, 12, 16);
    done := done + Field(was, given, 12, 16);
    NextField(done, was, given, 16, 20);
    upd := Take(upd, given, 16, 20);
    done := done + Field(was, given, 16, 20);
    NextField(done, was, given, 20, 21);
    upd := Take(upd, given, 20, 21);
    assert upd == Merged(was, given);
    CopyInto(osip, PREAMBLE + ENTRY * number, upd);
    assert osip[..] == SetEntry(h, number, upd);
    SizedBy(osip[..], h);
    WriteOsip(device, osip);
  }

  /** The inner loop of invalidate_handle. */
  method FindAttribute(osip: array<byte>, value: int) returns (j: nat)
    requires osip.Length == HEADER
    ensures j == Having(osip[..], value, 0)
  {
    j := 0;
    while j < ENTRIES
      invariant j <= ENTRIES && Having(osip[..], value, j) == Having(osip[..], value, 0)
    {
      assert osip[PREAMBLE + ENTRY * j + 20] == Attribute(Entry(osip[..], j));
      if value == osip[PREAMBLE + ENTRY * j + 20] { return; }
      j := j + 1;
    }
  }

  method InvalidateHandle(device: array<byte>, values: seq<int>) returns (code: int)
    requires device.Length >= BLOCK && Sized(Primary(device[..]))
    modifies device
    ensures device[..] == DoInvalidate(old(device[..]), values)
    ensures code == 0 <==> Invalidated(Primary(old(device[..])), values).Some?
  {
    hide Seal, Put, Having, Cleared, HeaderSize, Signed;
    var osip := ReadOsip(device, false);
    ghost var h: Header := osip[..];
    for i := 0 to |values|
      invariant device[..] == old(device[..]) && fresh(osip)
      invariant osip[..PREAMBLE] == h[..PREAMBLE] && Invalidated(h, values) == Invalidated(osip[..], values[i..])
    {
      ghost var cur: Header := osip[..];
      var j := FindAttribute(osip, values[i]);
      assert values[i..][1..] == values[i + 1..];
      if j >= ENTRIES { return -1; }
      ClearEntry(osip, j);
      SamePreamble(osip[..], cur);
    }
    assert values[|values|..] == [];
    SizedBy(osip[..], h);
    WriteOsip(device, osip);
    return 0;
  }

  lemma SamePreamble(h: Header, g: Header)
    requires h[..PREAMBLE] == g[..PREAMBLE]
    ensures forall i :: 0 <= i < PREAMBLE ==> h[i] == g[i]
  {
    forall i | 0 <= i < PREAMBLE ensures h[i] == g[i] { assert h[i] == h[..PREAMBLE][i] == g[..PREAMBLE][i]; }
  }

  method ClearEntry(osip: array<byte>, j: nat)
    requires osip.Length == HEADER && j < ENTRIES
    modifies osip
    ensures osip[..] == SetEntry(old(osip[..]), j, Cleared(Entry(old(osip[..]), j)))
  {
    ghost var h: Header := osip[..];
    var e := osip[PREAMBLE + ENTRY * j..PREAMBLE + ENTRY * (j + 1)];
    assert e == Entry(h, j);
    var block, size, attribute := e[4..8], e[16..20], e[20];
    var zeros: Bytes := seq(ENTRY, _ => 0);
    var cleared := zeros[..4] + block + zeros[8..16] + size + [attribute] + zeros[21..];
    assert cleared == Cleared(e);
    CopyInto(osip, PREAMBLE + ENTRY * j, cleared);
  }

  // ---- write_stitch_image

  /** The image is on the device from there on. */
  ghost predicate OnDevice(d: Bytes, off: nat, blob: Bytes) {
    blob == [] || (off + |blob| <= |d| && d[off..off + |blob|] == blob)
  }

  lemma OnDeviceSplit(d: Bytes, off: nat, a: Bytes, b: Bytes)
    ensures OnDevice(d, off, a + b) <==> OnDevice(d, off, a) && OnDevice(d, off + |a|, b)
  {
    if a == [] { assert a + b == b; }
    else if b == [] { assert a + b == a; }
    else if off + |a| + |b| <= |d| {
      assert d[off..off + |a| + |b|] == d[off..off + |a|] + d[off + |a|..off + |a| + |b|];
      assert d[off..off + |a| + |b|][..|a|] == d[off..off + |a|] &&
             d[off..off + |a| + |b|][|a|..] == d[off + |a|..off + |a| + |b|];
    }
  }

  method SameBytes(device: array<byte>, off: nat, blob: Bytes) returns (same: bool)
    requires blob != []
    ensures same <==> OnDevice(device[..], off, blob)
  {
    same := off + |blob| <= device.Length && device[off..off + |blob|] == blob;
    if off + |blob| <= device.Length { assert device[..][off..off + |blob|] == device[off..off + |blob|]; }
  }

  /** check_image_valid: the image is read back block by block. */
  method CheckImageValid(device: array<byte>, size: nat, image: Bytes, block: nat) returns (code: int)
    requires size >= BLOCK && |image| == size - BLOCK
    ensures code == 0 <==> OnDevice(device[..], Seek(block), image)
  {
    var blocks, residue := size / BLOCK - 1, size % BLOCK;
    var pos: nat, blob := Seek(block), image;
    for i := 1 to blocks + 1
      invariant |blob| == BLOCK * (blocks + 1 - i) + residue
      invariant OnDevice(device[..], Seek(block), image) <==> OnDevice(device[..], pos, blob)
    {
      OnDeviceSplit(device[..], pos, blob[..BLOCK], blob[BLOCK..]);
      assert blob == blob[..BLOCK] + blob[BLOCK..];
      var same := SameBytes(device, pos, blob[..BLOCK]);
      if !same { return -1; }
      pos, blob := pos + BLOCK, blob[BLOCK..];
    }
    if residue != 0 {
      var same := SameBytes(device, pos, blob);
      if !same { return -1; }
    }
    return 0;
  }

  /** Less than a block cannot pass for a number of blocks. */
  lemma SizeMatches(x: nat, size: nat)
    requires 0 < size < BLOCK
    ensures x * BLOCK % WORD != (size - BLOCK) % WORD
  {
    var q := x * BLOCK / WORD;
    assert x * BLOCK % WORD == (x - q * (WORD / BLOCK)) * BLOCK;
    assert (size - BLOCK) % WORD == size - BLOCK + WORD;
  }

  /** The entry as it is recorded, field by field. */
  lemma RecordedFields(h: Header, n: nat, image: Bytes, e: Bytes)
    requires n < ENTRIES && |image| >= HEADER
    requires e == Put(Put(Entry(image[..HEADER], 0), 4, Entry(h, n)[4..8]), 16,
             Le32(U32(Entry(image[..HEADER], 0)[16..20]) * BLOCK % WORD / BLOCK))
    ensures e == Recorded(h, n, image)
  {
    hide U32, Le32;
  }

  lemma SealTwice(h: Header)
    requires Sized(h)
    ensures Seal(Seal(h)) == Seal(h)
  {
    hide XorAll;
    assert Seal(h)[CHECKSUM := 0] == h[CHECKSUM := 0];
  }

  /** The part that fits is written. */
  method WriteBlob(device: array<byte>, off: nat, blob: Bytes) returns (ok: bool)
    requires device.Length >= BLOCK
    modifies device
    ensures device[..] == WriteAt(old(device[..]), off, blob)
    ensures ok <==> blob == [] || off + |blob| <= device.Length
  {
    ghost var d := device[..];
    ok := true;
    if off + |blob| <= device.Length {
      CopyInto(device, off, blob);
    } else {
      if off < device.Length { CopyInto(device, off, blob[..device.Length - off]); }
      ok := blob == [];
    }
    if off >= |d| { assert device[..] == d; }
  }

  /** The headers' part of write_stitch_image. */
  method RecordImage(device: array<byte>, number: nat, osii: Bytes, ghost image: Bytes)
    requires device.Length >= BLOCK && number < ENTRIES && |image| >= HEADER && Healthy(device[..])
    requires osii == Recorded(Primary(device[..]), number, image)
    modifies device
    ensures device[..] == Record(old(device[..]), number, image)
  {
    hide Seal, Put, HeaderSize, Recorded, Signed;
    ghost var d: Disk := device[..];
    var osip := ReadOsip(device, false);
    osip[NUM_IMAGES] := 1;
    assert osip[..] == Primary(d)[NUM_IMAGES := 1];
    CopyInto(osip, PREAMBLE + ENTRY * number, osii);
    ghost var h: Header := osip[..];
    assert h == Relabelled(Primary(d), number, image);
    SealTwice(h);
    if number == POS { WriteOsip(device, osip); }
    var backup := ReadOsip(device, true);
    if backup[..4] != [0x24, 0x4f, 0x53, 0x24] {
      Unsigned(backup[..]);
      WriteOsip(device, osip);
    } else {
      IsSigned(backup[..]);
      WriteEntry(device, osii, number, true);
    }
  }

  lemma Unsigned(h: Header)
    requires h[..4] != [0x24, 0x4f, 0x53, 0x24]
    ensures !Signed(h)
  {
  }

  lemma IsSigned(h: Header)
    requires h[..4] == [0x24, 0x4f, 0x53, 0x24]
    ensures Signed(h)
  {
  }

  /** write_OSII_entry: an entry is written in place into one of the headers on the device. */
  method WriteEntry(device: array<byte>, osii: Bytes, number: nat, backup: bool)
    requires device.Length >= BLOCK && number < ENTRIES && |osii| == ENTRY
    modifies device
    ensures backup ==> device[..] == PutBackup(old(device[..]), SetEntry(Backup(old(device[..])), number, osii))
    ensures !backup ==> device[..] == PutPrimary(old(device[..]), SetEntry(Primary(old(device[..])), number, osii))
  {
    hide Put;
    if backup {
      Nested(device[..], BACKUP_LOC, PREAMBLE + ENTRY * number, osii);
      CopyInto(device, BACKUP_LOC + PREAMBLE + ENTRY * number, osii);
    } else {
      Nested(device[..], 0, PREAMBLE + ENTRY * number, osii);
      CopyInto(device, PREAMBLE + ENTRY * number, osii);
    }
  }

  /** Writing into a header in place. */
  lemma Nested(d: Disk, base: nat, off: nat, e: Bytes)
    requires base + HEADER <= |d| && off + |e| <= HEADER
    ensures Put(d, base + off, e) == Put(d, base, Put(d[base..base + HEADER], off, e))
  {
    var h := d[base..base + HEADER];
    var l, r := Put(d, base + off, e), Put(d, base, Put(h, off, e));
    hide Put;
    forall i | 0 <= i < |d| ensures l[i] == r[i] {}
  }

  /** A file passes both tests exactly if it is well made: what lies behind a shorter one makes no difference. */
  lemma Announces(image: Bytes, behind: Bytes)
    requires 0 < |image| < WORD && |image| + |behind| >= HEADER
    ensures var head := (image + behind)[..HEADER];
            && (head[NUM_IMAGES] == 1 && U32(Entry(head, 0)[16..20]) * BLOCK % WORD == (|image| - BLOCK) % WORD
                <==> WellMade(image))
            && (|image| >= HEADER ==> head == image[..HEADER])
  {
    hide U32;
    var head := (image + behind)[..HEADER];
    if |image| < BLOCK {
      SizeMatches(U32(Entry(head, 0)[16..20]), |image|);
    } else {
      assert head == image[..HEADER];
    }
  }

  /** The file is taken for a header without looking at its length: of a shorter file, what lies `behind` it is read
      as well. */
  method WriteStitchImage(device: array<byte>, image: Bytes, behind: Bytes, number: nat) returns (code: int)
    requires device.Length >= BLOCK && number < ENTRIES && Healthy(device[..])
    requires 0 < |image| < WORD && |image| + |behind| >= HEADER
    modifies device
    ensures device[..] == DoFlash(old(device[..]), number, image)
    ensures code == 0 <==> FlashSucceeds(old(device[..]), number, image)
  {
    hide Seal, Put, HeaderSize, Signed, Relabelled, Record, U32, Le32, Recorded, Seek, Healthy;
    ghost var d: Disk := device[..];
    var head := (image + behind)[..HEADER];
    if head[NUM_IMAGES] != 1 { return -1; }
    var osii := Entry(head, 0);
    var size := U32(osii[16..20]);
    Announces(image, behind);
    if size * BLOCK % WORD != (|image| - BLOCK) % WORD { return -1; }
    var osip := ReadOsip(device, false);
    osii := Put(osii, 4, Entry(osip[..], number)[4..8]);
    osii := Put(osii, 16, Le32(size * BLOCK % WORD / BLOCK));
    RecordedFields(Primary(d), number, image, osii);
    RecordImage(device, number, osii, image);
    ghost var e: Disk := device[..];
    var ok := WriteBlob(device, ImageAt(osii), image[BLOCK..]);
    if !ok { return -1; }
    WrittenIsThere(e, ImageAt(osii), image[BLOCK..]);
    code := CheckImageValid(device, |image|, image[BLOCK..], U32(osii[4..8]));
  }

  lemma WrittenIsThere(d: Disk, off: nat, blob: Bytes)
    requires blob == [] || off + |blob| <= |d|
    ensures OnDevice(WriteAt(d, off, blob), off, blob)
  {
  }
}
