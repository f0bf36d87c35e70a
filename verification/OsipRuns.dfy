/** What holds over every sequence of commands: sound primaries, separate regions, faithful restores. */
module OsipRuns {
  import opened Bits
  import opened OsipFormat
  import opened OsipCommands

  /** The checksum of the header covers itself. */
  predicate Covered(h: Header) { CHECKSUM < HeaderSize(h) <= HEADER }

  /** Both headers, as far as they are in use, have a checksum that covers itself. */
  predicate Fit(d: Disk) { Covered(Primary(d)) && (Signed(Backup(d)) ==> Covered(Backup(d))) }

  /** An image does not start in the first block. */
  predicate Apart(d: Disk, c: Command) {
    match c
    case FlashCommand(n, image) => n < ENTRIES && 0 < U32(Entry(Primary(d), n)[4..8]) % 0x80_0000 < 0x40_0000
    case _ => true
  }

  // ---- where images go

  /** Images are written past the first block exactly if the low 23 bits of the block number are positive as a signed
      number. */
  lemma PastFirstBlock(x: nat)
    ensures Seek(x) >= BLOCK <==> 0 < x % 0x80_0000 < 0x40_0000
    ensures Seek(x) < BLOCK ==> Seek(x) == 0
  {
    var q, r := x / 0x80_0000, x % 0x80_0000;
    assert x * BLOCK == q * WORD + r * BLOCK;
    assert x * BLOCK % WORD == r * BLOCK;
  }

  lemma RecordedAt(h: Header, n: nat, image: Bytes)
    requires n < ENTRIES && |image| >= HEADER
    ensures ImageAt(Recorded(h, n, image)) == Seek(U32(Entry(h, n)[4..8]))
  {
    assert Recorded(h, n, image)[4..8] == Entry(h, n)[4..8];
  }

  /** A recorded entry says how many blocks were written. */
  lemma RecordedSize(h: Header, n: nat, image: Bytes)
    requires n < ENTRIES && WellMade(image)
    ensures U32(Recorded(h, n, image)[16..20]) * BLOCK == |image| - BLOCK
  {
    var x := U32(Entry(image[..HEADER], 0)[16..20]) * BLOCK % WORD / BLOCK;
    assert Recorded(h, n, image)[16..20] == Le32(x);
    hide Recorded, U32, Le32;
    Le32U32(x);
    WholeBlocks(U32(Entry(image[..HEADER], 0)[16..20]));
  }

  lemma WholeBlocks(x: nat)
    ensures x * BLOCK % WORD / BLOCK * BLOCK == x * BLOCK % WORD
  {
    var q, r := x / 0x80_0000, x % 0x80_0000;
    assert x * BLOCK == q * WORD + r * BLOCK;
    assert x * BLOCK % WORD == r * BLOCK;
  }

  lemma WriteAfter(d: Disk, off: nat, b: Bytes)
    requires off >= BLOCK
    ensures WriteAt(d, off, b)[..BLOCK] == d[..BLOCK]
  {
  }

  lemma SameBlock(d: Disk, e: Disk)
    requires d[..BLOCK] == e[..BLOCK]
    ensures Primary(d) == Primary(e) && Backup(d) == Backup(e)
  {
    SliceOfPrefix(d, BLOCK, 0, HEADER);
    SliceOfPrefix(e, BLOCK, 0, HEADER);
    SliceOfPrefix(d, BLOCK, BACKUP_LOC, BACKUP_LOC + HEADER);
    SliceOfPrefix(e, BLOCK, BACKUP_LOC, BACKUP_LOC + HEADER);
  }

  /** A flashed image leaves the headers as Record made them. */
  lemma FlashedHeaders(d: Disk, n: nat, image: Bytes)
    requires n < ENTRIES && Sized(Primary(d)) && WellMade(image) && Apart(d, FlashCommand(n, image))
    ensures DoFlash(d, n, image)[..BLOCK] == Record(d, n, image)[..BLOCK]
    ensures Primary(DoFlash(d, n, image)) == Primary(Record(d, n, image))
    ensures Backup(DoFlash(d, n, image)) == Backup(Record(d, n, image))
  {
    hide Recorded, Record, U32;
    RecordedAt(Primary(d), n, image);
    PastFirstBlock(U32(Entry(Primary(d), n)[4..8]));
    WriteAfter(Record(d, n, image), ImageAt(Recorded(Primary(d), n, image)), image[BLOCK..]);
    SameBlock(DoFlash(d, n, image), Record(d, n, image));
  }

  /** Otherwise the image goes over the headers. */
  lemma FlashedOverHeaders(d: Disk, n: nat, image: Bytes)
    requires n < ENTRIES && Sized(Primary(d)) && WellMade(image) && 2 * BLOCK <= |image| <= |d|
    requires !Apart(d, FlashCommand(n, image))
    ensures DoFlash(d, n, image)[..BLOCK] == image[BLOCK..2 * BLOCK]
  {
    hide Recorded, Record, U32, WellMade;
    RecordedAt(Primary(d), n, image);
    PastFirstBlock(U32(Entry(Primary(d), n)[4..8]));
    var e := Record(d, n, image);
    assert DoFlash(d, n, image) == WriteAt(e, 0, image[BLOCK..]);
    RecordLength(d, n, image);
  }

  /** A device of two blocks whose first entry starts at block 0x800000. */
  function FarDisk(): Disk { seq(2 * BLOCK, i => if i == 10 then 56 else if i == PREAMBLE + 6 then 0x80 else 0) }

  /** An image of one block. */
  function OneBlock(): Bytes {
    seq(2 * BLOCK, i => if i == NUM_IMAGES || i == PREAMBLE + 16 then 1 else if i >= BLOCK then 0xaa else 0)
  }

  lemma FieldAt(h: Header, lo: nat)
    requires lo + 4 <= ENTRY
    ensures var p := PREAMBLE + lo; Entry(h, 0)[lo..lo + 4] == [h[p], h[p + 1], h[p + 2], h[p + 3]]
  {
  }

  /** Flashing it there replaces the whole first block. */
  lemma FarDiskLost()
    ensures U32(Entry(Primary(FarDisk()), 0)[4..8]) == 0x80_0000 && Seek(0x80_0000) == 0
    ensures Sized(Primary(FarDisk())) && WellMade(OneBlock())
    ensures DoFlash(FarDisk(), 0, OneBlock())[..BLOCK] == seq(BLOCK, _ => 0xaa)
  {
    hide Recorded, Record, Entry;
    var d, image := FarDisk(), OneBlock();
    var h := Primary(d);
    assert h[10] == d[10] && h[11] == d[11];
    FieldAt(h, 4);
    FieldAt(image[..HEADER], 16);
    assert h[PREAMBLE + 4] == d[PREAMBLE + 4] && h[PREAMBLE + 5] == d[PREAMBLE + 5];
    assert h[PREAMBLE + 6] == d[PREAMBLE + 6] && h[PREAMBLE + 7] == d[PREAMBLE + 7];
    FlashedOverHeaders(FarDisk(), 0, image);
    assert image[BLOCK..2 * BLOCK] == seq(BLOCK, _ => 0xaa);
  }

  lemma RecordLength(d: Disk, n: nat, image: Bytes)
    requires n < ENTRIES && |image| >= HEADER && Sized(Primary(d))
    ensures |Record(d, n, image)| == |d|
  {
    hide Seal, Relabelled, Recorded, SetEntry;
  }

  // ---- one command

  lemma SealCovered(h: Header)
    requires Covered(h)
    ensures Sound(Seal(h)) && Covered(Seal(h))
  {
    hide XorAll;
    SealIsSound(h);
  }

  lemma SetEntryKeeps(h: Header, n: nat, e: Bytes)
    requires n < ENTRIES && |e| == ENTRY
    ensures HeaderSize(SetEntry(h, n, e)) == HeaderSize(h) && Signed(SetEntry(h, n, e)) == Signed(h)
  {
    SizedBy(SetEntry(h, n, e), h);
  }

  lemma BlankUnsigned()
    ensures !Signed(Blank())
  {
    assert Blank()[..4][0] == 0;
  }

  /** A command leaves the primary alone or makes it sound, and keeps both headers fit. */
  lemma CommandKeeps(d: Disk, c: Command)
    requires Fit(d) && Formed(c) && Apart(d, c)
    ensures Fit(Do(d, c))
    ensures Sound(Primary(Do(d, c))) || Primary(Do(d, c)) == Primary(d)
  {
    hide Seal, Sound, HeaderSize, Signed, SetEntry, Merged, Recorded, Relabelled, Invalidated, Put, WriteAt, WellMade,
         Blank;
    match c
    case BackupCommand =>
    case RestoreCommand => if Signed(Backup(d)) { SealCovered(Backup(d)); BlankUnsigned(); }
    case FlashCommand(n, image) =>
      if WellMade(image) {
        HasHeader(image);
        FlashedHeaders(d, n, image);
        SealCovered(Relabelled(Primary(d), n, image));
        SetEntryKeeps(Backup(d), n, Recorded(Primary(d), n, image));
      }
    case UpdateCommand(n, given) =>
      var h := SetEntry(Primary(d), n, Merged(Entry(Primary(d), n), given));
      SetEntryKeeps(Primary(d), n, Merged(Entry(Primary(d), n), given));
      SealCovered(h);
    case InvalidateCommand(values) =>
      var h := Invalidated(Primary(d), values);
      if h.Some? { SizedBy(h.value, Primary(d)); SealCovered(h.value); }
    case RefuseCommand =>
  }

  lemma HasHeader(image: Bytes)
    requires WellMade(image)
    ensures |image| >= BLOCK
  {
  }

  /** Writes to one region leave the other alone, and nothing touches the rest of the first block. */
  lemma CommandSeparates(d: Disk, c: Command)
    requires Fit(d) && Formed(c) && Apart(d, c)
    ensures Do(d, c)[HEADER..BACKUP_LOC] == d[HEADER..BACKUP_LOC]
    ensures Do(d, c)[BACKUP_LOC + HEADER..BLOCK] == d[BACKUP_LOC + HEADER..BLOCK]
    ensures c.BackupCommand? ==> Primary(Do(d, c)) == Primary(d)
    ensures c.UpdateCommand? || c.InvalidateCommand? ==> Backup(Do(d, c)) == Backup(d)
    ensures c.FlashCommand? && Signed(Backup(d)) && c.number != POS ==> Primary(Do(d, c)) == Primary(d)
    ensures c.FlashCommand? && !Signed(Backup(d)) ==> Backup(Do(d, c)) == Backup(d)
    ensures !Succeeds(d, c) && !c.FlashCommand? ==> Do(d, c) == d
  {
    hide Seal, Sound, HeaderSize, Signed, SetEntry, Merged, Recorded, Relabelled, Invalidated, Put, WriteAt, WellMade,
         Blank;
    match c
    case BackupCommand => Gaps(d, Do(d, c));
    case RestoreCommand =>
      if Signed(Backup(d)) {
        var e := PutPrimary(d, Seal(Backup(d)));
        Gaps(d, e);
        Gaps(e, PutBackup(e, Blank()));
      }
    case FlashCommand(n, image) =>
      if WellMade(image) {
        HasHeader(image);
        FlashedHeaders(d, n, image);
        RecordGaps(d, n, image);
        SameGaps(Do(d, c), Record(d, n, image));
      }
    case UpdateCommand(n, given) => Gaps(d, Do(d, c));
    case InvalidateCommand(values) => if Invalidated(Primary(d), values).Some? { Gaps(d, Do(d, c)); }
    case RefuseCommand =>
  }

  /** The first block but for its two headers. */
  ghost predicate SameElsewhere(d: Disk, e: Disk) {
    d[HEADER..BACKUP_LOC] == e[HEADER..BACKUP_LOC] && d[BACKUP_LOC + HEADER..BLOCK] == e[BACKUP_LOC + HEADER..BLOCK]
  }

  lemma SameGaps(d: Disk, e: Disk)
    requires d[..BLOCK] == e[..BLOCK]
    ensures SameElsewhere(d, e)
  {
    SliceOfPrefix(d, BLOCK, HEADER, BACKUP_LOC);
    SliceOfPrefix(e, BLOCK, HEADER, BACKUP_LOC);
    SliceOfPrefix(d, BLOCK, BACKUP_LOC + HEADER, BLOCK);
    SliceOfPrefix(e, BLOCK, BACKUP_LOC + HEADER, BLOCK);
  }

  lemma Gaps(d: Disk, e: Disk)
    requires |d| == |e|
    requires d[HEADER..] == e[HEADER..] ||
             (d[..BACKUP_LOC] == e[..BACKUP_LOC] && d[BACKUP_LOC + HEADER..] == e[BACKUP_LOC + HEADER..])
    ensures SameElsewhere(d, e)
  {
    if d[HEADER..] == e[HEADER..] {
      SliceOfSuffix(d, HEADER, 0, BACKUP_LOC - HEADER);
      SliceOfSuffix(e, HEADER, 0, BACKUP_LOC - HEADER);
      SliceOfSuffix(d, HEADER, BACKUP_LOC, BLOCK - HEADER);
      SliceOfSuffix(e, HEADER, BACKUP_LOC, BLOCK - HEADER);
    } else {
      SliceOfPrefix(d, BACKUP_LOC, HEADER, BACKUP_LOC);
      SliceOfPrefix(e, BACKUP_LOC, HEADER, BACKUP_LOC);
      var n := BACKUP_LOC + HEADER;
      SliceOfSuffix(d, n, 0, BLOCK - n);
      SliceOfSuffix(e, n, 0, BLOCK - n);
    }
  }

  lemma RecordGaps(d: Disk, n: nat, image: Bytes)
    requires n < ENTRIES && |image| >= HEADER && Sized(Primary(d))
    ensures SameElsewhere(Record(d, n, image), d)
    ensures Signed(Backup(d)) && n != POS ==> Primary(Record(d, n, image)) == Primary(d)
    ensures !Signed(Backup(d)) ==> Backup(Record(d, n, image)) == Backup(d)
  {
    hide Seal, Signed, SetEntry, Recorded, Relabelled, Put;
    var h := Seal(Relabelled(Primary(d), n, image));
    var d1 := if n == POS then PutPrimary(d, h) else d;
    Gaps(d, d1);
    Gaps(d1, Record(d, n, image));
  }

  // ---- runs

  /** Every command of the run is well formed and every image it flashes stays out of the first block. */
  ghost predicate Permitted(d: Disk, cs: seq<Command>)
    requires Fit(d)
    decreases |cs|
  {
    cs == [] || (Formed(cs[0]) && Apart(d, cs[0]) && (CommandKeeps(d, cs[0]); Permitted(Do(d, cs[0]), cs[1..])))
  }

  ghost function Run(d: Disk, cs: seq<Command>): Disk
    requires Fit(d) && Permitted(d, cs)
    decreases |cs|
  {
    if cs == [] then d else (CommandKeeps(d, cs[0]); Run(Do(d, cs[0]), cs[1..]))
  }

  /** After any run the primary is sound, unless no command has written it. */
  lemma {:induction false} RunSound(d: Disk, cs: seq<Command>)
    requires Fit(d) && Permitted(d, cs)
    ensures Fit(Run(d, cs))
    ensures Sound(Primary(Run(d, cs))) || Primary(Run(d, cs)) == Primary(d)
    decreases |cs|
  {
    if cs != [] {
      hide Do, Fit, Sound, Formed, Apart;
      CommandKeeps(d, cs[0]);
      RunSound(Do(d, cs[0]), cs[1..]);
    }
  }

  /** No run changes the first block outside its two headers. */
  lemma {:induction false} RunSeparates(d: Disk, cs: seq<Command>)
    requires Fit(d) && Permitted(d, cs)
    ensures SameElsewhere(Run(d, cs), d)
    decreases |cs|
  {
    if cs != [] {
      hide Do, Fit, Formed, Apart;
      CommandKeeps(d, cs[0]);
      CommandSeparates(d, cs[0]);
      RunSeparates(Do(d, cs[0]), cs[1..]);
    }
  }

  // ---- backup and restore

  ghost predicate NoBackups(cs: seq<Command>) {
    forall i :: 0 <= i < |cs| ==> !cs[i].BackupCommand? && !cs[i].RestoreCommand?
  }

  /** What the last flash of each entry of the run recorded. */
  ghost function Flashed(d: Disk, cs: seq<Command>, n: nat): (r: Option<Bytes>)
    requires Fit(d) && Permitted(d, cs) && n < ENTRIES
    ensures r.Some? ==> |r.value| == ENTRY
    decreases |cs|
  {
    if cs == [] then None
    else
      CommandKeeps(d, cs[0]);
      var later := Flashed(Do(d, cs[0]), cs[1..], n);
      if later.Some? then later
      else if cs[0].FlashCommand? && cs[0].number == n && WellMade(cs[0].image)
      then Some(Recorded(Primary(d), n, cs[0].image))
      else None
  }

  /** The header with the flashed entries replaced. */
  ghost predicate Replaced(h: Header, g: Header, d: Disk, cs: seq<Command>)
    requires Fit(d) && Permitted(d, cs)
  {
    h[..PREAMBLE] == g[..PREAMBLE] &&
    forall n: nat :: n < ENTRIES ==>
      Entry(h, n) == (if Flashed(d, cs, n).Some? then Flashed(d, cs, n).value else Entry(g, n))
  }

  /** One command changes the backup only where it flashes. */
  lemma BackupStep(d: Disk, c: Command)
    requires Fit(d) && Formed(c) && Apart(d, c) && Signed(Backup(d)) && !c.BackupCommand? && !c.RestoreCommand?
    ensures Backup(Do(d, c)) == if c.FlashCommand? &&
            WellMade(c.image) then SetEntry(Backup(d), c.number, Recorded(Primary(d), c.number, c.image)) else Backup(d)
  {
    hide Seal, Sound, HeaderSize, Signed, SetEntry, Merged, Recorded, Relabelled, Invalidated, Put, WriteAt, WellMade,
         Blank;
    if c.FlashCommand? && WellMade(c.image) {
      HasHeader(c.image);
      FlashedHeaders(d, c.number, c.image);
    }
  }

  /** One command replaces the entry it flashes, and no other. */
  lemma EntryAfter(d: Disk, c: Command, n: nat)
    requires Fit(d) && Formed(c) && Apart(d, c) && Signed(Backup(d)) && !c.BackupCommand? && !c.RestoreCommand?
    requires n < ENTRIES && (c.FlashCommand? && WellMade(c.image) ==> |c.image| >= HEADER)
    ensures Entry(Backup(Do(d, c)), n)
            == if c.FlashCommand? && c.number == n && WellMade(c.image) then Recorded(Primary(d), n, c.image)
               else Entry(Backup(d), n)
    ensures Backup(Do(d, c))[..PREAMBLE] == Backup(d)[..PREAMBLE] && Signed(Backup(Do(d, c)))
  {
    hide Do, Fit, Apart, Signed, WellMade, Recorded, Entry, SetEntry;
    BackupStep(d, c);
    if c.FlashCommand? && WellMade(c.image) {
      FlashFormed(c);
      SetEntryKeeps(Backup(d), c.number, Recorded(Primary(d), c.number, c.image));
      EntryOfSet(Backup(d), c.number, Recorded(Primary(d), c.number, c.image), n);
    }
  }

  /** Between a backup and the next one, the backup keeps up with the flashes. */
  lemma {:induction false} BackupTracks(d: Disk, cs: seq<Command>)
    requires Fit(d) && Permitted(d, cs) && NoBackups(cs) && Signed(Backup(d))
    ensures Signed(Backup(Run(d, cs))) && Replaced(Backup(Run(d, cs)), Backup(d), d, cs)
    decreases |cs|
  {
    if cs != [] {
      hide Do, Fit, Formed, Apart, Signed, WellMade, Recorded, Entry, Run, Flashed;
      var c := cs[0];
      FirstCommand(d, cs, 0);
      EntryAfter(d, c, 0);
      BackupTracks(Do(d, c), cs[1..]);
      forall n: nat | n < ENTRIES
        ensures Entry(Backup(Run(d, cs)), n)
                == if Flashed(d, cs, n).Some? then Flashed(d, cs, n).value else Entry(Backup(d), n)
      {
        FirstCommand(d, cs, n);
        EntryAfter(d, c, n);
      }
    }
  }

  /** A run is its first command and the rest. */
  lemma FirstCommand(d: Disk, cs: seq<Command>, n: nat)
    requires Fit(d) && Permitted(d, cs) && cs != [] && n < ENTRIES
    ensures Formed(cs[0]) && Apart(d, cs[0]) && Fit(Do(d, cs[0])) && Permitted(Do(d, cs[0]), cs[1..])
    ensures cs[0].FlashCommand? && WellMade(cs[0].image) ==> |cs[0].image| >= HEADER
    ensures Run(d, cs) == Run(Do(d, cs[0]), cs[1..])
    ensures Flashed(d, cs, n)
            == var later := Flashed(Do(d, cs[0]), cs[1..], n);
               if later.Some? then later
               else if cs[0].FlashCommand? && cs[0].number == n && WellMade(cs[0].image)
               then Some(Recorded(Primary(d), n, cs[0].image))
               else None
  {
    hide Do, Fit, Formed, Apart, WellMade, Recorded;
    CommandKeeps(d, cs[0]);
    if cs[0].FlashCommand? && WellMade(cs[0].image) { HasHeader(cs[0].image); }
  }

  lemma FlashFormed(c: Command)
    requires Formed(c) && c.FlashCommand?
    ensures c.number < ENTRIES
  {
  }

  lemma SealKeepsEntry(h: Header, n: nat)
    requires Sized(h) && n < ENTRIES
    ensures Entry(Seal(h), n) == Entry(h, n)
  {
  }

  /**
   * A backup, any commands that are neither backups nor restores, and a restore: the restore succeeds, the primary is
   * what was backed up with exactly the entries flashed since replaced and only the checksum computed anew, and the
   * backup is gone.
   */
  lemma RestoreIsFaithful(d: Disk, cs: seq<Command>)
    requires Fit(d) && Signed(Primary(d)) && NoBackups(cs)
    requires Fit(DoBackup(d)) && Permitted(DoBackup(d), cs)
    ensures var d1 := DoBackup(d);
      var d2 := Run(d1, cs);
      Fit(d2) && Succeeds(d2, RestoreCommand) &&
      Sound(Primary(DoRestore(d2))) && Backup(DoRestore(d2)) == Blank() &&
      (forall i :: 0 <= i < PREAMBLE && i != CHECKSUM ==> Primary(DoRestore(d2))[i] == Primary(d)[i]) &&
      forall n: nat :: n < ENTRIES ==>
        Entry(Primary(DoRestore(d2)), n)
          == (if Flashed(d1, cs, n).Some? then Flashed(d1, cs, n).value else Entry(Primary(d), n))
  {
    hide Sound, Signed, HeaderSize, Entry, Seal, Run, Flashed, Put, Blank, Permitted;
    var d1 := DoBackup(d);
    BackupTracks(d1, cs);
    RunSound(d1, cs);
    var d2 := Run(d1, cs);
    var h := Backup(d2);
    SealCovered(h);
    assert Primary(DoRestore(d2)) == Seal(h);
    forall i | 0 <= i < PREAMBLE && i != CHECKSUM ensures Seal(h)[i] == Primary(d)[i] {
      assert Seal(h)[i] == h[i] == h[..PREAMBLE][i] == Primary(d)[..PREAMBLE][i];
    }
    forall n: nat | n < ENTRIES ensures Entry(Seal(h), n) == Entry(h, n) { SealKeepsEntry(h, n); }
  }

  /** Behind the preamble every byte is in an entry. */
  lemma InEntry(h: Header, i: nat)
    requires PREAMBLE <= i < HEADER
    ensures var n, k := (i - PREAMBLE) / ENTRY, (i - PREAMBLE) % ENTRY; n < ENTRIES && h[i] == Entry(h, n)[k]
  {
    var n, k := (i - PREAMBLE) / ENTRY, (i - PREAMBLE) % ENTRY;
    assert i == PREAMBLE + ENTRY * n + k;
  }

  lemma SameHeader(h: Header, g: Header)
    requires forall i :: 0 <= i < PREAMBLE && i != CHECKSUM ==> h[i] == g[i]
    requires forall n: nat :: n < ENTRIES ==> Entry(h, n) == Entry(g, n)
    requires Sound(h) && Sound(g) && CHECKSUM < HeaderSize(g)
    ensures h == g
  {
    forall i | PREAMBLE <= i < HEADER ensures h[i] == g[i] {
      InEntry(h, i);
      InEntry(g, i);
    }
    hide Entry, Sound;
    assert HeaderSize(h) == HeaderSize(g);
    SoundIsSealed(h);
    SoundIsSealed(g);
    assert h[CHECKSUM := 0] == g[CHECKSUM := 0];
  }

  /** Without a flash in between, a sound header comes back byte for byte, whatever was updated or invalidated. */
  lemma RestoreUndoes(d: Disk, cs: seq<Command>)
    requires Fit(d) && Signed(Primary(d)) && Sound(Primary(d)) && NoBackups(cs)
    requires Fit(DoBackup(d)) && Permitted(DoBackup(d), cs)
    requires forall i :: 0 <= i < |cs| ==> !cs[i].FlashCommand?
    ensures Fit(Run(DoBackup(d), cs)) && Primary(DoRestore(Run(DoBackup(d), cs))) == Primary(d)
  {
    hide Sound, Signed, Entry, Seal, Run, DoRestore, DoBackup, Permitted;
    RestoreIsFaithful(d, cs);
    forall n: nat | n < ENTRIES ensures Flashed(DoBackup(d), cs, n) == None { NeverFlashed(DoBackup(d), cs, n); }
    hide HeaderSize;
    SameHeader(Primary(DoRestore(Run(DoBackup(d), cs))), Primary(d));
  }

  lemma {:induction false} NeverFlashed(d: Disk, cs: seq<Command>, n: nat)
    requires Fit(d) && Permitted(d, cs) && n < ENTRIES
    requires forall i :: 0 <= i < |cs| ==> !cs[i].FlashCommand?
    ensures Flashed(d, cs, n) == None
    decreases |cs|
  {
    if cs != [] {
      hide Do, Fit, Formed, Apart;
      CommandKeeps(d, cs[0]);
      NeverFlashed(Do(d, cs[0]), cs[1..], n);
    }
  }

  // ---- what the single commands mean

  /** An update that gives no field writes the header anew, and so leaves the device as it is exactly if the checksum
      byte is the one that is computed; where the checksum covers itself, exactly if the header was sound. */
  lemma UpdateNothing(d: Disk, n: nat)
    requires n < ENTRIES && Sized(Primary(d))
    ensures var h, e := Primary(d), DoUpdate(d, n, seq(ENTRY, _ => 0xff));
            && e == PutPrimary(d, Seal(h))
            && (e == d <==> h[CHECKSUM] == XorAll(h[CHECKSUM := 0][..HeaderSize(h)]))
            && (Covered(h) ==> (e == d <==> Sound(h)))
  {
    hide Sound, HeaderSize;
    var h := Primary(d);
    var was, ones: Bytes := Entry(h, n), seq(ENTRY, _ => 0xff);
    AllOnes(was, ones);
    assert SetEntry(h, n, was) == h;
    assert Primary(PutPrimary(d, Seal(h))) == Seal(h);
    if Seal(h) == h { assert PutPrimary(d, h) == d; }
    SealedIf(h);
    if Covered(h) {
      SealCovered(h);
      if Sound(h) { SoundIsSealed(h); }
    }
  }

  /** A device whose header has the size 1 and a checksum byte of zero. */
  function ShortDisk(): Disk { ShortHeader() + seq(BLOCK - HEADER, _ => 0) }

  /** An update that gives no field changes it. */
  lemma EmptyUpdateChanges(n: nat)
    requires n < ENTRIES
    ensures Sized(Primary(ShortDisk())) && DoUpdate(ShortDisk(), n, seq(ENTRY, _ => 0xff)) != ShortDisk()
  {
    hide XorAll, Seal, DoUpdate;
    var h := ShortHeader();
    assert Primary(ShortDisk()) == h;
    assert h[CHECKSUM := 0][..HeaderSize(h)] == [0x24];
    XorFirst(0x24);
    UpdateNothing(ShortDisk(), n);
  }

  lemma SealedIf(h: Header)
    requires Sized(h)
    ensures Seal(h) == h <==> h[CHECKSUM] == XorAll(h[CHECKSUM := 0][..HeaderSize(h)])
  {
    hide XorAll, HeaderSize;
  }

  lemma AllOnes(was: Bytes, ones: Bytes)
    requires |was| == ENTRY && ones == seq(ENTRY, _ => 0xff)
    ensures Merged(was, ones) == was
  {
    assert ones[0..2] == ones[2..4] == seq(2, _ => 0xff) && ones[20..21] == seq(1, _ => 0xff);
    assert ones[4..8] == ones[8..12] == ones[12..16] == ones[16..20] == seq(4, _ => 0xff);
  }

  lemma ClearedOnce(e: Bytes)
    requires |e| == ENTRY
    ensures Cleared(Cleared(e)) == Cleared(e)
  {
  }

  /** Clearing an entry keeps every attribute, so every later value finds the same entry. */
  lemma {:induction false} HavingKept(h: Header, g: Header, value: int, j: nat)
    requires j <= ENTRIES && forall n: nat :: n < ENTRIES ==> Attribute(Entry(h, n)) == Attribute(Entry(g, n))
    ensures Having(h, value, j) == Having(g, value, j)
    decreases ENTRIES - j
  {
    if j < ENTRIES {
      hide Attribute, Entry;
      assert Attribute(Entry(h, j)) == Attribute(Entry(g, j));
      HavingKept(h, g, value, j + 1);
    }
  }

  /** Some value names this entry: it is the first with that attribute. */
  ghost predicate Chosen(h: Header, values: seq<int>, n: nat) {
    exists i :: 0 <= i < |values| && Having(h, values[i], 0) == n
  }

  /**
   * Invalidating fails exactly if some value is no entry's attribute. Otherwise exactly the first entry with each
   * value is cleared, whatever the order and however often a value is given.
   */
  lemma {:induction false} InvalidatedEntries(h: Header, values: seq<int>)
    ensures Invalidated(h, values).None? <==> Chosen(h, values, ENTRIES)
    ensures Invalidated(h, values).Some? ==> forall n: nat :: n < ENTRIES ==>
      Entry(Invalidated(h, values).value, n) == (if Chosen(h, values, n) then Cleared(Entry(h, n)) else Entry(h, n))
    decreases |values|
  {
    if values != [] {
      hide Entry, SetEntry, Cleared, Having, Attribute;
      var j := Having(h, values[0], 0);
      if j < ENTRIES {
        var g := SetEntry(h, j, Cleared(Entry(h, j)));
        forall n: nat | n < ENTRIES ensures Entry(g, n) == if n == j then Cleared(Entry(h, j)) else Entry(h, n) {
          EntryOfSet(h, j, Cleared(Entry(h, j)), n);
        }
        forall i | 0 <= i < |values| ensures Having(g, values[i], 0) == Having(h, values[i], 0) {
          HavingKept(g, h, values[i], 0);
        }
        InvalidatedEntries(g, values[1..]);
        forall n: nat | n <= ENTRIES ensures Chosen(h, values, n) <==> n == j || Chosen(g, values[1..], n) {
          ChosenStep(h, g, values, n);
        }
        ClearedOnce(Entry(h, j));
      }
    }
  }

  lemma ChosenStep(h: Header, g: Header, values: seq<int>, n: nat)
    requires values != [] && forall i :: 0 <= i < |values| ==> Having(g, values[i], 0) == Having(h, values[i], 0)
    ensures Chosen(h, values, n) <==> n == Having(h, values[0], 0) || Chosen(g, values[1..], n)
  {
    hide Having;
    if Chosen(h, values, n) {
      var i :| 0 <= i < |values| && Having(h, values[i], 0) == n;
      if i > 0 { assert values[1..][i - 1] == values[i]; }
    }
    if Chosen(g, values[1..], n) {
      var i :| 0 <= i < |values| - 1 && Having(g, values[1..][i], 0) == n;
      assert values[1..][i] == values[i + 1];
    }
  }
}
