/** What the commands of flash_stitched do to the device: the header at its start and the backup behind it. */
module OsipCommands {
  import opened Bits
  import opened OsipFormat

  const POS := 1

  /** A device holds at least its first block. */
  type Disk = d: Bytes | |d| >= BLOCK witness seq(BLOCK, _ => 0)

  function Primary(d: Disk): Header { d[..HEADER] }

  function Backup(d: Disk): Header { d[BACKUP_LOC..BACKUP_LOC + HEADER] }

  function PutPrimary(d: Disk, h: Header): (r: Disk)
    ensures Primary(r) == h && Backup(r) == Backup(d) && r[HEADER..] == d[HEADER..]
  {
    Put(d, 0, h)
  }

  function PutBackup(d: Disk, h: Header): (r: Disk)
    ensures Backup(r) == h && Primary(r) == Primary(d)
    ensures r[..BACKUP_LOC] == d[..BACKUP_LOC] && r[BACKUP_LOC + HEADER..] == d[BACKUP_LOC + HEADER..]
  {
    Put(d, BACKUP_LOC, h)
  }

  function Blank(): Header { seq(HEADER, _ => 0) }

  // ---- backup_handle and restore_handle

  function DoBackup(d: Disk): Disk { PutBackup(d, Primary(d)) }

  function DoRestore(d: Disk): Disk
    requires Signed(Backup(d)) ==> Sized(Backup(d))
  {
    if Signed(Backup(d)) then PutBackup(PutPrimary(d, Seal(Backup(d))), Blank()) else d
  }

  // ---- update_handle

  /** A field that is all ones is left alone. */
  function Field(was: Bytes, given: Bytes, lo: nat, hi: nat): (r: Bytes)
    requires lo <= hi <= ENTRY == |was| == |given|
    ensures |r| == hi - lo
  {
    if given[lo..hi] == seq(hi - lo, _ => 0xff) then was[lo..hi] else given[lo..hi]
  }

  /** The revisions, the block, the addresses, the size and the attribute as given; the reserved bytes as they were. */
  function Merged(was: Bytes, given: Bytes): (r: Bytes)
    requires |was| == |given| == ENTRY
    ensures |r| == ENTRY
  {
    Field(was, given, 0, 2) + Field(was, given, 2, 4) + Field(was, given, 4, 8) + Field(was, given, 8, 12) +
    Field(was, given, 12, 16) + Field(was, given, 16, 20) + Field(was, given, 20, 21) + was[21..]
  }

  function DoUpdate(d: Disk, n: nat, given: Bytes): Disk
    requires n < ENTRIES && |given| == ENTRY && Sized(Primary(d))
  {
    PutPrimary(d, Seal(SetEntry(Primary(d), n, Merged(Entry(Primary(d), n), given))))
  }

  // ---- invalidate_handle

  function Attribute(e: Bytes): byte
    requires |e| == ENTRY
  {
    e[20]
  }

  /** An entry with only its block, its size and its attribute left. */
  function Cleared(e: Bytes): (r: Bytes)
    requires |e| == ENTRY
    ensures |r| == ENTRY && Attribute(r) == Attribute(e)
  {
    [0, 0, 0, 0] + e[4..8] + [0, 0, 0, 0, 0, 0, 0, 0] + e[16..20] + [e[20], 0, 0, 0]
  }

  /** The first entry from `j` on with this attribute, if any. */
  function Having(h: Header, value: int, j: nat): (r: nat)
    requires j <= ENTRIES
    ensures j <= r <= ENTRIES && (r < ENTRIES ==> Attribute(Entry(h, r)) == value)
    ensures forall i :: j <= i < r ==> Attribute(Entry(h, i)) != value
    decreases ENTRIES - j
  {
    if j == ENTRIES || Attribute(Entry(h, j)) == value then j else Having(h, value, j + 1)
  }

  function Invalidated(h: Header, values: seq<int>): (r: Option<Header>)
    ensures r.Some? ==> r.value[..PREAMBLE] == h[..PREAMBLE]
    decreases |values|
  {
    if values == [] then Some(h)
    else
      var j := Having(h, values[0], 0);
      if j == ENTRIES then None else Invalidated(SetEntry(h, j, Cleared(Entry(h, j))), values[1..])
  }

  function DoInvalidate(d: Disk, values: seq<int>): Disk
    requires Sized(Primary(d))
  {
    match Invalidated(Primary(d), values)
    case None => d
    case Some(h) => SizedBy(h, Primary(d)); PutPrimary(d, Seal(h))
  }

  /** The header size is in the preamble. */
  lemma SizedBy(h: Header, g: Header)
    requires h[..PREAMBLE] == g[..PREAMBLE]
    ensures HeaderSize(h) == HeaderSize(g) && Signed(h) == Signed(g)
  {
    assert h[10] == h[..PREAMBLE][10] && h[11] == h[..PREAMBLE][11];
    assert h[..4] == h[..PREAMBLE][..4] && g[..4] == g[..PREAMBLE][..4];
  }

  // ---- write_stitch_image

  /** A stitched image: one entry, and as many blocks after the first as it says, in 32 bits. */
  predicate WellMade(image: Bytes) {
    |image| >= BLOCK && image[NUM_IMAGES] == 1 &&
      U32(Entry(image[..HEADER], 0)[16..20]) * BLOCK % WORD == |image| - BLOCK
  }

  /** The entry of an image as it is recorded: at the block its place in the header names. */
  function Recorded(h: Header, n: nat, image: Bytes): (e: Bytes)
    requires n < ENTRIES && |image| >= HEADER
    ensures |e| == ENTRY
  {
    var e := Entry(image[..HEADER], 0);
    e[..4] + Entry(h, n)[4..8] + e[8..16] + Le32(U32(e[16..20]) * BLOCK % WORD / BLOCK) + e[20..]
  }

  /** The header of the device with an image recorded. */
  function Relabelled(h: Header, n: nat, image: Bytes): (r: Header)
    requires n < ENTRIES && |image| >= HEADER
    ensures HeaderSize(r) == HeaderSize(h) && Signed(r) == Signed(h)
  {
    var g := h[NUM_IMAGES := 1];
    var r := SetEntry(g, n, Recorded(h, n, image));
    SizedBy(r, g);
    assert g[..4] == h[..4];
    r
  }

  /** What of `b` fits on the device from `off` on is written. */
  function WriteAt(d: Disk, off: nat, b: Bytes): (r: Disk)
    ensures |r| == |d|
  {
    if off >= |d| then d else if off + |b| <= |d| then Put(d, off, b) else Put(d, off, b[..|d| - off])
  }

  /** Where the device is positioned for a block: the offset wraps at 32 bits, and one that is negative as a signed
      number is refused. */
  function Seek(block: nat): nat {
    var off := block * BLOCK % WORD;
    if off < WORD / 2 then off else 0
  }

  /** Where an entry's image starts. */
  function ImageAt(e: Bytes): nat
    requires |e| == ENTRY
  {
    Seek(U32(e[4..8]))
  }

  /** The headers after an image has been recorded: in the backup if there is one, else in the primary; for POS
      always in the primary. */
  function Record(d: Disk, n: nat, image: Bytes): (r: Disk)
    requires n < ENTRIES && |image| >= HEADER && Sized(Primary(d))
  {
    var h := Seal(Relabelled(Primary(d), n, image));
    var d1 := if n == POS then PutPrimary(d, h) else d;
    if Signed(Backup(d)) then PutBackup(d1, SetEntry(Backup(d), n, Recorded(Primary(d), n, image)))
    else PutPrimary(d1, h)
  }

  function DoFlash(d: Disk, n: nat, image: Bytes): Disk
    requires n < ENTRIES && Sized(Primary(d))
  {
    if WellMade(image) then WriteAt(Record(d, n, image), ImageAt(Recorded(Primary(d), n, image)), image[BLOCK..]) else d
  }

  /** Does the write of the image reach its end? */
  predicate FlashSucceeds(d: Disk, n: nat, image: Bytes)
    requires n < ENTRIES
  {
    WellMade(image) && (|image| == BLOCK || ImageAt(Recorded(Primary(d), n, image)) + |image| - BLOCK <= |d|)
  }

  // ---- commands

  datatype Command =
    | BackupCommand
    | RestoreCommand
    | FlashCommand(number: nat, image: Bytes)
    | UpdateCommand(number: nat, given: Bytes)
    | InvalidateCommand(values: seq<int>)
    | RefuseCommand

  /** The arguments name one of the seven entries of the header; the program itself does not look. */
  predicate Formed(c: Command) {
    match c
    case FlashCommand(n, image) => n < ENTRIES
    case UpdateCommand(n, given) => n < ENTRIES && |given| == ENTRY
    case _ => true
  }

  /** Both headers say a size the checksum loop can cover. */
  predicate Healthy(d: Disk) { Sized(Primary(d)) && (Signed(Backup(d)) ==> Sized(Backup(d))) }

  function Do(d: Disk, c: Command): Disk
    requires Formed(c) && Healthy(d)
  {
    match c
    case BackupCommand => DoBackup(d)
    case RestoreCommand => DoRestore(d)
    case FlashCommand(n, image) => DoFlash(d, n, image)
    case UpdateCommand(n, given) => DoUpdate(d, n, given)
    case InvalidateCommand(values) => DoInvalidate(d, values)
    case RefuseCommand => d
  }

  predicate Succeeds(d: Disk, c: Command)
    requires Formed(c)
  {
    match c
    case BackupCommand => true
    case RestoreCommand => Signed(Backup(d))
    case FlashCommand(n, image) => FlashSucceeds(d, n, image)
    case UpdateCommand(n, given) => true
    case InvalidateCommand(values) => Invalidated(Primary(d), values).Some?
    case RefuseCommand => false
  }
}
