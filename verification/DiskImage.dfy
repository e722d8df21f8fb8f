/** The superblock and directory of DiskFS as sectors (diskfs.c:20-42, 69-80, 231-268): what is
    written is what a mount reads back. */
module DiskImage {
  import opened Common
  import opened DiskTable

  const SECTOR := 512
  const ENTRY_SIZE := 40
  const TABLE_SIZE := 640
  const RESERVED_SIZE := 472
  const MAGIC: Long := 0x5346534D
  const SEED: bv32 := 0xA5C35A3C
  const REQUIRED := 80

  datatype Superblock = Superblock(magic: Long, version: Long, generation: Long, totalSectors: Long, directoryLba: Long,
                                   directorySectors: Long, dataLba: Long, maxFiles: Long, sectorsPerFile: Long,
                                   checksum: Long, reserved: seq<Byte>)

  // ---------------------------------------------------------------- words and records

  function LongBytes(w: Long): (r: seq<Byte>)
    ensures |r| == 4
  {
    [(w % 0x100) as Byte, (w / 0x100 % 0x100) as Byte, (w / 0x1_0000 % 0x100) as Byte, (w / 0x100_0000) as Byte]
  }

  function ToLong(b: seq<Byte>): Long
    requires |b| == 4
  {
    b[0] as Long + 0x100 * b[1] as Long + 0x1_0000 * b[2] as Long + 0x100_0000 * b[3] as Long
  }

  lemma LongRoundTrip(w: Long)
    ensures ToLong(LongBytes(w)) == w
  {
    var a := w / 0x100;
    var b := a / 0x100;
    assert w == 0x100 * a + w % 0x100;
    assert a == 0x100 * b + a % 0x100;
    assert b == w / 0x1_0000;
    assert b == 0x100 * (b / 0x100) + b % 0x100;
    assert b / 0x100 == w / 0x100_0000;
  }

  // ---------------------------------------------------------------- the directory

  function EntryBytes(e: Entry): seq<Byte>
  {
    [e.used, e.kind, e.parent, e.reserved] + e.name + LongBytes(e.length)
  }

  function ToEntry(b: seq<Byte>): (e: Entry)
    requires |b| == ENTRY_SIZE
    ensures |e.name| == NAME_SIZE
  {
    Entry(b[0], b[1], b[2], b[3], b[4..36], ToLong(b[36..40]))
  }

  lemma EntryRoundTrip(e: Entry)
    requires |e.name| == NAME_SIZE
    ensures |EntryBytes(e)| == ENTRY_SIZE && ToEntry(EntryBytes(e)) == e
  {
    LongRoundTrip(e.length);
    assert EntryBytes(e)[4..36] == e.name;
    assert EntryBytes(e)[36..40] == LongBytes(e.length);
  }

  function Records(t: Table): (r: seq<seq<Byte>>)
    ensures |r| == SLOTS && forall i :: 0 <= i < SLOTS ==> r[i] == EntryBytes(t[i])
  {
    seq(SLOTS, i requires 0 <= i < SLOTS => EntryBytes(t[i]))
  }

  /** The table as it lies in memory. */
  function TableBytes(t: Table): (r: seq<Byte>)
    ensures |r| == TABLE_SIZE
  {
    FlatSize(Records(t), ENTRY_SIZE);
    Flat(Records(t))
  }

  function ToTable(b: seq<Byte>): Table
    requires |b| == TABLE_SIZE
  {
    seq(SLOTS, i requires 0 <= i < SLOTS => ToEntry(b[ENTRY_SIZE * i..ENTRY_SIZE * i + ENTRY_SIZE]))
  }

  lemma TableRoundTrip(t: Table)
    ensures ToTable(TableBytes(t)) == t
  {
    forall i | 0 <= i < SLOTS
      ensures ToTable(TableBytes(t))[i] == t[i]
    {
      FlatAt(Records(t), ENTRY_SIZE, i);
      EntryRoundTrip(t[i]);
    }
  }

  /** The two directory sectors. */
  function DirectorySector(t: Table, i: nat): (r: seq<Byte>)
    requires i < 2
    ensures |r| == SECTOR
  {
    if i == 0 then TableBytes(t)[..SECTOR] else TableBytes(t)[SECTOR..] + Zeros(2 * SECTOR - TABLE_SIZE)
  }

  /** The table in two directory sectors. */
  function FromSectors(a: seq<Byte>, b: seq<Byte>): Table
    requires |a| == SECTOR && |b| == SECTOR
  {
    ToTable(a + b[..TABLE_SIZE - SECTOR])
  }

  lemma DirectoryRoundTrip(t: Table)
    ensures FromSectors(DirectorySector(t, 0), DirectorySector(t, 1)) == t
  {
    TableRoundTrip(t);
    assert DirectorySector(t, 0) + DirectorySector(t, 1)[..TABLE_SIZE - SECTOR] == TableBytes(t);
  }

  // ---------------------------------------------------------------- the superblock

  function Machine(words: seq<Long>): (r: seq<bv32>)
    ensures |r| == |words| && forall i :: 0 <= i < |words| ==> r[i] == words[i] as bv32
  {
    seq(|words|, i requires 0 <= i < |words| => words[i] as bv32)
  }

  /** The words exclusive-ored onto `seed`. */
  function Mixed(seed: bv32, words: seq<bv32>): bv32
    decreases |words|
  {
    if words == [] then seed else Mixed(seed ^ words[0], words[1..])
  }

  /** What the checksum covers: every word but itself. */
  function Covered(s: Superblock): seq<Long>
  {
    [s.magic, s.version, s.generation, s.totalSectors, s.directoryLba, s.directorySectors, s.dataLba, s.maxFiles,
     s.sectorsPerFile]
  }

  /** diskfs_checksum. */
  function Checksum(s: Superblock): Long
  {
    Mixed(SEED, Machine(Covered(s))) as Long
  }

  /** The superblock fits this program, and a drive of that many sectors. */
  predicate Fits(s: Superblock, sectors: nat)
  {
    && s.magic == MAGIC && s.version == 2 && s.totalSectors as nat == sectors && s.directoryLba == 5 &&
       s.directorySectors == 2
    && s.dataLba == 16 && s.maxFiles == 16 && s.sectorsPerFile == 4 && s.totalSectors as nat >= REQUIRED
  }

  /** diskfs_superblock_valid. */
  predicate SuperblockOk(s: Superblock, sectors: nat)
  {
    Fits(s, sectors) && s.checksum == Checksum(s)
  }

  function Words(s: Superblock): seq<Long>
  {
    Covered(s) + [s.checksum]
  }

  function WordRecords(s: Superblock): (r: seq<seq<Byte>>)
    ensures |r| == 10 && forall i :: 0 <= i < 10 ==> r[i] == LongBytes(Words(s)[i])
  {
    seq(10, i requires 0 <= i < 10 => LongBytes(Words(s)[i]))
  }

  function SuperblockSector(s: Superblock): (r: seq<Byte>)
    requires |s.reserved| == RESERVED_SIZE
    ensures |r| == SECTOR
  {
    FlatSize(WordRecords(s), 4);
    Flat(WordRecords(s)) + s.reserved
  }

  function WordAt(b: seq<Byte>, i: nat): Long
    requires |b| == SECTOR && i < 10
  {
    ToLong(b[4 * i..4 * i + 4])
  }

  function ToSuperblock(b: seq<Byte>): (s: Superblock)
    requires |b| == SECTOR
    ensures |s.reserved| == RESERVED_SIZE
  {
    Superblock(WordAt(b, 0), WordAt(b, 1), WordAt(b, 2), WordAt(b, 3), WordAt(b, 4), WordAt(b, 5), WordAt(b, 6),
               WordAt(b, 7), WordAt(b, 8), WordAt(b, 9), b[40..])
  }

  lemma WordRoundTrip(s: Superblock, i: nat)
    requires |s.reserved| == RESERVED_SIZE && i < 10
    ensures WordAt(SuperblockSector(s), i) == Words(s)[i]
  {
    FlatSize(WordRecords(s), 4);
    FlatAt(WordRecords(s), 4, i);
    LongRoundTrip(Words(s)[i]);
    assert SuperblockSector(s)[4 * i..4 * i + 4] == Flat(WordRecords(s))[4 * i..4 * i + 4];
  }

  lemma SuperblockRoundTrip(s: Superblock)
    requires |s.reserved| == RESERVED_SIZE
    ensures ToSuperblock(SuperblockSector(s)) == s
  {
    forall i | 0 <= i < 10
      ensures WordAt(SuperblockSector(s), i) == Words(s)[i]
    {
      WordRoundTrip(s, i);
    }
    FlatSize(WordRecords(s), 4);
    assert SuperblockSector(s)[40..] == s.reserved;
  }
}
