/** What a remount finds after a write of the directory that failed between its two sectors
    (diskfs.c:249-280). Each slot is as it was or as it was to be, except slot 12, whose 40 bytes lie
    across the two sectors. That is how bytes of a former owner can show after all. */
module DiskTearing {
  import opened Common
  import opened DiskTable
  import opened DiskImage
  import opened DiskSteps
  import opened DiskRuns

  /** The slot that lies across the two sectors, and how much of its name is in the first. */
  const STRADDLER := 12
  const SPLIT := 28

  /** The entry whose first part is `a` and whose second part is `b`. */
  function Mixed(a: Entry, b: Entry): (e: Entry)
    requires |a.name| == |b.name| == NAME_SIZE
    ensures |e.name| == NAME_SIZE
  {
    Entry(a.used, a.kind, a.parent, a.reserved, a.name[..SPLIT] + b.name[SPLIT..], b.length)
  }

  /** The first sector of t' and the second of t. */
  function MixedTable(t': Table, t: Table): (r: Table)
    ensures forall i :: 0 <= i < SLOTS ==>
      r[i] == if i < STRADDLER then t'[i] else if i == STRADDLER then Mixed(t'[i], t[i]) else t[i]
  {
    t'[..STRADDLER] + [Mixed(t'[STRADDLER], t[STRADDLER])] + t[STRADDLER + 1..]
  }

  lemma EarlySlot(t': Table, b: seq<Byte>, i: nat)
    requires |b| == SECTOR && i < STRADDLER
    ensures FromSectors(DirectorySector(t', 0), b)[i] == t'[i]
  {
    var bytes := TableBytes(t');
    var mixed := bytes[..SECTOR] + b[..TABLE_SIZE - SECTOR];
    FlatAt(Records(t'), ENTRY_SIZE, i);
    EntryRoundTrip(t'[i]);
    assert mixed[ENTRY_SIZE * i..ENTRY_SIZE * i + ENTRY_SIZE] == bytes[ENTRY_SIZE * i..ENTRY_SIZE * i + ENTRY_SIZE];
  }

  lemma LateSlot(a': seq<Byte>, a: seq<Byte>, b: seq<Byte>, i: nat)
    requires |a'| == |a| == |b| == SECTOR && STRADDLER < i < SLOTS
    ensures FromSectors(a', b)[i] == FromSectors(a, b)[i]
  {
    var x, y := a' + b[..TABLE_SIZE - SECTOR], a + b[..TABLE_SIZE - SECTOR];
    assert x[ENTRY_SIZE * i..ENTRY_SIZE * i + ENTRY_SIZE] == y[ENTRY_SIZE * i..ENTRY_SIZE * i + ENTRY_SIZE];
  }

  lemma Straddler(t': Table, a: seq<Byte>, b: seq<Byte>)
    requires |a| == |b| == SECTOR
    ensures FromSectors(DirectorySector(t', 0), b)[STRADDLER] == Mixed(t'[STRADDLER], FromSectors(a, b)[STRADDLER])
  {
    var bytes := TableBytes(t');
    var first := ENTRY_SIZE * STRADDLER;
    var x, y := bytes[..SECTOR] + b[..TABLE_SIZE - SECTOR], a + b[..TABLE_SIZE - SECTOR];
    var ex, ey, et := x[first..first + ENTRY_SIZE], y[first..first + ENTRY_SIZE], bytes[first..first + ENTRY_SIZE];
    FlatAt(Records(t'), ENTRY_SIZE, STRADDLER);
    EntryRoundTrip(t'[STRADDLER]);
    assert first == 480;
    assert ex[..32] == bytes[480..512] && et[..32] == bytes[480..512];
    assert ex[32..] == b[..8] && ey[32..] == b[..8];
    assert ex[0] == ex[..32][0] && ex[1] == ex[..32][1] && ex[2] == ex[..32][2] && ex[3] == ex[..32][3];
    assert et[0] == et[..32][0] && et[1] == et[..32][1] && et[2] == et[..32][2] && et[3] == et[..32][3];
    assert ex[4..36] == ex[..32][4..] + ex[32..][..4];
    assert et[4..36][..SPLIT] == et[..32][4..];
    assert ey[4..36][SPLIT..] == ey[32..][..4];
    assert ex[36..40] == ex[32..][4..] && ey[36..40] == ey[32..][4..];
  }

  lemma TornTable(t': Table, a: seq<Byte>, b: seq<Byte>, t: Table)
    requires |a| == |b| == SECTOR && FromSectors(a, b) == t
    ensures FromSectors(DirectorySector(t', 0), b) == MixedTable(t', t)
  {
    var r := FromSectors(DirectorySector(t', 0), b);
    forall i | 0 <= i < SLOTS
      ensures r[i] == MixedTable(t', t)[i]
    {
      if i < STRADDLER {
        EarlySlot(t', b, i);
      } else if i > STRADDLER {
        LateSlot(DirectorySector(t', 0), a, b, i);
      } else {
        Straddler(t', a, b);
      }
    }
  }

  // ---------------------------------------------------------------- a failed call and a mount

  function AfterWrites(t': Table, t: Table, k: nat): Table
  {
    if k == 0 then t else if k == 1 then MixedTable(t', t) else t'
  }

  /** The table read back after k of the writes. */
  lemma TornReads(img: seq<seq<Byte>>, sb0: Superblock, t: Table, sb: Superblock, t': Table, k: nat)
    requires Stored(img, sb0, t) && |sb.reserved| == RESERVED_SIZE && k <= 3
    ensures var img' := Flushed(img, sb, t', k);
            && |img'| == |img| && |img'[DIRECTORY_LBA]| == |img'[DIRECTORY_LBA + 1]| == |img'[SUPERBLOCK_LBA]| == SECTOR
            && FromSectors(img'[DIRECTORY_LBA], img'[DIRECTORY_LBA + 1]) == AfterWrites(t', t, k)
            && (k < 3 ==> img'[SUPERBLOCK_LBA] == img[SUPERBLOCK_LBA])
  {
    TornTable(t', img[DIRECTORY_LBA], img[DIRECTORY_LBA + 1], t);
    DirectoryRoundTrip(t');
  }

  /** A mount after a failed write of the tables finds the old table, the new one, or their mixture. */
  lemma MountAfterTear(st: State, sb: Superblock, t': Table, st1: State, read: bool, st2: State) returns (k: nat)
    requires Inv(st) && st.mounted && Stores(st, sb, t', false, st1) && Mounts(st1, read, true, st2)
    ensures k <= 3 && st2.entries == AfterWrites(t', st.entries, k)
    ensures st2.disk.sectors == st1.disk.sectors == Flushed(st.disk.sectors, sb, t', k)
  {
    k :| 0 <= k <= 3 && st1.disk.sectors == Flushed(st.disk.sectors, sb, t', k);
    TornReads(st.disk.sectors, st.sb, st.entries, sb, t', k);
  }

  /** Outside the straddling slot, what is found is old or new. */
  lemma OtherSlotsAreWhole(t: Table, t': Table, i: nat)
    requires i < SLOTS && i != STRADDLER
    ensures MixedTable(t', t)[i] == t[i] || MixedTable(t', t)[i] == t'[i]
  {
  }

  // ---------------------------------------------------------------- a failed creation

  /** The table with the entry that a creation puts into the first free slot. */
  function WithNew(t: Table, parent: Byte, name: seq<Byte>, kind: Byte): Table
    requires |Text(name)| <= NAME_SIZE && FirstFree(t, 0) < SLOTS
  {
    t[FirstFree(t, 0) := NewEntry(parent, name, kind)]
  }

  /** What a mount makes of the straddling slot if the first sector has the new entry and the second
      the old one. */
  function TornEntry(t: Table, parent: Byte, name: seq<Byte>, kind: Byte): (e: Entry)
    requires |Text(name)| <= NAME_SIZE
    ensures |e.name| == NAME_SIZE
  {
    Mixed(NewEntry(parent, name, kind), t[STRADDLER])
  }

  /** The creation goes ahead in memory. */
  ghost predicate Starts(st: State, parent: Byte, name: seq<Byte>, kind: Byte)
  {
    Inv(st) && MayCreate(st, parent, name, kind) && FirstFree(st.entries, 0) < SLOTS
  }

  /** A creation that fails, and a mount that succeeds. */
  ghost predicate FailsAndMounts(st: State, parent: Byte, name: seq<Byte>, kind: Byte, st1: State, st2: State)
  {
    Next(st, Create(parent, name, kind), false, st1) && Next(st1, Mount, true, st2)
  }

  ghost predicate HasBytes(st: State, i: nat)
    requires i < SLOTS
  {
    var n := NodeAt(st.disk.sectors, st.entries, i);
    n.Some? && n.value.content != []
  }

  /** The first free slot is the straddling one, its unused entry has a length, and the mixture of the
      tables is valid. */
  ghost predicate ShowsBytes(st: State, parent: Byte, name: seq<Byte>, kind: Byte)
    requires |Text(name)| <= NAME_SIZE && FirstFree(st.entries, 0) < SLOTS
  {
    && FirstFree(st.entries, 0) == STRADDLER && st.entries[STRADDLER].length > 0
    && TableOk(MixedTable(WithNew(st.entries, parent, name, kind), st.entries))
  }

  /** Some failure of the creation, and a mount, bring bytes into the new file. */
  ghost predicate CanShow(st: State, parent: Byte, name: seq<Byte>, kind: Byte)
    requires FirstFree(st.entries, 0) < SLOTS
  {
    var i := FirstFree(st.entries, 0);
    exists st1, st2 :: FailsAndMounts(st, parent, name, kind, st1, st2) && HasBytes(st2, i)
  }

  /** Some failure of the creation leaves sectors that no mount will accept. */
  ghost predicate CanRuin(st: State, parent: Byte, name: seq<Byte>, kind: Byte)
  {
    var call := Create(parent, name, kind);
    exists st1 :: Next(st, call, false, st1) && NothingMountable(st1.disk.sectors, st.count)
  }

  /** The torn entry with the bytes that the straddling slot had. */
  function FormerNode(st: State, parent: Byte, name: seq<Byte>, kind: Byte): Node
    requires |Text(name)| <= NAME_SIZE
  {
    Node(kind, parent, Text(TornEntry(st.entries, parent, name, kind).name),
         Content(st.disk.sectors, STRADDLER, st.entries[STRADDLER].length as nat))
  }

  /** The tables do not reach into the slots. */
  lemma TearKeepsData(img: seq<seq<Byte>>, sb: Superblock, t': Table, k: nat, index: nat, length: nat)
    requires |sb.reserved| == RESERVED_SIZE
    ensures Content(Flushed(img, sb, t', k), index, length) == Content(img, index, length)
  {
    forall x: nat | x < length
      ensures ByteAt(Flushed(img, sb, t', k), index, x) == ByteAt(img, index, x)
    {
      var lba := SlotLba(index) + x / SECTOR;
      assert lba != DIRECTORY_LBA && lba != DIRECTORY_LBA + 1 && lba != SUPERBLOCK_LBA;
    }
  }

  /** Whatever the failure, after a mount the slot is free or empty, or the former bytes show. */
  lemma FailedCreateFound(st: State, parent: Byte, name: seq<Byte>, kind: Byte, st1: State, st2: State)
    requires Starts(st, parent, name, kind) && FailsAndMounts(st, parent, name, kind, st1, st2)
    ensures HasBytes(st2, FirstFree(st.entries, 0)) ==>
      && ShowsBytes(st, parent, name, kind) && st.available && NoneOpen(st.refs)
      && NodeAt(st2.disk.sectors, st2.entries, STRADDLER) == Some(FormerNode(st, parent, name, kind))
  {
    var t' := WithNew(st.entries, parent, name, kind);
    var read :| Mounts(st1, read, true, st2);
    var k := MountAfterTear(st, Bumped(st.sb), t', st1, read, st2);
    BytesFound(st, parent, name, kind, t', k, st2);
  }

  lemma BytesFound(st: State, parent: Byte, name: seq<Byte>, kind: Byte, t': Table, k: nat, st2: State)
    requires |Text(name)| <= NAME_SIZE && FirstFree(st.entries, 0) < SLOTS && |st.sb.reserved| == RESERVED_SIZE
    requires t' == WithNew(st.entries, parent, name, kind) && st2.entries == AfterWrites(t', st.entries, k)
    requires TableOk(st2.entries) && st2.disk.sectors == Flushed(st.disk.sectors, Bumped(st.sb), t', k)
    ensures HasBytes(st2, FirstFree(st.entries, 0)) ==>
      && ShowsBytes(st, parent, name, kind)
      && NodeAt(st2.disk.sectors, st2.entries, STRADDLER) == Some(FormerNode(st, parent, name, kind))
  {
    if HasBytes(st2, FirstFree(st.entries, 0)) {
      SlotAfterWrites(st.entries, parent, name, kind, k);
      TearKeepsData(st.disk.sectors, Bumped(st.sb), t', k, STRADDLER, st.entries[STRADDLER].length as nat);
    }
  }

  /** Only the mixture has a length in the new entry. */
  lemma SlotAfterWrites(t: Table, parent: Byte, name: seq<Byte>, kind: Byte, k: nat)
    requires |Text(name)| <= NAME_SIZE && FirstFree(t, 0) < SLOTS
    ensures var r := AfterWrites(WithNew(t, parent, name, kind), t, k);
            var e := r[FirstFree(t, 0)];
            e.used != 0 && e.length > 0 ==>
              && k == 1 && FirstFree(t, 0) == STRADDLER && e == TornEntry(t, parent, name, kind)
              && r == MixedTable(WithNew(t, parent, name, kind), t)
  {
  }

  /** The outcome in which the first directory sector was written and the second was not. */
  lemma TornCreate(st: State, parent: Byte, name: seq<Byte>, kind: Byte) returns (st1: State, st2: State)
    requires Starts(st, parent, name, kind) && ShowsBytes(st, parent, name, kind) && st.available && NoneOpen(st.refs)
    ensures FailsAndMounts(st, parent, name, kind, st1, st2) && HasBytes(st2, STRADDLER)
    ensures NodeAt(st2.disk.sectors, st2.entries, STRADDLER) == Some(FormerNode(st, parent, name, kind))
  {
    var t' := WithNew(st.entries, parent, name, kind);
    st1, st2 := Tear(st, Bumped(st.sb), t');
    CreateTears(st, parent, name, kind, st1);
    MountSucceeds(st1, st2);
    TearKeepsData(st.disk.sectors, Bumped(st.sb), t', 1, STRADDLER, st.entries[STRADDLER].length as nat);
    assert st2.entries[STRADDLER] == TornEntry(st.entries, parent, name, kind);
  }

  /** A failed creation can be followed by a mount that finds bytes in the new file exactly under that
      condition. */
  lemma FailedCreateShows(st: State, parent: Byte, name: seq<Byte>, kind: Byte)
    requires Starts(st, parent, name, kind)
    ensures CanShow(st, parent, name, kind) <==>
              ShowsBytes(st, parent, name, kind) && st.available && NoneOpen(st.refs)
  {
    var i := FirstFree(st.entries, 0);
    forall st1, st2 | FailsAndMounts(st, parent, name, kind, st1, st2) && HasBytes(st2, i)
      ensures ShowsBytes(st, parent, name, kind) && st.available && NoneOpen(st.refs)
    {
      FailedCreateFound(st, parent, name, kind, st1, st2);
    }
    if ShowsBytes(st, parent, name, kind) && st.available && NoneOpen(st.refs) {
      var st1, st2 := TornCreate(st, parent, name, kind);
      assert FailsAndMounts(st, parent, name, kind, st1, st2) && HasBytes(st2, i);
    }
  }

  lemma CreateTears(st: State, parent: Byte, name: seq<Byte>, kind: Byte, st1: State)
    requires MayCreate(st, parent, name, kind) && FirstFree(st.entries, 0) < SLOTS
    requires Stores(st, Bumped(st.sb), WithNew(st.entries, parent, name, kind), false, st1)
    ensures Next(st, Create(parent, name, kind), false, st1)
  {
  }

  // ---------------------------------------------------------------- when the mixture is valid

  /** The mixture is valid exactly if the torn entry is, and no sibling bears its name. */
  lemma MixedIsOk(t: Table, parent: Byte, name: seq<Byte>, kind: Byte)
    requires TableOk(t) && FirstFree(t, 0) == STRADDLER && NameOk(name) && ParentOk(t, parent)
    ensures var e := TornEntry(t, parent, name, kind);
            TableOk(MixedTable(WithNew(t, parent, name, kind), t)) <==>
              EntryOk(e) && forall i :: 0 <= i < SLOTS ==> !Named(t[i], parent, e.name)
  {
    var e, r := TornEntry(t, parent, name, kind), MixedTable(WithNew(t, parent, name, kind), t);
    assert r == t[STRADDLER := e];
    if EntryOk(e) && forall i :: 0 <= i < SLOTS ==> !Named(t[i], parent, e.name) {
      AddKeepsValid(t, STRADDLER, e, r);
    } else if TableOk(r) {
      forall i | 0 <= i < SLOTS
        ensures !Named(t[i], parent, e.name)
      {
        assert i < STRADDLER ==> Apart(r, i, STRADDLER);
        assert i > STRADDLER ==> Apart(r, STRADDLER, i);
      }
    }
  }

  /** For a name that ends in the first sector only the kind and the old length count. */
  lemma ShortMixedIsOk(t: Table, parent: Byte, name: seq<Byte>, kind: Byte)
    requires TableOk(t) && FirstFree(t, 0) == STRADDLER && NameOk(name) && ParentOk(t, parent)
    requires (kind == FILE || kind == DIRECTORY) && forall i :: 0 <= i < SLOTS ==> !Named(t[i], parent, name)
    requires |Text(name)| < SPLIT
    ensures Text(TornEntry(t, parent, name, kind).name) == Text(name)
    ensures TableOk(MixedTable(WithNew(t, parent, name, kind), t)) <==>
              if kind == FILE then t[STRADDLER].length as nat <= MAX_SIZE else t[STRADDLER].length == 0
  {
    ShortTornEntry(t, parent, name, kind);
    MixedIsOk(t, parent, name, kind);
  }

  lemma ShortTornEntry(t: Table, parent: Byte, name: seq<Byte>, kind: Byte)
    requires NameOk(name) && (kind == FILE || kind == DIRECTORY) && |Text(name)| < SPLIT
    ensures var e := TornEntry(t, parent, name, kind);
            && Text(e.name) == Text(name)
            && (EntryOk(e) <==>
               if kind == FILE then t[STRADDLER].length as nat <= MAX_SIZE else t[STRADDLER].length == 0)
  {
    MixedName(name, t[STRADDLER].name);
  }

  // ---------------------------------------------------------------- when nothing can be mounted

  /** The superblock found after k of the writes is a good one. */
  lemma TornSuperblock(st: State, t': Table, k: nat) returns (sb: Superblock)
    requires Inv(st) && st.mounted && |st.sb.reserved| == RESERVED_SIZE && k <= 3
    ensures var img := Flushed(st.disk.sectors, Bumped(st.sb), t', k);
            Stored(img, sb, AfterWrites(t', st.entries, k)) && SuperblockOk(sb, st.count)
  {
    if k < 3 {
      sb := st.sb;
      TornReads(st.disk.sectors, st.sb, st.entries, Bumped(st.sb), t', k);
    } else {
      sb := Sealed(Bumped(st.sb));
      AllWritten(st.disk.sectors, Bumped(st.sb), t', st.count);
    }
  }

  lemma AllWritten(img: seq<seq<Byte>>, sb: Superblock, t': Table, count: nat)
    requires |img| > DIRECTORY_LBA + 1 && |sb.reserved| == RESERVED_SIZE && Fits(sb, count)
    ensures Stored(Flushed(img, sb, t', 3), Sealed(sb), t') && SuperblockOk(Sealed(sb), count)
  {
    SealedIsOk(sb, count);
    FlushedSectors(img, sb, t', 3);
    WrittenIsStored(Flushed(img, sb, t', 3), Sealed(sb), t');
  }

  lemma FlushedSectors(img: seq<seq<Byte>>, sb: Superblock, t': Table, k: nat)
    requires |img| > DIRECTORY_LBA + 1 && |sb.reserved| == RESERVED_SIZE && k >= 3
    ensures var img' := Flushed(img, sb, t', k);
            && |img'| == |img| && img'[SUPERBLOCK_LBA] == SuperblockSector(Sealed(sb))
            && img'[DIRECTORY_LBA] == DirectorySector(t', 0) && img'[DIRECTORY_LBA + 1] == DirectorySector(t', 1)
  {
    var one := Flushed(img, sb, t', 1);
    var two := Flushed(img, sb, t', 2);
    assert |one| == |img| && |two| == |img|;
  }

  /** The mixture is one of the two tables unless the change is in the straddling slot. */
  lemma MixedElsewhere(t: Table, i: nat, e: Entry, t': Table)
    requires i < SLOTS && i != STRADDLER && |e.name| == NAME_SIZE && t' == t[i := e]
    ensures MixedTable(t', t) == if i < STRADDLER then t' else t
  {
    var r := MixedTable(t', t);
    assert t[STRADDLER].name == t[STRADDLER].name[..SPLIT] + t[STRADDLER].name[SPLIT..];
    assert r[STRADDLER] == t[STRADDLER];
  }

  /** A failed creation leaves sectors that no mount will accept in exactly one situation: the slot is
      the straddling one and the mixture of the tables is not valid. */
  lemma FailedCreateUnmountable(st: State, parent: Byte, name: seq<Byte>, kind: Byte)
    requires Starts(st, parent, name, kind)
    ensures CanRuin(st, parent, name, kind) <==>
              FirstFree(st.entries, 0) == STRADDLER &&
              !TableOk(MixedTable(WithNew(st.entries, parent, name, kind), st.entries))
  {
    var t' := WithNew(st.entries, parent, name, kind);
    NewIsOk(st.entries, parent, name, kind, t');
    if TableOk(MixedTable(t', st.entries)) {
      NeverRuined(st, parent, name, kind, t');
    } else {
      TornUnmountable(st, parent, name, kind, t');
    }
  }

  /** The new table is valid, and so is the mixture unless the slot is the straddling one. */
  lemma NewIsOk(t: Table, parent: Byte, name: seq<Byte>, kind: Byte, t': Table)
    requires TableOk(t) && FirstFree(t, 0) < SLOTS && NameOk(name) && (kind == FILE || kind == DIRECTORY)
    requires ParentOk(t, parent) && forall i :: 0 <= i < SLOTS ==> !Named(t[i], parent, name)
    requires t' == WithNew(t, parent, name, kind)
    ensures TableOk(t') && (FirstFree(t, 0) != STRADDLER ==> TableOk(MixedTable(t', t)))
  {
    var i := FirstFree(t, 0);
    CreateKeepsValid(t, i, parent, name, kind, t');
    if i != STRADDLER {
      MixedElsewhere(t, i, NewEntry(parent, name, kind), t');
    }
  }

  lemma NeverRuined(st: State, parent: Byte, name: seq<Byte>, kind: Byte, t': Table)
    requires Starts(st, parent, name, kind) && t' == WithNew(st.entries, parent, name, kind)
    requires TableOk(t') && TableOk(MixedTable(t', st.entries))
    ensures !CanRuin(st, parent, name, kind)
  {
    forall st1 | Next(st, Create(parent, name, kind), false, st1)
      ensures !NothingMountable(st1.disk.sectors, st.count)
    {
      StaysMountable(st, t', st1);
    }
  }

  lemma TornUnmountable(st: State, parent: Byte, name: seq<Byte>, kind: Byte, t': Table)
    requires Starts(st, parent, name, kind) && t' == WithNew(st.entries, parent, name, kind)
    requires !TableOk(MixedTable(t', st.entries))
    ensures CanRuin(st, parent, name, kind)
  {
    var st1 := Unmountable(st, t');
    CreateTears(st, parent, name, kind, st1);
  }

  lemma StaysMountable(st: State, t': Table, st1: State)
    requires Inv(st) && st.mounted && TableOk(t') && TableOk(MixedTable(t', st.entries))
    requires Stores(st, Bumped(st.sb), t', false, st1)
    ensures !NothingMountable(st1.disk.sectors, st.count)
  {
    var k :| 0 <= k <= 3 && st1.disk.sectors == Flushed(st.disk.sectors, Bumped(st.sb), t', k);
    var sb := TornSuperblock(st, t', k);
    assert Mountable(st1.disk.sectors, st.count, sb, AfterWrites(t', st.entries, k));
  }

  /** The first sector was written and the second was not. */
  lemma Unmountable(st: State, t': Table) returns (st1: State)
    requires Inv(st) && st.mounted && !TableOk(MixedTable(t', st.entries)) && |st.sb.reserved| == RESERVED_SIZE
    ensures Stores(st, Bumped(st.sb), t', false, st1) && NothingMountable(st1.disk.sectors, st.count)
  {
    st1 := HalfWritten(st, Bumped(st.sb), t');
    var sb := TornSuperblock(st, t', 1);
    TableDecides(st1.disk.sectors, st.count, sb, MixedTable(t', st.entries));
  }

  // ---------------------------------------------------------------- failures elsewhere are atomic

  /** The slot whose entry a call would change. */
  function Target(t: Table, call: Call): nat
    requires call.Create? || call.Remove?
  {
    if call.Create? then FirstFree(t, 0) else call.index
  }

  lemma ViewAfterTear(img: seq<seq<Byte>>, sb: Superblock, t': Table, k: nat, t: Table)
    requires |sb.reserved| == RESERVED_SIZE
    ensures View(Flushed(img, sb, t', k), t) == View(img, t)
  {
    forall i | 0 <= i < SLOTS
      ensures NodeAt(Flushed(img, sb, t', k), t, i) == NodeAt(img, t, i)
    {
      TearKeepsData(img, sb, t', k, i, t[i].length as nat);
    }
  }

  /** The table a creation or removal is to leave. */
  function Changed(t: Table, call: Call): Table
    requires (call.Create? || call.Remove?) && Target(t, call) < SLOTS &&
             (call.Create? ==> |Text(call.name)| <= NAME_SIZE)
  {
    t[Target(t, call) := if call.Create? then NewEntry(call.parent, call.name, call.kind) else UNUSED]
  }

  /** It shows what the call should do. */
  lemma ChangedView(img: seq<seq<Byte>>, t: Table, call: Call)
    requires (call.Create? || call.Remove?) && Target(t, call) < SLOTS &&
             (call.Create? ==> |Text(call.name)| <= NAME_SIZE)
    ensures View(img, Changed(t, call)) == Apply(View(img, t), call)
  {
    var i, t' := Target(t, call), Changed(t, call);
    FirstFreeIsNone(img, t, 0);
    if call.Create? {
      NewNode(img, t', i, call.parent, call.name, call.kind);
    }
    assert View(img, t') == View(img, t)[i := NodeAt(img, t', i)];
  }

  /** If the mixture is one of the two tables, a mount shows one of them. */
  lemma TornView(st: State, t': Table, st1: State, read: bool, st2: State)
    requires Inv(st) && st.mounted && (MixedTable(t', st.entries) == t' || MixedTable(t', st.entries) == st.entries)
    requires Stores(st, Bumped(st.sb), t', false, st1) && Mounts(st1, read, true, st2)
    ensures var v' := View(st2.disk.sectors, st2.entries);
            v' == View(st.disk.sectors, st.entries) || v' == View(st.disk.sectors, t')
  {
    var k := MountAfterTear(st, Bumped(st.sb), t', st1, read, st2);
    ViewAfterTear(st.disk.sectors, Bumped(st.sb), t', k, st2.entries);
  }

  /** A creation or removal that fails in any slot but the straddling one is atomic: the next mount that
      succeeds finds the files as before the call, or as if it had succeeded. */
  lemma FailureIsAtomic(st: State, call: Call, st1: State, st2: State)
    requires Inv(st) && st.mounted && (call.Create? || call.Remove?) && Target(st.entries, call) != STRADDLER
    requires Next(st, call, false, st1) && Next(st1, Mount, true, st2)
    ensures var v, v' := View(st.disk.sectors, st.entries), View(st2.disk.sectors, st2.entries);
            v' == v || v' == Apply(v, call)
  {
    var read :| Mounts(st1, read, true, st2);
    if st1 == st {
      MountsKeepsInv(st1, read, true, st2);
    } else {
      var i, t' := Target(st.entries, call), Changed(st.entries, call);
      MixedElsewhere(st.entries, i, t'[i], t');
      TornView(st, t', st1, read, st2);
      ChangedView(st.disk.sectors, st.entries, call);
    }
  }

  // ---------------------------------------------------------------- the torn outcome

  lemma MountSucceeds(st: State, st': State)
    requires Mounts(st, true, true, st')
    ensures Next(st, Mount, true, st')
  {
  }

  /** The state after a write of the tables that stopped after the first sector. */
  lemma HalfWritten(st: State, sb: Superblock, t': Table) returns (st1: State)
    requires Inv(st) && st.mounted && |sb.reserved| == RESERVED_SIZE
    ensures Stores(st, sb, t', false, st1)
    ensures var img := Flushed(st.disk.sectors, sb, t', 1);
            st1 == st.(disk := Disk(img, img), sb := sb, entries := t', mounted := false)
  {
    var img := Flushed(st.disk.sectors, sb, t', 1);
    st1 := st.(disk := Disk(img, img), sb := sb, entries := t', mounted := false);
    assert DIRECTORY_LBA in METADATA;
    assert Touched(st.disk, st1.disk, METADATA);
  }

  /** ... and after a mount. */
  lemma Tear(st: State, sb: Superblock, t': Table) returns (st1: State, st2: State)
    requires Inv(st) && st.mounted && st.available && NoneOpen(st.refs) && |sb.reserved| == RESERVED_SIZE
    requires TableOk(MixedTable(t', st.entries))
    ensures Stores(st, sb, t', false, st1) && Mounts(st1, true, true, st2)
    ensures st2 == State(Disk(Flushed(st.disk.sectors, sb, t', 1), Flushed(st.disk.sectors, sb, t', 1)), st.sb,
                         MixedTable(t', st.entries), st.refs, true, st.available, st.count)
  {
    st1 := HalfWritten(st, sb, t');
    st2 := st1.(sb := st.sb, entries := MixedTable(t', st.entries), mounted := true);
    TornReads(st.disk.sectors, st.sb, st.entries, sb, t', 1);
  }

  /** A short text survives the mixture. */
  lemma MixedText(text: seq<Byte>, former: seq<Byte>)
    requires 0 !in text && |text| < SPLIT && |former| == NAME_SIZE
    ensures Text((text + Zeros(NAME_SIZE - |text|))[..SPLIT] + former[SPLIT..]) == text
  {
    var field := (text + Zeros(NAME_SIZE - |text|))[..SPLIT] + former[SPLIT..];
    assert field[|text|] == 0;
    assert field[..|text|] == text;
    forall i | 0 <= i < |text|
      ensures field[i] != 0
    {
      assert field[i] == text[i];
    }
    TextStarts(field, |text|);
  }

  lemma MixedName(name: seq<Byte>, former: seq<Byte>)
    requires |Text(name)| < SPLIT && |former| == NAME_SIZE
    ensures Text((Text(name) + Zeros(NAME_SIZE - |Text(name)|))[..SPLIT] + former[SPLIT..]) == Text(name)
  {
    TextHasNoZero(name);
    MixedText(Text(name), former);
  }

  /** So two failed calls make a former owner's bytes show: the file in the straddling slot is
      removed and a new one created there, and each time the second sector is not written. */
  lemma StaleBytesShow(st: State, name: seq<Byte>) returns (st1: State, st2: State, st3: State, st4: State)
    requires CanGoStale(st, name)
    ensures Next(st, Remove(STRADDLER, FILE), false, st1) && Next(st1, Mount, true, st2)
    ensures FailsAndMounts(st2, ROOT, name, FILE, st3, st4)
    ensures var length := st.entries[STRADDLER].length as nat;
            NodeAt(st4.disk.sectors, st4.entries, STRADDLER) ==
              Some(Node(FILE, ROOT, Text(name), Content(st.disk.sectors, STRADDLER, length)))
  {
    st1, st2 := TearRemove(st);
    MayCreateThere(st, name, FILE, st2);
    ShortMixedIsOk(st2.entries, ROOT, name, FILE);
    st3, st4 := TornCreate(st2, ROOT, name, FILE);
  }

  /** And if it was a directory that was to be created there, the volume can no longer be mounted. */
  lemma TornDirectory(st: State, name: seq<Byte>) returns (st1: State, st2: State, st3: State)
    requires CanGoStale(st, name)
    ensures Next(st, Remove(STRADDLER, FILE), false, st1) && Next(st1, Mount, true, st2)
    ensures Next(st2, Create(ROOT, name, DIRECTORY), false, st3) && NothingMountable(st3.disk.sectors, st.count)
  {
    st1, st2 := TearRemove(st);
    MayCreateThere(st, name, DIRECTORY, st2);
    ShortMixedIsOk(st2.entries, ROOT, name, DIRECTORY);
    FailedCreateUnmountable(st2, ROOT, name, DIRECTORY);
    st3 :| Next(st2, Create(ROOT, name, DIRECTORY), false, st3) && NothingMountable(st3.disk.sectors, st2.count);
  }

  /** The file is removed, the second sector is not written, and the volume is mounted again. */
  lemma TearRemove(st: State) returns (st1: State, st2: State)
    requires Inv(st) && MayRemove(st, STRADDLER, FILE) && st.available && NoneOpen(st.refs) &&
             |st.sb.reserved| == RESERVED_SIZE
    ensures Next(st, Remove(STRADDLER, FILE), false, st1) && Next(st1, Mount, true, st2)
    ensures Inv(st2) && st2 == st.(disk := st2.disk,
            entries := st.entries[STRADDLER := Mixed(UNUSED, st.entries[STRADDLER])])
    ensures var length := st.entries[STRADDLER].length as nat;
            Content(st2.disk.sectors, STRADDLER, length) == Content(st.disk.sectors, STRADDLER, length)
  {
    var t' := st.entries[STRADDLER := UNUSED];
    UnusedIsOk(st.entries, t');
    st1, st2 := Tear(st, Bumped(st.sb), t');
    RemoveTears(st, st1);
    MountSucceeds(st1, st2);
    NextKeepsInv(st, Remove(STRADDLER, FILE), false, st1);
    NextKeepsInv(st1, Mount, true, st2);
    TearKeepsData(st.disk.sectors, Bumped(st.sb), t', 1, STRADDLER, st.entries[STRADDLER].length as nat);
  }

  lemma RemoveTears(st: State, st1: State)
    requires MayRemove(st, STRADDLER, FILE) && Stores(st, Bumped(st.sb), st.entries[STRADDLER := UNUSED], false, st1)
    ensures Next(st, Remove(STRADDLER, FILE), false, st1)
  {
  }

  /** A removal that stopped half-way leaves the length in the unused entry. */
  lemma UnusedIsOk(t: Table, t': Table)
    requires TableOk(t) && t[STRADDLER].used != 0 && t[STRADDLER].kind == FILE && t' == t[STRADDLER := UNUSED]
    ensures TableOk(MixedTable(t', t)) && MixedTable(t', t) == t[STRADDLER := Mixed(UNUSED, t[STRADDLER])]
  {
    var e := Mixed(UNUSED, t[STRADDLER]);
    assert MixedTable(t', t) == t[STRADDLER := e];
    RemoveKeepsValid(t, STRADDLER, e, MixedTable(t', t));
  }

  lemma MayCreateThere(st: State, name: seq<Byte>, kind: Byte, st2: State)
    requires CanGoStale(st, name) && st2.mounted &&
             st2.entries == st.entries[STRADDLER := Mixed(UNUSED, st.entries[STRADDLER])]
    requires kind == FILE || kind == DIRECTORY
    ensures MayCreate(st2, ROOT, name, kind) && FirstFree(st2.entries, 0) == STRADDLER
  {
    FirstFreeThere(st2.entries, 0);
  }

  /** The first twelve slots are taken, the thirteenth holds a file that is not empty and not open. */
  ghost predicate CanGoStale(st: State, name: seq<Byte>)
  {
    && Inv(st) && st.mounted && st.available && NoneOpen(st.refs) && |st.sb.reserved| == RESERVED_SIZE
    && (forall i :: 0 <= i <= STRADDLER ==> st.entries[i].used != 0)
    && st.entries[STRADDLER].kind == FILE && st.entries[STRADDLER].length > 0
    && NameOk(name) && |Text(name)| < SPLIT && (forall i :: 0 <= i < SLOTS ==> !Named(st.entries[i], ROOT, name))
  }

  lemma {:induction false} FirstFreeThere(t: Table, i: nat)
    requires i <= STRADDLER && t[STRADDLER].used == 0 && forall k :: i <= k < STRADDLER ==> t[k].used != 0
    ensures FirstFree(t, i) == STRADDLER
    decreases STRADDLER - i
  {
    if i < STRADDLER {
      FirstFreeThere(t, i + 1);
    }
  }

  // ---------------------------------------------------------------- a concrete volume

  /** Files "a" to "m", the last with one byte. */
  function ThirteenFiles(): (t: Table)
    ensures forall i :: 0 <= i < SLOTS ==> t[i] == SlotOf(i)
  {
    seq(SLOTS, i requires 0 <= i < SLOTS => SlotOf(i))
  }

  function SlotOf(i: nat): (e: Entry)
    ensures |e.name| == NAME_SIZE
  {
    if i <= STRADDLER then Letter(i) else UNUSED
  }

  function Letter(i: nat): (e: Entry)
    requires i <= STRADDLER
    ensures |e.name| == NAME_SIZE
  {
    Entry(1, FILE, ROOT, 0, [(0x61 + i) as Byte] + Zeros(NAME_SIZE - 1), if i == STRADDLER then 1 else 0)
  }

  function ThirteenSectors(n: Long): (img: seq<seq<Byte>>)
    ensures |img| == n as nat && Whole(img) && forall i :: 0 <= i < |img| ==> img[i] == SectorOf(n, i)
  {
    seq(n as nat, i requires 0 <= i => SectorOf(n, i))
  }

  function SectorOf(n: Long, i: nat): (s: seq<Byte>)
    ensures |s| == SECTOR
  {
    if i == SUPERBLOCK_LBA then SuperblockSector(Sealed(FreshSuperblock(n)))
    else if i == DIRECTORY_LBA then DirectorySector(ThirteenFiles(), 0)
    else if i == DIRECTORY_LBA + 1 then DirectorySector(ThirteenFiles(), 1)
    else if i == SlotLba(STRADDLER) then [7] + Zeros(SECTOR - 1)
    else Zeros(SECTOR)
  }

  /** On a drive of n sectors. */
  function ThirteenVolume(n: Long): State
  {
    State(Disk(ThirteenSectors(n), ThirteenSectors(n)), Sealed(FreshSuperblock(n)), ThirteenFiles(), seq(SLOTS, _ => 0),
      true, true, n as nat)
  }

  lemma LetterText(i: nat)
    requires i <= STRADDLER
    ensures Text(Letter(i).name) == [(0x61 + i) as Byte]
  {
    PaddedText([(0x61 + i) as Byte], NAME_SIZE - 1);
  }

  lemma ThirteenTableOk()
    ensures TableOk(ThirteenFiles())
  {
    var t := ThirteenFiles();
    forall i | 0 <= i < SLOTS && t[i].used != 0
      ensures EntryOk(t[i]) && Rooted(t, i)
    {
      LetterText(i);
      assert Leads(t, t[i].parent, []);
    }
    forall i, j | 0 <= i < j < SLOTS
      ensures Apart(t, i, j)
    {
      if j <= STRADDLER {
        LetterText(i);
        LetterText(j);
      }
    }
  }

  lemma ThirteenIsSound(n: Long)
    requires n as nat >= REQUIRED
    ensures Inv(ThirteenVolume(n))
  {
    var st := ThirteenVolume(n);
    ThirteenTableOk();
    WrittenIsStored(st.disk.sectors, st.sb, st.entries);
    SealedIsOk(FreshSuperblock(n), n as nat);
  }

  lemma OtherLetter(z: seq<Byte>)
    requires Text(z) == [0x7A]
    ensures forall i :: 0 <= i < SLOTS ==> !Named(ThirteenFiles()[i], ROOT, z)
  {
    forall i | 0 <= i <= STRADDLER
      ensures !Named(ThirteenFiles()[i], ROOT, z)
    {
      LetterText(i);
    }
  }

  /** On this volume the byte 7 of the file "m" can show in a new file "z". */
  lemma StaleExample(n: Long, z: seq<Byte>)
    requires n as nat >= REQUIRED && Text(z) == [0x7A]
    ensures CanGoStale(ThirteenVolume(n), z) && Content(ThirteenSectors(n), STRADDLER, 1) == [7]
  {
    ThirteenIsSound(n);
    OtherLetter(z);
    SevenIsThere(n);
  }

  lemma SevenIsThere(n: Long)
    requires n as nat >= REQUIRED
    ensures Content(ThirteenSectors(n), STRADDLER, 1) == [7]
  {
    var img := ThirteenSectors(n);
    assert SlotLba(STRADDLER) < |img| && |img[SlotLba(STRADDLER)]| == SECTOR;
    assert img[SlotLba(STRADDLER)][0] == 7;
    assert ByteAt(img, STRADDLER, 0) == 7;
  }
}
