/** What each DiskFS call may do to the drive and to the tables in memory, transfers failing at will
    (diskfs.c:231-376, 501-559). Over every run, a mounted volume is the one that a mount would read,
    and its files are those of a table of sparse files that knows no sectors. */
module DiskSteps {
  import opened Common
  import opened DiskTable
  import opened DiskImage

  const SUPERBLOCK_LBA := 4
  const DIRECTORY_LBA := 5
  const DATA_LBA := 16
  const FILE_SECTORS := 4

  /** `sectors` is what reads return, `stable` what a power cut leaves. */
  datatype Disk = Disk(sectors: seq<seq<Byte>>, stable: seq<seq<Byte>>)

  datatype State = State(disk: Disk, sb: Superblock, entries: Table, refs: seq<nat>, mounted: bool, available: bool,
                         count: nat)

  // ---------------------------------------------------------------- the drive

  /** Every sector has its size. */
  ghost predicate Whole(img: seq<seq<Byte>>)
  {
    forall i :: 0 <= i < |img| ==> |img[i]| == SECTOR
  }

  /** Only these sectors may have changed, and no other may go back to what it was before. */
  ghost predicate Touched(d: Disk, d': Disk, lbas: set<nat>)
  {
    && |d'.sectors| == |d.sectors| == |d.stable| == |d'.stable| && Whole(d'.sectors) && Whole(d'.stable)
    && (forall i :: 0 <= i < |d.sectors| && i !in lbas ==> d'.sectors[i] == d.sectors[i])
    && (|| (forall i :: 0 <= i < |d.sectors| && i !in lbas ==> d'.stable[i] == d.stable[i])
        || (forall i :: 0 <= i < |d.sectors| && i !in lbas ==> d'.stable[i] == d.sectors[i]))
  }

  /** What ata_read_sector does to the drive. */
  ghost predicate Reads(d: Disk, d': Disk)
  {
    d'.sectors == d.sectors && (d'.stable == d.stable || d'.stable == d.sectors)
  }

  /** What ata_write_sector does to the drive. */
  ghost predicate Writes(d: Disk, lba: nat, data: seq<Byte>, ok: bool, d': Disk)
  {
    && (d'.sectors == d.sectors || (lba < |d.sectors| && d'.sectors == d.sectors[lba := data]))
    && (d'.stable == d.stable || d'.stable == d.sectors || d'.stable == d'.sectors)
    && (ok ==> lba < |d.sectors| && d'.sectors == d.sectors[lba := data] && d'.stable == d'.sectors)
  }

  lemma TouchedTwice(d: Disk, d1: Disk, d2: Disk, a: set<nat>, b: set<nat>)
    requires Touched(d, d1, a) && Touched(d1, d2, b)
    ensures Touched(d, d2, a + b)
  {
  }

  lemma MoreTouched(d: Disk, d': Disk, a: set<nat>, b: set<nat>)
    requires Touched(d, d', a) && a <= b
    ensures Touched(d, d', b)
  {
  }

  const METADATA: set<nat> := {SUPERBLOCK_LBA, DIRECTORY_LBA, DIRECTORY_LBA + 1}

  function SlotLba(index: nat): nat
  {
    DATA_LBA + index * FILE_SECTORS
  }

  /** The sectors of a file. */
  function SlotSectors(index: nat): set<nat>
  {
    {SlotLba(index), SlotLba(index) + 1, SlotLba(index) + 2, SlotLba(index) + 3}
  }

  // ---------------------------------------------------------------- what a mount reads

  /** These sectors hold this superblock and this table. */
  ghost predicate Stored(img: seq<seq<Byte>>, sb: Superblock, t: Table)
  {
    && |img| > DIRECTORY_LBA + 1
    && |img[SUPERBLOCK_LBA]| == |img[DIRECTORY_LBA]| == |img[DIRECTORY_LBA + 1]| == SECTOR
    && ToSuperblock(img[SUPERBLOCK_LBA]) == sb
    && FromSectors(img[DIRECTORY_LBA], img[DIRECTORY_LBA + 1]) == t
  }

  /** A mount would accept these sectors as this volume. */
  ghost predicate Mountable(img: seq<seq<Byte>>, count: nat, sb: Superblock, t: Table)
  {
    Stored(img, sb, t) && SuperblockOk(sb, count) && TableOk(t)
  }

  /** What was written is stored. */
  lemma WrittenIsStored(img: seq<seq<Byte>>, sb: Superblock, t: Table)
    requires |img| > DIRECTORY_LBA + 1 && |sb.reserved| == RESERVED_SIZE
    requires img[SUPERBLOCK_LBA] == SuperblockSector(sb)
    requires img[DIRECTORY_LBA] == DirectorySector(t, 0) && img[DIRECTORY_LBA + 1] == DirectorySector(t, 1)
    ensures Stored(img, sb, t)
  {
    SuperblockRoundTrip(sb);
    DirectoryRoundTrip(t);
  }

  ghost predicate NothingMountable(img: seq<seq<Byte>>, count: nat)
  {
    forall sb, t :: !Mountable(img, count, sb, t)
  }

  lemma BadSuperblock(img: seq<seq<Byte>>, count: nat)
    requires |img| > SUPERBLOCK_LBA && |img[SUPERBLOCK_LBA]| == SECTOR &&
             !SuperblockOk(ToSuperblock(img[SUPERBLOCK_LBA]), count)
    ensures NothingMountable(img, count)
  {
  }

  /** With a good superblock the table decides. */
  lemma TableDecides(img: seq<seq<Byte>>, count: nat, sb: Superblock, t: Table)
    requires Stored(img, sb, t) && SuperblockOk(sb, count)
    ensures TableOk(t) ==> Mountable(img, count, sb, t)
    ensures !TableOk(t) ==> NothingMountable(img, count)
  {
  }

  lemma StoredFrame(d: Disk, d': Disk, lbas: set<nat>, sb: Superblock, t: Table)
    requires Touched(d, d', lbas) && lbas !! METADATA && Stored(d.sectors, sb, t)
    ensures Stored(d'.sectors, sb, t) && (Stored(d.stable, sb, t) ==> Stored(d'.stable, sb, t))
  {
    assert SUPERBLOCK_LBA in METADATA && DIRECTORY_LBA in METADATA && DIRECTORY_LBA + 1 in METADATA;
  }

  // ---------------------------------------------------------------- files

  function ByteAt(img: seq<seq<Byte>>, index: nat, x: nat): Byte
  {
    var lba := SlotLba(index) + x / SECTOR;
    if lba < |img| && |img[lba]| == SECTOR then img[lba][x % SECTOR] else 0
  }

  /** The first `length` bytes of a slot. */
  function Content(img: seq<seq<Byte>>, index: nat, length: nat): (r: seq<Byte>)
    ensures |r| == length && forall x :: 0 <= x < length ==> r[x] == ByteAt(img, index, x)
  {
    seq(length, x requires 0 <= x => ByteAt(img, index, x))
  }

  /** A sparse file after a write: the data at `offset`, zeros in a gap before it, the rest as it was. */
  function Splice(file: seq<Byte>, offset: nat, data: seq<Byte>): (r: seq<Byte>)
  {
    if data == [] then file
    else if offset >= |file| then file + Zeros(offset - |file|) + data
    else if offset + |data| >= |file| then file[..offset] + data
    else file[..offset] + data + file[offset + |data|..]
  }

  lemma SpliceAt(file: seq<Byte>, offset: nat, data: seq<Byte>, x: nat)
    requires data != [] && x < |Splice(file, offset, data)|
    ensures |Splice(file, offset, data)| == if offset + |data| > |file| then offset + |data| else |file|
    ensures Splice(file, offset, data)[x] ==
      if offset <= x < offset + |data| then data[x - offset] else if x < |file| then file[x] else 0
  {
  }

  /** A file outside the changed sectors keeps its bytes. */
  lemma ContentFrame(d: Disk, d': Disk, lbas: set<nat>, index: nat, length: nat)
    requires Touched(d, d', lbas) && lbas !! SlotSectors(index) && length <= MAX_SIZE
    ensures Content(d'.sectors, index, length) == Content(d.sectors, index, length)
  {
    forall x: nat | x < length
      ensures ByteAt(d'.sectors, index, x) == ByteAt(d.sectors, index, x)
    {
      var lba := SlotLba(index) + x / SECTOR;
      assert lba in SlotSectors(index);
    }
  }

  lemma SlotsApart(i: nat, j: nat)
    requires i != j
    ensures SlotSectors(i) !! SlotSectors(j) && SlotSectors(i) !! METADATA
  {
  }

  // ---------------------------------------------------------------- calls

  datatype Call =
    | Create(parent: Byte, name: seq<Byte>, kind: Byte)
    | Remove(index: nat, what: Byte)
    | Write(slot: nat, offset: nat, data: seq<Byte>)
    | Open(node: nat)
    | Close(closed: nat)
    | Mount
    | Format
    | Reboot

  function Bumped(sb: Superblock): Superblock
  {
    sb.(generation := ((sb.generation as int + 1) % 0x1_0000_0000) as Long)
  }

  function Sealed(sb: Superblock): Superblock
  {
    sb.(checksum := Checksum(sb))
  }

  function Put(img: seq<seq<Byte>>, lba: nat, data: seq<Byte>): seq<seq<Byte>>
  {
    if lba < |img| then img[lba := data] else img
  }

  /** The sectors once the first k of the directory sectors and the superblock are written. */
  function Flushed(img: seq<seq<Byte>>, sb: Superblock, t: Table, k: nat): seq<seq<Byte>>
    requires |sb.reserved| == RESERVED_SIZE
  {
    if k == 0 then img
    else if k == 1 then Put(img, DIRECTORY_LBA, DirectorySector(t, 0))
    else if k == 2 then Put(Flushed(img, sb, t, 1), DIRECTORY_LBA + 1, DirectorySector(t, 1))
    else Put(Flushed(img, sb, t, 2), SUPERBLOCK_LBA, SuperblockSector(Sealed(sb)))
  }

  /** At most the first n of them are written. */
  ghost predicate Torn(img: seq<seq<Byte>>, sb: Superblock, t: Table, n: nat, img': seq<seq<Byte>>)
    requires |sb.reserved| == RESERVED_SIZE
  {
    exists k :: 0 <= k <= n && img' == Flushed(img, sb, t, k)
  }

  /** diskfs_write_directory and diskfs_write_superblock: the volume stays mounted exactly if all of
      it was written, and then it is also safe from a power cut. Otherwise the first sectors may
      have been written and the others not. */
  ghost predicate Stores(st: State, sb: Superblock, t: Table, ok: bool, st': State)
  {
    && st' == st.(disk := st'.disk, sb := st'.sb, entries := t, mounted := ok)
    && Touched(st.disk, st'.disk, METADATA) && |sb.reserved| == RESERVED_SIZE
    && (if ok then st'.sb == Sealed(sb) && Stored(st'.disk.sectors, st'.sb, t) && st'.disk.stable == st'.disk.sectors
        else (st'.sb == sb || st'.sb == Sealed(sb)) && Torn(st.disk.sectors, sb, t, 3, st'.disk.sectors))
  }

  function FirstFree(t: Table, i: nat): (r: nat)
    requires i <= SLOTS
    ensures i <= r <= SLOTS && (r < SLOTS ==> t[r].used == 0) && forall k :: i <= k < r ==> t[k].used != 0
    decreases SLOTS - i
  {
    if i == SLOTS || t[i].used == 0 then i else FirstFree(t, i + 1)
  }

  ghost predicate MayCreate(st: State, parent: Byte, name: seq<Byte>, kind: Byte)
  {
    && st.mounted && NameOk(name) && (kind == FILE || kind == DIRECTORY) && ParentOk(st.entries, parent)
    && (forall i :: 0 <= i < SLOTS ==> !Named(st.entries[i], parent, name))
  }

  /** diskfs_create_entry. */
  ghost predicate Creates(st: State, parent: Byte, name: seq<Byte>, kind: Byte, ok: bool, st': State)
  {
    var i := FirstFree(st.entries, 0);
    if MayCreate(st, parent, name, kind) && i < SLOTS
    then Stores(st, Bumped(st.sb), st.entries[i := NewEntry(parent, name, kind)], ok, st')
    else !ok && st' == st
  }

  ghost predicate MayRemove(st: State, index: nat, kind: Byte)
  {
    && st.mounted && IsUsed(st.entries, index) && st.entries[index].kind == kind && index < |st.refs| &&
       st.refs[index] == 0
    && (kind == DIRECTORY ==> forall i :: 0 <= i < SLOTS ==> !ChildOf(st.entries[i], index))
  }

  /** diskfs_remove_entry. */
  ghost predicate Removes(st: State, index: nat, kind: Byte, ok: bool, st': State)
  {
    if MayRemove(st, index, kind)
    then Stores(st, Bumped(st.sb), st.entries[index := UNUSED], ok, st')
    else !ok && st' == st
  }

  predicate MayWrite(t: Table, index: nat, offset: nat, size: nat)
  {
    IsUsed(t, index) && t[index].kind == FILE && offset + size <= MAX_SIZE
  }

  function Grown(length: nat, offset: nat, size: nat): nat
  {
    if offset + size > length then offset + size else length
  }

  function Resized(t: Table, index: nat, length: nat): Table
    requires index < SLOTS && length < 0x1_0000_0000
  {
    t[index := t[index].(length := length as Long)]
  }

  /** The file's bytes are the spliced ones. */
  ghost predicate Spliced(d: Disk, index: nat, length: nat, offset: nat, data: seq<Byte>, d': Disk)
  {
    Content(d'.sectors, index, Grown(length, offset, |data|)) == Splice(Content(d.sectors, index, length), offset, data)
  }

  /** The file's bytes are the old ones or, where the data goes, the new ones. */
  ghost predicate Dirty(img: seq<seq<Byte>>, index: nat, length: nat, offset: nat, data: seq<Byte>,
                        img': seq<seq<Byte>>)
  {
    && |img'| == |img| && (forall i :: 0 <= i < |img| && i !in SlotSectors(index) ==> img'[i] == img[i])
    && (forall x: nat :: x < length ==>
        || ByteAt(img', index, x) == ByteAt(img, index, x)
        || (offset <= x < offset + |data| && ByteAt(img', index, x) == data[x - offset]))
  }

  /** diskfs_write_slot. A failed transfer of data leaves the tables alone; a failed one of metadata
      unmounts. */
  ghost predicate Alters(st: State, index: nat, offset: nat, data: seq<Byte>, ok: bool, st': State)
  {
    if !MayWrite(st.entries, index, offset, |data|) then !ok && st' == st
    else if data == [] then ok && st' == st
    else
      var length := st.entries[index].length as nat;
      var t := Resized(st.entries, index, Grown(length, offset, |data|));
      && st' == st.(disk := st'.disk, sb := st'.sb, entries := st'.entries, mounted := st'.mounted)
      && Touched(st.disk, st'.disk, SlotSectors(index) + METADATA)
      && (if ok
          then st.mounted && st'.mounted && st'.entries == t && st'.sb == Sealed(Bumped(st.sb)) &&
               Stored(st'.disk.sectors, st'.sb, t) && st'.disk.stable == st'.disk.sectors &&
               Spliced(st.disk, index, length, offset, data, st'.disk)
          else st'.mounted ==>
               st.mounted && st'.entries == st.entries && st'.sb == st.sb &&
                 Touched(st.disk, st'.disk, SlotSectors(index)) &&
               Dirty(st.disk.sectors, index, length, offset, data, st'.disk.sectors) &&
               (st'.disk.stable == st.disk.stable ||
                 Dirty(st.disk.sectors, index, length, offset, data, st'.disk.stable)))
  }

  ghost predicate NoneOpen(refs: seq<nat>)
  {
    forall i :: 0 <= i < |refs| ==> refs[i] == 0
  }

  /** diskfs_mount; `read` says whether the drive delivered what was asked of it. */
  ghost predicate Mounts(st: State, read: bool, ok: bool, st': State)
  {
    if !st.available || !NoneOpen(st.refs) then !ok && st' == st else Decides(st, read, ok, st')
  }

  /** What the drive holds is mounted, and nothing only if it holds no volume. */
  ghost predicate Decides(st: State, read: bool, ok: bool, st': State)
  {
    && st' == st.(disk := st'.disk, sb := st'.sb, entries := st'.entries, mounted := ok)
    && Reads(st.disk, st'.disk)
    && (ok ==> Mountable(st.disk.sectors, st.count, st'.sb, st'.entries))
    && (read && !ok ==> NothingMountable(st.disk.sectors, st.count))
  }

  function FreshSuperblock(count: Long): Superblock
  {
    Superblock(MAGIC, 2, 1, count, 5, 2, 16, 16, 4, 0, Zeros(RESERVED_SIZE))
  }

  /** diskfs_format. */
  ghost predicate Formats(st: State, ok: bool, st': State)
  {
    if !st.available || !NoneOpen(st.refs) || st.count < REQUIRED then !ok && st' == st
    else st.count < 0x1_0000_0000 && Stores(st, FreshSuperblock(st.count as Long), EmptyTable(), ok, st')
  }

  function Cleared(st: State): State
  {
    st.(sb := Superblock(0, 0, 0, 0, 0, 0, 0, 0, 0, 0, Zeros(RESERVED_SIZE)), entries := EmptyTable(),
      refs := seq(SLOTS, _ => 0),
        mounted := false)
  }

  /** diskfs_install. */
  ghost predicate Installs(st: State, read: bool, ok: bool, st': State)
  {
    Mounts(Cleared(st), read, ok, st')
  }

  /** A power cut loses what was not stable; diskfs_install follows. */
  ghost predicate Reboots(st: State, read: bool, ok: bool, st': State)
  {
    Installs(st.(disk := Disk(st.disk.stable, st.disk.stable)), read, ok, st')
  }

  ghost predicate Next(st: State, call: Call, ok: bool, st': State)
  {
    match call
    case Create(parent, name, kind) => Creates(st, parent, name, kind, ok, st')
    case Remove(index, kind) => Removes(st, index, kind, ok, st')
    case Write(index, offset, data) => Alters(st, index, offset, data, ok, st')
    case Open(i) => ok && st' == if i < |st.refs| then st.(refs := st.refs[i := st.refs[i] + 1]) else st
    case Close(i) => ok && st' == if i < |st.refs| && st.refs[i] > 0 then st.(refs := st.refs[i := st.refs[i] - 1])
      else st
    case Mount => exists read :: Mounts(st, read, ok, st')
    case Format => Formats(st, ok, st')
    case Reboot => exists read :: Reboots(st, read, ok, st')
  }

  // ---------------------------------------------------------------- every run

  /** A mounted volume is valid and is on the drive as it is in memory. */
  ghost predicate Inv(st: State)
  {
    && Whole(st.disk.sectors) && Whole(st.disk.stable) && |st.disk.stable| == |st.disk.sectors| && |st.refs| == SLOTS
    && st.count < 0x1_0000_0000
    && (st.mounted ==> Mountable(st.disk.sectors, st.count, st.sb, st.entries))
  }

  /** A power cut would not lose the table. */
  ghost predicate Durable(st: State)
  {
    st.mounted ==> Stored(st.disk.stable, st.sb, st.entries)
  }

  lemma SealedIsOk(sb: Superblock, count: nat)
    requires Fits(sb, count)
    ensures SuperblockOk(Sealed(sb), count)
  {
    assert Covered(Sealed(sb)) == Covered(sb);
  }

  lemma StoresKeepsInv(st: State, sb: Superblock, t: Table, ok: bool, st': State)
    requires Inv(st) && Stores(st, sb, t, ok, st') && TableOk(t) && Fits(sb, st.count)
    ensures Inv(st') && Durable(st')
  {
    SealedIsOk(sb, st.count);
  }

  lemma CreatesKeepsInv(st: State, parent: Byte, name: seq<Byte>, kind: Byte, ok: bool, st': State)
    requires Inv(st) && Creates(st, parent, name, kind, ok, st')
    ensures Inv(st') && (Durable(st) || ok ==> Durable(st'))
  {
    var i := FirstFree(st.entries, 0);
    if MayCreate(st, parent, name, kind) && i < SLOTS {
      var t := st.entries[i := NewEntry(parent, name, kind)];
      CreateKeepsValid(st.entries, i, parent, name, kind, t);
      StoresKeepsInv(st, Bumped(st.sb), t, ok, st');
    }
  }

  lemma RemovesKeepsInv(st: State, index: nat, kind: Byte, ok: bool, st': State)
    requires Inv(st) && Removes(st, index, kind, ok, st')
    ensures Inv(st') && (Durable(st) || ok ==> Durable(st'))
  {
    if MayRemove(st, index, kind) {
      var t := st.entries[index := UNUSED];
      RemoveKeepsValid(st.entries, index, UNUSED, t);
      StoresKeepsInv(st, Bumped(st.sb), t, ok, st');
    }
  }

  lemma AltersKeepsInv(st: State, index: nat, offset: nat, data: seq<Byte>, ok: bool, st': State)
    requires Inv(st) && Alters(st, index, offset, data, ok, st')
    ensures Inv(st') && (Durable(st) || (ok && data != []) ==> Durable(st'))
  {
    if MayWrite(st.entries, index, offset, |data|) && data != [] {
      var length := Grown(st.entries[index].length as nat, offset, |data|);
      if ok {
        ResizeKeepsValid(st.entries, index, length as Long, Resized(st.entries, index, length));
        SealedIsOk(Bumped(st.sb), st.count);
      } else if st'.mounted {
        SlotsApart(index, index + 1);
        StoredFrame(st.disk, st'.disk, SlotSectors(index), st.sb, st.entries);
      }
    }
  }

  /** Mounting a mounted volume changes nothing. */
  lemma MountsKeepsInv(st: State, read: bool, ok: bool, st': State)
    requires Inv(st) && Mounts(st, read, ok, st')
    ensures Inv(st') && (st.mounted && Durable(st) ==> Durable(st'))
    ensures st.mounted && ok ==> st' == st.(disk := st'.disk)
    ensures st.mounted && read && st.available && NoneOpen(st.refs) ==> ok
  {
  }

  /** A reboot after a power cut brings back the table that was stable. */
  lemma RebootsKeepsInv(st: State, read: bool, ok: bool, st': State)
    requires Inv(st) && Reboots(st, read, ok, st')
    ensures Inv(st') && Durable(st')
    ensures st.mounted && Durable(st) && ok ==> st'.sb == st.sb && st'.entries == st.entries
    ensures st.mounted && Durable(st) && read && st.available ==> ok
  {
    if st.mounted && Durable(st) {
      assert Mountable(st.disk.stable, st.count, st.sb, st.entries);
    }
  }

  lemma FormatsKeepsInv(st: State, ok: bool, st': State)
    requires Inv(st) && Formats(st, ok, st')
    ensures Inv(st') && (Durable(st) || ok ==> Durable(st')) && (ok ==> st'.mounted)
  {
    if st.available && NoneOpen(st.refs) && st.count >= REQUIRED {
      StoresKeepsInv(st, FreshSuperblock(st.count as Long), EmptyTable(), ok, st');
    }
  }

  lemma NextKeepsInv(st: State, call: Call, ok: bool, st': State)
    requires Inv(st) && Next(st, call, ok, st')
    ensures Inv(st')
    ensures Durable(st) && (st.mounted || call != Mount) ==> Durable(st')
  {
    match call
    case Create(parent, name, kind) => CreatesKeepsInv(st, parent, name, kind, ok, st');
    case Remove(index, kind) => RemovesKeepsInv(st, index, kind, ok, st');
    case Write(index, offset, data) => AltersKeepsInv(st, index, offset, data, ok, st');
    case Open(i) =>
    case Close(i) =>
    case Mount =>
      var read :| Mounts(st, read, ok, st');
      MountsKeepsInv(st, read, ok, st');
    case Format => FormatsKeepsInv(st, ok, st');
    case Reboot =>
      var read :| Reboots(st, read, ok, st');
      RebootsKeepsInv(st, read, ok, st');
  }
}
