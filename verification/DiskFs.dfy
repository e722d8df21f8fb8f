/** DiskFS (diskfs.c) over the ATA driver: every call does to the volume what DiskSteps says. */
module DiskFs {
  import opened Common
  import opened DiskTable
  import opened DiskImage
  import opened DiskSteps
  import AtaDrive
  import Ata

  // ---------------------------------------------------------------- sectors as bytes

  /** The bytes of a sector's words, low byte first. */
  function Unpack(words: seq<AtaDrive.Word>): (r: seq<Byte>)
    requires |words| == AtaDrive.WORDS
    ensures |r| == SECTOR
  {
    seq(SECTOR, k requires 0 <= k < SECTOR =>
      if k % 2 == 0 then (words[k / 2] % 256) as Byte else (words[k / 2] / 256) as Byte)
  }

  lemma UnpackPack(bytes: seq<Byte>)
    requires |bytes| == SECTOR
    ensures Unpack(Ata.Pack(bytes)) == bytes
  {
    forall k | 0 <= k < SECTOR
      ensures Unpack(Ata.Pack(bytes))[k] == bytes[k]
    {
      assert k == 2 * (k / 2) + k % 2;
    }
  }

  function Image(img: seq<seq<AtaDrive.Word>>): (r: seq<seq<Byte>>)
    requires forall i :: 0 <= i < |img| ==> |img[i]| == AtaDrive.WORDS
    ensures |r| == |img| && Whole(r) && forall i :: 0 <= i < |img| ==> r[i] == Unpack(img[i])
  {
    seq(|img|, i requires 0 <= i < |img| => Unpack(img[i]))
  }

  lemma ImageUpdate(img: seq<seq<AtaDrive.Word>>, img': seq<seq<AtaDrive.Word>>, lba: nat, bytes: seq<Byte>)
    requires |img'| == |img| && lba < |img| && |bytes| == SECTOR && img'[lba] == Ata.Pack(bytes)
    requires forall i :: 0 <= i < |img| ==> |img[i]| == AtaDrive.WORDS
    requires forall i :: 0 <= i < |img| && i != lba ==> img'[i] == img[i]
    ensures Image(img') == Image(img)[lba := bytes]
  {
    UnpackPack(bytes);
  }

  lemma WritesTouches(d: Disk, lba: nat, data: seq<Byte>, ok: bool, d': Disk)
    requires Writes(d, lba, data, ok, d') && |data| == SECTOR && Whole(d.sectors) && Whole(d.stable) &&
             |d.stable| == |d.sectors|
    ensures Touched(d, d', {lba})
  {
  }

  // ---------------------------------------------------------------- memory

  /** memcpy of count bytes into dst at `at`. */
  method Copy(dst: array<Byte>, at: nat, src: seq<Byte>, start: nat, count: nat)
    requires at + count <= dst.Length && start + count <= |src|
    modifies dst
    ensures forall k :: 0 <= k < dst.Length ==>
            dst[k] == if at <= k < at + count then src[start + (k - at)] else old(dst[k])
  {
    var k := 0;
    while k < count
      invariant 0 <= k <= count
      invariant forall i :: 0 <= i < dst.Length ==>
                dst[i] == if at <= i < at + k then src[start + (i - at)] else old(dst[i])
    {
      dst[at + k] := src[start + k];
      k := k + 1;
    }
  }

  class Volume {
    const disk: Ata.Driver
    var sb: Superblock
    var entries: Table
    var refs: seq<nat>
    var mounted: bool
    ghost var image: Disk

    /** The image is the drive's. */
    ghost predicate Ready()
      reads this, disk, disk.port
    {
      && AtaDrive.Valid(disk.port.d) && |refs| == SLOTS && disk.sectorCount < 0x1_0000_0000
      && |sb.reserved| == RESERVED_SIZE
      && image == Disk(Image(disk.port.d.sectors), Image(disk.port.d.stable))
    }

    /** The drive answers at once and without errors, and holds a volume's sectors. */
    ghost predicate Working()
      reads disk, disk.port
    {
      && disk.port.prompt && AtaDrive.Recovers(disk.port.d) && disk.available
      && REQUIRED <= disk.sectorCount <= |disk.port.d.sectors|
    }

    ghost function Now(): State
      reads this, disk
    {
      State(image, sb, entries, refs, mounted, disk.available, disk.sectorCount)
    }

    constructor (driver: Ata.Driver)
      requires AtaDrive.Valid(driver.port.d) && driver.sectorCount < 0x1_0000_0000
      ensures disk == driver && Ready() && !mounted && NoneOpen(refs)
    {
      disk, mounted := driver, false;
      sb := Superblock(0, 0, 0, 0, 0, 0, 0, 0, 0, 0, Zeros(RESERVED_SIZE));
      entries, refs := EmptyTable(), seq(SLOTS, _ => 0);
      image := Disk(Image(driver.port.d.sectors), Image(driver.port.d.stable));
    }

    /** ata_read_sector. */
    method ReadSector(lba: nat, buffer: array<Byte>) returns (ok: bool)
      requires Ready() && buffer.Length == SECTOR
      modifies `image, disk`readCount, disk.port, buffer
      ensures Ready() && Reads(old(image), image)
      ensures ok ==> lba < |image.sectors| && buffer[..] == image.sectors[lba]
      ensures old(Working()) && lba < REQUIRED ==> ok && Working()
    {
      ok := disk.ReadSector(lba, buffer);
      image := Disk(Image(disk.port.d.sectors), Image(disk.port.d.stable));
      if ok {
        UnpackPack(buffer[..]);
      }
    }

    /** ata_write_sector. */
    method WriteSector(lba: nat, buffer: array<Byte>) returns (ok: bool)
      requires Ready() && buffer.Length == SECTOR
      modifies `image, disk`writeCount, disk.port
      ensures Ready() && Writes(old(image), lba, buffer[..], ok, image) && Touched(old(image), image, {lba})
      ensures old(Working()) && lba < REQUIRED ==> ok && Working()
    {
      ghost var before := disk.port.d;
      ok := disk.WriteSector(lba, buffer);
      ghost var after := disk.port.d;
      image := Disk(Image(after.sectors), Image(after.stable));
      if lba < |after.sectors| && after.sectors[lba] == Ata.Pack(buffer[..]) {
        ImageUpdate(before.sectors, after.sectors, lba, buffer[..]);
      } else {
        assert after.sectors == before.sectors;
      }
      WritesTouches(old(image), lba, buffer[..], ok, image);
    }

    /** ata_write_sector on a buffer with these bytes. */
    method WriteBytes(lba: nat, buffer: array<Byte>, ghost bytes: seq<Byte>) returns (ok: bool)
      requires Ready() && buffer[..] == bytes && |bytes| == SECTOR
      modifies `image, disk`writeCount, disk.port
      ensures Ready() && Writes(old(image), lba, bytes, ok, image) && Touched(old(image), image, {lba})
      ensures old(Working()) && lba < REQUIRED ==> ok && Working()
    {
      ok := WriteSector(lba, buffer);
    }

    // -------------------------------------------------------------- metadata

    /** The buffer in the loop of diskfs_write_directory. */
    method DirectoryBuffer(bytes: seq<Byte>, i: nat, count: nat) returns (sector: array<Byte>)
      requires i < 2 && |bytes| == TABLE_SIZE && count == if i == 0 then SECTOR else TABLE_SIZE - SECTOR
      ensures fresh(sector) && sector.Length == SECTOR
      ensures sector[..] == if i == 0 then bytes[..SECTOR] else bytes[SECTOR..] + Zeros(2 * SECTOR - TABLE_SIZE)
    {
      sector := new Byte[SECTOR](_ => 0);
      Copy(sector, 0, bytes, i * SECTOR, count);
    }

    /** One turn of the loop of diskfs_write_directory. */
    method WriteDirectorySector(bytes: seq<Byte>, i: nat, count: nat) returns (ok: bool)
      requires Ready() && i < 2 && bytes == TableBytes(entries) && count == if i == 0 then SECTOR
               else TABLE_SIZE - SECTOR
      modifies `image, disk`writeCount, disk.port
      ensures Ready() && Writes(old(image), DIRECTORY_LBA + i, DirectorySector(entries, i), ok, image)
      ensures Touched(old(image), image, {DIRECTORY_LBA + i})
      ensures old(Working()) ==> ok && Working()
    {
      ghost var want := DirectorySector(entries, i);
      var sector := DirectoryBuffer(bytes, i, count);
      assert sector[..] == want;
      ok := WriteBytes(DIRECTORY_LBA + i, sector, want);
    }

    /** diskfs_write_directory. */
    method WriteDirectory() returns (ok: bool)
      requires Ready()
      modifies `image, disk`writeCount, disk.port
      ensures Ready() && Touched(old(image), image, {DIRECTORY_LBA, DIRECTORY_LBA + 1})
      ensures Torn(old(image).sectors, sb, entries, 2, image.sectors)
      ensures ok ==> image.sectors == Flushed(old(image).sectors, sb, entries, 2) && |image.sectors| > DIRECTORY_LBA + 1
      ensures old(Working()) ==> ok && Working()
    {
      var bytes := TableBytes(entries);
      var remaining, i := TABLE_SIZE, 0;
      while i < 2
        invariant 0 <= i <= 2 && remaining == if i == 0 then TABLE_SIZE else if i == 1 then TABLE_SIZE - SECTOR else 0
        invariant Ready() && Touched(old(image), image, {DIRECTORY_LBA, DIRECTORY_LBA + 1})
        invariant old(Working()) ==> Working()
        invariant image.sectors == Flushed(old(image).sectors, sb, entries, i) &&
                  (i > 0 ==> |image.sectors| > DIRECTORY_LBA + i - 1)
      {
        var count := if remaining > SECTOR then SECTOR else remaining;
        ghost var before := image;
        ok := WriteDirectorySector(bytes, i, count);
        OneMoreFlushed(old(image).sectors, sb, entries, i, before, ok, image);
        if !ok {
          return;
        }
        remaining := remaining - count;
        i := i + 1;
      }
      return true;
    }

    /** diskfs_write_superblock. */
    method WriteSuperblock() returns (ok: bool)
      requires Ready()
      modifies `sb, `image, disk`writeCount, disk.port
      ensures Ready() && sb == Sealed(old(sb)) && Touched(old(image), image, {SUPERBLOCK_LBA})
      ensures Writes(old(image), SUPERBLOCK_LBA, SuperblockSector(sb), ok, image)
      ensures old(Working()) ==> ok && Working()
    {
      sb := sb.(checksum := Checksum(sb));
      var bytes := SuperblockSector(sb);
      var sector := new Byte[SECTOR](_ => 0);
      Copy(sector, 0, bytes, 0, SECTOR);
      assert sector[..] == bytes;
      ok := WriteBytes(SUPERBLOCK_LBA, sector, bytes);
    }

    /** The writes that diskfs_store_metadata and diskfs_format end with. */
    method WriteTables() returns (ok: bool)
      requires Ready()
      modifies `sb, `image, `mounted, disk`writeCount, disk.port
      ensures Ready() && Stores(old(Now()), old(sb), entries, ok, Now())
      ensures old(Working()) ==> ok && Working()
    {
      ghost var before := image;
      ok := WriteDirectory();
      ghost var between := image;
      MoreTouched(before, between, {DIRECTORY_LBA, DIRECTORY_LBA + 1}, METADATA);
      MoreTorn(before.sectors, sb, entries, between.sectors);
      if ok {
        ok := WriteSuperblock();
        TouchedTwice(before, between, image, METADATA, {SUPERBLOCK_LBA});
        assert METADATA + {SUPERBLOCK_LBA} == METADATA;
        AllFlushed(before.sectors, old(sb), entries, between, ok, image);
      }
      mounted := ok;
    }

    /** diskfs_store_metadata with a new generation. */
    method StoreMetadata() returns (ok: bool)
      requires Ready()
      modifies `sb, `image, `mounted, disk`writeCount, disk.port
      ensures Ready()
      ensures if old(mounted) then Stores(old(Now()), Bumped(old(sb)), entries, ok, Now())
              else !ok && Now() == old(Now())
      ensures old(Working()) ==> (ok <==> old(mounted)) && Working()
    {
      if !mounted {
        return false;
      }
      sb := Bumped(sb);
      ok := WriteTables();
    }

    /** One turn of the loop of diskfs_read_directory. */
    method ReadDirectorySector(bytes: array<Byte>, i: nat, count: nat) returns (ok: bool)
      requires Ready() && i < 2 && bytes.Length == TABLE_SIZE && count == if i == 0 then SECTOR else TABLE_SIZE - SECTOR
      modifies `entries, `image, disk`readCount, disk.port, bytes
      ensures Ready() && Reads(old(image), image)
      ensures ok ==> |image.sectors| > DIRECTORY_LBA + i && entries == ToTable(bytes[..])
      ensures ok && i == 0 ==> bytes[..SECTOR] == image.sectors[DIRECTORY_LBA]
      ensures ok && i == 1 ==> bytes[..SECTOR] == old(bytes[..SECTOR])
      ensures ok && i == 1 ==> bytes[SECTOR..] == image.sectors[DIRECTORY_LBA + 1][..TABLE_SIZE - SECTOR]
      ensures old(Working()) ==> ok && Working()
    {
      var sector := new Byte[SECTOR](_ => 0);
      ok := ReadSector(DIRECTORY_LBA + i, sector);
      if ok {
        Copy(bytes, i * SECTOR, sector[..], 0, count);
        entries := ToTable(bytes[..]);
      }
    }

    /** The loop of diskfs_read_directory. */
    method FetchDirectory() returns (read: bool)
      requires Ready()
      modifies `entries, `image, disk`readCount, disk.port
      ensures Ready() && Reads(old(image), image)
      ensures read ==> |image.sectors| > DIRECTORY_LBA + 1
      ensures read ==> entries == FromSectors(image.sectors[DIRECTORY_LBA], image.sectors[DIRECTORY_LBA + 1])
      ensures old(Working()) ==> read && Working()
    {
      var bytes := new Byte[TABLE_SIZE](_ => 0);
      var remaining, i := TABLE_SIZE, 0;
      read := true;
      while i < 2
        invariant 0 <= i <= 2 && remaining == if i == 0 then TABLE_SIZE else if i == 1 then TABLE_SIZE - SECTOR else 0
        invariant read && Ready() && Reads(old(image), image) && (old(Working()) ==> Working())
        invariant i > 0 ==> entries == ToTable(bytes[..]) && |image.sectors| > DIRECTORY_LBA + i - 1
        invariant i > 0 ==> bytes[..SECTOR] == image.sectors[DIRECTORY_LBA]
        invariant i > 1 ==> bytes[SECTOR..] == image.sectors[DIRECTORY_LBA + 1][..TABLE_SIZE - SECTOR]
      {
        var count := if remaining > SECTOR then SECTOR else remaining;
        read := ReadDirectorySector(bytes, i, count);
        if !read {
          return;
        }
        remaining := remaining - count;
        i := i + 1;
      }
      assert bytes[..] == bytes[..SECTOR] + bytes[SECTOR..];
    }

    /** diskfs_read_directory. */
    method ReadDirectory() returns (ok: bool, ghost read: bool)
      requires Ready()
      modifies `entries, `image, disk`readCount, disk.port
      ensures Ready() && Reads(old(image), image) && (ok ==> read)
      ensures read ==> |image.sectors| > DIRECTORY_LBA + 1 && (ok <==> TableOk(entries))
      ensures read ==> entries == FromSectors(image.sectors[DIRECTORY_LBA], image.sectors[DIRECTORY_LBA + 1])
      ensures old(Working()) ==> read && Working()
    {
      var fetched := FetchDirectory();
      read := fetched;
      ok := false;
      if fetched {
        ok := EntriesValid(entries);
      }
    }

    /** diskfs_has_open_files. */
    method HasOpenFiles() returns (open: bool)
      requires |refs| == SLOTS
      ensures open <==> !NoneOpen(refs)
    {
      var i := 0;
      while i < SLOTS
        invariant 0 <= i <= SLOTS && forall k :: 0 <= k < i ==> refs[k] == 0
      {
        if refs[i] != 0 {
          return true;
        }
        i := i + 1;
      }
      return false;
    }

    /** The superblock, if diskfs_mount accepts it. */
    method ReadSuperblock(ghost st: State) returns (r: Option<Superblock>, ghost read: bool)
      requires Ready() && Now() == st.(mounted := false)
      modifies `image, disk`readCount, disk.port
      ensures Ready() && Reads(old(image), image) && (r.Some? ==> read)
      ensures r.Some? ==> |image.sectors| > SUPERBLOCK_LBA && r.value == ToSuperblock(image.sectors[SUPERBLOCK_LBA])
      ensures r.Some? ==> SuperblockOk(r.value, disk.sectorCount)
      ensures r.None? ==> Decides(st, read, false, Now())
      ensures old(Working()) ==> read && Working()
    {
      var sector := new Byte[SECTOR](_ => 0);
      var ok := ReadSector(SUPERBLOCK_LBA, sector);
      if !ok {
        return None, false;
      }
      var superblock := ToSuperblock(sector[..]);
      if !SuperblockOk(superblock, disk.sectorCount) {
        BadSuperblock(image.sectors, disk.sectorCount);
        return None, true;
      }
      return Some(superblock), true;
    }

    /** diskfs_mount. */
    method Mount() returns (ok: bool, ghost read: bool)
      requires Ready()
      modifies `sb, `entries, `mounted, `image, disk`readCount, disk.port
      ensures Ready() && Mounts(old(Now()), read, ok, Now())
      ensures old(Working()) ==> (read <==> NoneOpen(refs)) && Working()
    {
      var open := HasOpenFiles();
      if !disk.available || open {
        return false, false;
      }
      ok, read := TryMount();
    }

    /** diskfs_mount, once the drive may be read. */
    method TryMount() returns (ok: bool, ghost read: bool)
      requires Ready()
      modifies `sb, `entries, `mounted, `image, disk`readCount, disk.port
      ensures Ready() && Decides(old(Now()), read, ok, Now())
      ensures old(Working()) ==> read && Working()
    {
      mounted := false;
      var superblock;
      superblock, read := ReadSuperblock(old(Now()));
      if superblock.None? {
        return false, read;
      }
      ok, read := MountTable(superblock.value, old(Now()));
    }

    /** diskfs_mount, once the superblock is accepted. */
    method MountTable(superblock: Superblock, ghost st: State) returns (ok: bool, ghost read: bool)
      requires Ready() && |image.sectors| > SUPERBLOCK_LBA && superblock == ToSuperblock(image.sectors[SUPERBLOCK_LBA])
      requires SuperblockOk(superblock, disk.sectorCount)
      requires Now() == st.(disk := image, mounted := false) && Reads(st.disk, image)
      modifies `sb, `entries, `mounted, `image, disk`readCount, disk.port
      ensures Ready() && Decides(st, read, ok, Now())
      ensures old(Working()) ==> read && Working()
    {
      sb := superblock;
      ghost var st1 := Now();
      ok, read := ReadDirectory();
      mounted := ok;
      TablesDecide(st1, read, ok, Now());
      ReadThenDecides(st, old(Now()), superblock, read, ok, Now());
    }

    /** diskfs_install. */
    method Install() returns (ok: bool, ghost read: bool)
      requires Ready()
      modifies `sb, `entries, `refs, `mounted, `image, disk`readCount, disk.port
      ensures Ready() && Installs(old(Now()), read, ok, Now())
      ensures old(Working()) ==> read && Working()
    {
      mounted, sb := false, Superblock(0, 0, 0, 0, 0, 0, 0, 0, 0, 0, Zeros(RESERVED_SIZE));
      entries, refs := EmptyTable(), seq(SLOTS, _ => 0);
      ok, read := Mount();
    }

    /** diskfs_format. */
    method Format() returns (ok: bool)
      requires Ready()
      modifies `sb, `entries, `mounted, `image, disk`writeCount, disk.port
      ensures Ready() && Formats(old(Now()), ok, Now())
      ensures old(Working()) ==> (ok <==> NoneOpen(refs)) && Working()
    {
      var open := HasOpenFiles();
      if !disk.available || open || disk.sectorCount < REQUIRED {
        return false;
      }
      sb, entries := FreshSuperblock(disk.sectorCount as Long), EmptyTable();
      mounted := true;
      ok := WriteTables();
    }

    // -------------------------------------------------------------- entries

    /** The refusals of diskfs_create_entry. */
    method Refused(parent: Byte, name: seq<Byte>, kind: Byte) returns (refused: bool)
      requires |name| >= NAME_SIZE || 0 in name
      ensures refused <==> !MayCreate(Now(), parent, name, kind)
    {
      var named := NameValid(name);
      var child := FindChild(entries, parent, name);
      refused := !mounted || !named || (kind != FILE && kind != DIRECTORY) || child.Some? ||
        (parent != ROOT && (parent as nat >= SLOTS || entries[parent].used == 0 || entries[parent].kind != DIRECTORY));
    }

    /** An entry is changed and the tables are written. */
    method SetEntry(i: nat, e: Entry) returns (ok: bool)
      requires Ready() && mounted && i < SLOTS && |e.name| == NAME_SIZE
      modifies `sb, `entries, `mounted, `image, disk`writeCount, disk.port
      ensures Ready() && Stores(old(Now()), Bumped(old(sb)), old(entries)[i := e], ok, Now())
      ensures old(Working()) ==> ok && Working()
    {
      entries := entries[i := e];
      ok := StoreMetadata();
    }

    /** The search of diskfs_create_entry. */
    method FindFree() returns (i: nat)
      ensures i == FirstFree(entries, 0)
    {
      i := 0;
      while i < SLOTS
        invariant 0 <= i <= SLOTS && FirstFree(entries, 0) == FirstFree(entries, i)
      {
        if entries[i].used == 0 {
          return;
        }
        i := i + 1;
      }
    }

    /** diskfs_create_entry; the slot if it succeeds. */
    method CreateEntry(parent: Byte, name: seq<Byte>, kind: Byte) returns (r: Option<nat>)
      requires Ready() && (|name| >= NAME_SIZE || 0 in name)
      modifies `sb, `entries, `mounted, `image, disk`writeCount, disk.port
      ensures Ready() && Creates(old(Now()), parent, name, kind, r.Some?, Now())
      ensures r.Some? ==> r.value == FirstFree(old(entries), 0)
      ensures old(Working()) ==>
        Working() && (r.Some? <==> MayCreate(old(Now()), parent, name, kind) && FirstFree(old(entries), 0) < SLOTS)
    {
      var refused := Refused(parent, name, kind);
      if refused {
        return None;
      }
      var i := FindFree();
      if i == SLOTS {
        return None;
      }
      var ok := SetEntry(i, NewEntry(parent, name, kind));
      return if ok then Some(i) else None;
    }

    /** diskfs_remove_entry. */
    method RemoveEntry(index: nat, kind: Byte) returns (ok: bool)
      requires Ready()
      modifies `sb, `entries, `mounted, `image, disk`writeCount, disk.port
      ensures Ready() && Removes(old(Now()), index, kind, ok, Now())
      ensures old(Working()) ==> (ok <==> MayRemove(old(Now()), index, kind)) && Working()
    {
      var parent := HasChildren(entries, index);
      if !mounted || index >= SLOTS || entries[index].used == 0 || entries[index].kind != kind || refs[index] != 0 ||
         (kind == DIRECTORY && parent) {
        return false;
      }
      ok := SetEntry(index, UNUSED);
    }

    /** diskfs_vfs_open. */
    method Open(i: nat)
      requires Ready()
      modifies `refs
      ensures Ready() && Next(old(Now()), DiskSteps.Open(i), true, Now())
    {
      if i < SLOTS {
        refs := refs[i := refs[i] + 1];
      }
    }

    /** diskfs_vfs_close. */
    method Close(i: nat)
      requires Ready()
      modifies `refs
      ensures Ready() && Next(old(Now()), DiskSteps.Close(i), true, Now())
    {
      if i < SLOTS && refs[i] != 0 {
        refs := refs[i := refs[i] - 1];
      }
    }

    // -------------------------------------------------------------- file data

    /** The transfer in the loop of diskfs_read_slot. */
    method ReadPart(index: nat, ghost file: seq<Byte>, position: nat, count: nat) returns (ok: bool, part: seq<Byte>)
      requires Ready() && position + count <= |file| && position % SECTOR + count <= SECTOR
      requires file == Content(image.sectors, index, |file|)
      modifies `image, disk`readCount, disk.port
      ensures Ready() && Reads(old(image), image)
      ensures |part| == count && (ok ==> part == file[position..position + count])
      ensures old(Working()) && index < SLOTS && |file| <= MAX_SIZE && count > 0 ==> ok && Working()
    {
      var sector := new Byte[SECTOR](_ => 0);
      ok := ReadSector(SlotLba(index) + position / SECTOR, sector);
      part := sector[position % SECTOR..position % SECTOR + count];
      if ok {
        SectorIsContent(image.sectors, index, file, position, count);
        assert part == sector[..][position % SECTOR..position % SECTOR + count];
      }
    }

    /** One turn of the loop of diskfs_read_slot. */
    method ReadMore(index: nat, ghost file: seq<Byte>, offset: nat, size: nat, buffer: seq<Byte>)
      returns (ok: bool, longer: seq<Byte>)
      requires Ready() && offset + size <= |file| && file == Content(image.sectors, index, |file|)
      requires |buffer| < size && buffer == file[offset..offset + |buffer|]
      modifies `image, disk`readCount, disk.port
      ensures Ready() && Reads(old(image), image)
      ensures ok ==> |buffer| < |longer| <= size && longer == file[offset..offset + |longer|]
      ensures old(Working()) && index < SLOTS && |file| <= MAX_SIZE ==> ok && Working()
    {
      var position := offset + |buffer|;
      var count := Chunk(position, size - |buffer|);
      var part;
      ok, part := ReadPart(index, file, position, count);
      longer := buffer + part;
      if ok {
        Joined(file, offset, buffer, part);
      }
    }

    /** The loop of diskfs_read_slot. */
    method Gather(index: nat, ghost file: seq<Byte>, offset: nat, size: nat) returns (ok: bool, buffer: seq<Byte>)
      requires Ready() && offset + size <= |file| && file == Content(image.sectors, index, |file|)
      modifies `image, disk`readCount, disk.port
      ensures Ready() && Reads(old(image), image)
      ensures ok ==> buffer == file[offset..offset + size]
      ensures old(Working()) && index < SLOTS && |file| <= MAX_SIZE ==> ok && Working()
    {
      buffer := [];
      while |buffer| < size
        invariant Ready() && Reads(old(image), image) && |buffer| <= size
        invariant buffer == file[offset..offset + |buffer|]
        invariant old(Working()) && index < SLOTS && |file| <= MAX_SIZE ==> Working()
        decreases size - |buffer|
      {
        ok, buffer := ReadMore(index, file, offset, size, buffer);
        if !ok {
          return;
        }
      }
      ok := true;
    }

    /** diskfs_read_slot: the bytes of the file from `offset` on, unless a transfer fails. */
    method ReadSlot(index: nat, offset: nat, size: nat) returns (r: Option<seq<Byte>>, ghost read: bool)
      requires Ready()
      modifies `image, disk`readCount, disk.port
      ensures Ready() && Reads(old(image), image)
      ensures read ==> (r.Some? <==> IsUsed(entries, index) && entries[index].kind == FILE)
      ensures r.Some? ==> index < SLOTS && r.value == Part(Content(old(image).sectors, index,
              entries[index].length as nat), offset, size)
      ensures old(Working()) && (IsUsed(entries, index) ==> entries[index].length as nat <= MAX_SIZE) ==>
              read && Working()
    {
      if index >= SLOTS || entries[index].used == 0 || entries[index].kind != FILE {
        return None, true;
      }
      var length := entries[index].length as nat;
      if offset >= length {
        return Some([]), true;
      }
      var want := if size > length - offset then length - offset else size;
      var ok, buffer := Gather(index, Content(image.sectors, index, length), offset, want);
      return if ok then Some(buffer) else None, ok;
    }

    /** A sector of the file as diskfs_write_slot builds it. */
    method FillSector(sector: array<Byte>, start: nat, length: nat, offset: nat, data: seq<Byte>)
      requires sector.Length == SECTOR
      modifies sector
      ensures forall k :: 0 <= k < SECTOR ==> sector[k] == Patched(old(sector[k]), start + k, length, offset, data)
    {
      var end := start + SECTOR;
      var zeroStart := if length > start then length else start;
      var zeroEnd := if offset < end then offset else end;
      var copyStart := if offset > start then offset else start;
      var copyEnd := if offset + |data| < end then offset + |data| else end;
      if zeroEnd > zeroStart {
        Copy(sector, zeroStart - start, Zeros(zeroEnd - zeroStart), 0, zeroEnd - zeroStart);
      }
      if copyEnd > copyStart {
        Copy(sector, copyStart - start, data, copyStart - offset, copyEnd - copyStart);
      }
    }

    /** The sector that a turn of the loop of diskfs_write_slot will write. */
    method PrepareSector(lba: nat, start: nat, length: nat, offset: nat, data: seq<Byte>)
      returns (ok: bool, sector: array<Byte>, ghost base: seq<Byte>)
      requires Ready()
      modifies `image, disk`readCount, disk.port
      ensures Ready() && Reads(old(image), image) && fresh(sector) && sector.Length == |base| == SECTOR
      ensures ok && start < length ==> lba < |image.sectors| && base == image.sectors[lba]
      ensures start >= length ==> base == Zeros(SECTOR)
      ensures forall k :: 0 <= k < SECTOR ==> sector[k] == Patched(base[k], start + k, length, offset, data)
      ensures old(Working()) && lba < REQUIRED ==> ok && Working()
    {
      ok := true;
      sector := new Byte[SECTOR](_ => 0);
      if start < length {
        ok := ReadSector(lba, sector);
      }
      base := sector[..];
      FillSector(sector, start, length, offset, data);
    }

    /** The transfer of a sector that has been prepared. */
    method PutSector(index: nat, current: nat, length: nat, offset: nat, data: seq<Byte>, sector: array<Byte>,
                     ghost base: seq<Byte>)
      returns (ok: bool)
      requires Ready() && current < FILE_SECTORS && sector.Length == |base| == SECTOR
      requires current * SECTOR < length ==>
               SlotLba(index) + current < |image.sectors| && base == image.sectors[SlotLba(index) + current]
      requires current * SECTOR >= length ==> base == Zeros(SECTOR)
      requires forall k :: 0 <= k < SECTOR ==>
               sector[k] == Patched(base[k], current * SECTOR + k, length, offset, data)
      modifies `image, disk`writeCount, disk.port
      ensures Ready() && Touched(old(image), image, {SlotLba(index) + current})
      ensures ok ==> SectorDone(old(image), index, current, length, offset, data, image)
      ensures OneDirty(old(image), index, current, length, offset, data, image)
      ensures old(Working()) && index < SLOTS ==> ok && Working()
    {
      ghost var bytes := sector[..];
      ok := WriteBytes(SlotLba(index) + current, sector, bytes);
      if image.sectors != old(image).sectors || ok {
        FilledIsDone(old(image), index, current, length, offset, data, base, bytes, image);
      }
    }

    /** One turn of the loop of diskfs_write_slot. */
    method WriteOne(index: nat, current: nat, length: nat, offset: nat, data: seq<Byte>) returns (ok: bool)
      requires Ready() && current < FILE_SECTORS
      modifies `image, disk`readCount, disk`writeCount, disk.port
      ensures Ready() && Touched(old(image), image, {SlotLba(index) + current})
      ensures ok ==> SectorDone(old(image), index, current, length, offset, data, image)
      ensures OneDirty(old(image), index, current, length, offset, data, image)
      ensures old(Working()) && index < SLOTS ==> ok && Working()
    {
      var sector;
      ghost var base;
      ok, sector, base := PrepareSector(SlotLba(index) + current, current * SECTOR, length, offset, data);
      ghost var between := image;
      if !ok {
        ReadTouchesNone(old(image), image, SlotLba(index) + current);
        return;
      }
      ok := PutSector(index, current, length, offset, data, sector, base);
      ReadThenDirty(old(image), between, image, index, current, length, offset, data, ok);
    }

    /** The loop of diskfs_write_slot. */
    method WriteData(index: nat, length: nat, offset: nat, data: seq<Byte>) returns (ok: bool)
      requires Ready() && data != [] && offset + |data| <= MAX_SIZE
      modifies `image, disk`readCount, disk`writeCount, disk.port
      ensures Ready() && Touched(old(image), image, SlotSectors(index)) &&
              AllDirty(old(image), index, length, offset, data, image)
      ensures ok ==> Spliced(old(image), index, length, offset, data, image)
      ensures old(Working()) && index < SLOTS ==> ok && Working()
    {
      var first, last := FirstSector(length, offset), LastSector(offset, |data|);
      var current := first;
      while current <= last
        invariant first <= current && (current <= last + 1 || current == first) && Ready() &&
                  Touched(old(image), image, SlotSectors(index))
        invariant DoneUpTo(old(image), index, first, current, length, offset, data, image)
        invariant AllDirty(old(image), index, length, offset, data, image)
        invariant old(Working()) && index < SLOTS ==> Working()
      {
        ghost var before := image;
        ok := WriteOne(index, current, length, offset, data);
        StillInSlot(old(image), before, image, index, current);
        StillDirty(old(image), index, first, current, length, offset, data, before, image);
        if !ok {
          return;
        }
        OneMoreDone(old(image), index, first, current, length, offset, data, before, image);
        current := current + 1;
      }
      DoneIsSpliced(old(image), index, first, last, length, offset, data, image);
      return true;
    }

    /** diskfs_write_slot. */
    method WriteSlot(index: nat, offset: nat, data: seq<Byte>) returns (ok: bool)
      requires Ready()
      modifies `sb, `entries, `mounted, `image, disk`readCount, disk`writeCount, disk.port
      ensures Ready() && Alters(old(Now()), index, offset, data, ok, Now())
      ensures old(Working()) ==>
        Working() && (ok <==> MayWrite(old(entries), index, offset, |data|) && (data == [] || old(mounted)))
    {
      if index >= SLOTS || entries[index].used == 0 || entries[index].kind != FILE || offset > MAX_SIZE ||
        |data| > MAX_SIZE - offset {
        return false;
      }
      if data == [] {
        return true;
      }
      var length := entries[index].length as nat;
      ok := WriteData(index, length, offset, data);
      ghost var written := image;
      if !ok {
        MoreTouched(old(image), image, SlotSectors(index), SlotSectors(index) + METADATA);
        return;
      }
      entries := Resized(entries, index, Grown(length, offset, |data|));
      ok := StoreMetadata();
      MetadataFollows(old(Now()), index, offset, data, written, ok, Now());
    }
  }

  /** The superblock has been accepted, and the table decides. */
  lemma TablesDecide(st: State, read: bool, ok: bool, st': State)
    requires Reads(st.disk, st'.disk) && Whole(st.disk.sectors)
    requires st' == st.(disk := st'.disk, entries := st'.entries, mounted := ok)
    requires |st.disk.sectors| > SUPERBLOCK_LBA && st.sb == ToSuperblock(st.disk.sectors[SUPERBLOCK_LBA])
    requires SuperblockOk(st.sb, st.count) && (ok ==> read)
    requires read ==> |st.disk.sectors| > DIRECTORY_LBA + 1 && (ok <==> TableOk(st'.entries))
    requires read ==>
             st'.entries == FromSectors(st.disk.sectors[DIRECTORY_LBA], st.disk.sectors[DIRECTORY_LBA + 1])
    ensures Decides(st, read, ok, st')
  {
    if read {
      TableDecides(st.disk.sectors, st.count, st'.sb, st'.entries);
    }
  }

  lemma ReadThenDecides(st: State, st1: State, sb: Superblock, read: bool, ok: bool, st': State)
    requires st1 == st.(disk := st1.disk, mounted := false) && Reads(st.disk, st1.disk)
    requires Decides(st1.(sb := sb), read, ok, st')
    ensures Decides(st, read, ok, st')
  {
  }

  function FirstSector(length: nat, offset: nat): nat
  {
    (if length < offset then length else offset) / SECTOR
  }

  function LastSector(offset: nat, size: nat): (last: nat)
    requires size > 0
    ensures offset + size <= MAX_SIZE ==> last < FILE_SECTORS
  {
    (offset + size - 1) / SECTOR
  }

  lemma StillInSlot(d: Disk, d1: Disk, d2: Disk, index: nat, current: nat)
    requires Touched(d, d1, SlotSectors(index)) && Touched(d1, d2, {SlotLba(index) + current}) && current < FILE_SECTORS
    ensures Touched(d, d2, SlotSectors(index))
  {
    TouchedTwice(d, d1, d2, SlotSectors(index), {SlotLba(index) + current});
    assert SlotSectors(index) + {SlotLba(index) + current} == SlotSectors(index);
  }

  /** A write of the next of the metadata sectors. */
  lemma OneMoreFlushed(img: seq<seq<Byte>>, sb: Superblock, t: Table, i: nat, d: Disk, ok: bool, d': Disk)
    requires |sb.reserved| == RESERVED_SIZE && i < 2 && d.sectors == Flushed(img, sb, t, i)
    requires Writes(d, DIRECTORY_LBA + i, DirectorySector(t, i), ok, d')
    ensures Torn(img, sb, t, 2, d'.sectors)
    ensures ok ==> d'.sectors == Flushed(img, sb, t, i + 1) && |d'.sectors| > DIRECTORY_LBA + i
  {
    assert d'.sectors == Flushed(img, sb, t, i) || d'.sectors == Flushed(img, sb, t, i + 1);
  }

  lemma MoreTorn(img: seq<seq<Byte>>, sb: Superblock, t: Table, img': seq<seq<Byte>>)
    requires |sb.reserved| == RESERVED_SIZE && Torn(img, sb, t, 2, img')
    ensures Torn(img, sb, t, 3, img')
  {
  }

  lemma AllFlushed(img: seq<seq<Byte>>, sb: Superblock, t: Table, d: Disk, ok: bool, d': Disk)
    requires |sb.reserved| == RESERVED_SIZE && d.sectors == Flushed(img, sb, t, 2) && |img| > DIRECTORY_LBA + 1
    requires Writes(d, SUPERBLOCK_LBA, SuperblockSector(Sealed(sb)), ok, d')
    ensures Torn(img, sb, t, 3, d'.sectors)
    ensures ok ==> Stored(d'.sectors, Sealed(sb), t) && d'.stable == d'.sectors
  {
    assert d'.sectors == Flushed(img, sb, t, 2) || d'.sectors == Flushed(img, sb, t, 3);
    if ok {
      WrittenIsStored(d'.sectors, Sealed(sb), t);
    }
  }

  /** The tables are written after the data. */
  lemma MetadataFollows(st: State, index: nat, offset: nat, data: seq<Byte>, d: Disk, ok: bool, st': State)
    requires MayWrite(st.entries, index, offset, |data|) && data != [] && Touched(st.disk, d, SlotSectors(index))
    requires Spliced(st.disk, index, st.entries[index].length as nat, offset, data, d)
    requires
      var t := Resized(st.entries, index, Grown(st.entries[index].length as nat, offset, |data|));
      if st.mounted then Stores(st.(disk := d), Bumped(st.sb), t, ok, st')
        else !ok && st' == st.(disk := d, entries := t)
    ensures Alters(st, index, offset, data, ok, st')
  {
    if st.mounted {
      TouchedTwice(st.disk, d, st'.disk, SlotSectors(index), METADATA);
      DataFrame(d, st'.disk, index, Grown(st.entries[index].length as nat, offset, |data|));
    } else {
      MoreTouched(st.disk, d, SlotSectors(index), SlotSectors(index) + METADATA);
    }
  }

  /** Writing the tables changes no file. */
  lemma DataFrame(d: Disk, d': Disk, index: nat, length: nat)
    requires Touched(d, d', METADATA)
    ensures Content(d'.sectors, index, length) == Content(d.sectors, index, length)
  {
    forall x: nat | x < length
      ensures ByteAt(d'.sectors, index, x) == ByteAt(d.sectors, index, x)
    {
      assert SlotLba(index) + x / SECTOR !in METADATA;
    }
  }

  lemma ReadTouchesNone(d: Disk, d1: Disk, lba: nat)
    requires Reads(d, d1) && Whole(d.sectors) && Whole(d.stable) && |d.stable| == |d.sectors|
    ensures Touched(d, d1, {lba})
  {
  }

  /** A read before the transfer makes no difference. */
  lemma ReadThenDirty(d: Disk, d1: Disk, d2: Disk, index: nat, current: nat, length: nat, offset: nat, data: seq<Byte>,
                      ok: bool)
    requires Reads(d, d1) && |d.stable| == |d.sectors| && Touched(d1, d2, {SlotLba(index) + current})
    requires OneDirty(d1, index, current, length, offset, data, d2)
    requires ok ==> SectorDone(d1, index, current, length, offset, data, d2)
    ensures Touched(d, d2, {SlotLba(index) + current}) && OneDirty(d, index, current, length, offset, data, d2)
    ensures ok ==> SectorDone(d, index, current, length, offset, data, d2)
  {
    assert SectorDone(d1, index, current, length, offset, data, d2) ==
           SectorDone(d, index, current, length, offset, data, d2);
  }

  lemma FilledIsDone(d: Disk, index: nat, current: nat, length: nat, offset: nat, data: seq<Byte>, base: seq<Byte>,
                     bytes: seq<Byte>, d': Disk)
    requires |base| == |bytes| == SECTOR && Whole(d.sectors) && SlotLba(index) + current < |d.sectors|
    requires base == if current * SECTOR < length then d.sectors[SlotLba(index) + current] else Zeros(SECTOR)
    requires forall k :: 0 <= k < SECTOR ==> bytes[k] == Patched(base[k], current * SECTOR + k, length, offset, data)
    requires d'.sectors == d.sectors[SlotLba(index) + current := bytes]
    ensures SectorDone(d, index, current, length, offset, data, d')
  {
  }

  /** This sector of the file is as before. */
  ghost predicate SectorKept(d: Disk, index: nat, c: nat, d': Disk)
  {
    var lba := SlotLba(index) + c;
    |d'.sectors| == |d.sectors| && (lba < |d.sectors| ==> d'.sectors[lba] == d.sectors[lba])
  }

  /** The sectors from `first` to before `current` are done, the others as before. */
  ghost predicate DoneUpTo(d: Disk, index: nat, first: nat, current: nat, length: nat, offset: nat, data: seq<Byte>,
                           d': Disk)
  {
    && (forall c: nat :: first <= c < current ==> SectorDone(d, index, c, length, offset, data, d'))
    && (forall c: nat :: c < first || current <= c ==> SectorKept(d, index, c, d'))
  }

  /** The sector is as it was or done, and a power cut leaves an old state or this one. */
  ghost predicate OneDirty(d: Disk, index: nat, current: nat, length: nat, offset: nat, data: seq<Byte>, d': Disk)
  {
    && (d'.sectors == d.sectors || SectorDone(d, index, current, length, offset, data, d'))
    && (d'.stable == d.stable || d'.stable == d.sectors || d'.stable == d'.sectors)
  }

  ghost predicate AllDirty(d: Disk, index: nat, length: nat, offset: nat, data: seq<Byte>, d': Disk)
  {
    && Dirty(d.sectors, index, length, offset, data, d'.sectors)
    && (d'.stable == d.stable || Dirty(d.sectors, index, length, offset, data, d'.stable))
  }

  lemma StillDirty(d: Disk, index: nat, first: nat, current: nat, length: nat, offset: nat, data: seq<Byte>, d1: Disk,
                   d2: Disk)
    requires first <= current < FILE_SECTORS && DoneUpTo(d, index, first, current, length, offset, data, d1) &&
             AllDirty(d, index, length, offset, data, d1)
    requires Touched(d1, d2, {SlotLba(index) + current}) && OneDirty(d1, index, current, length, offset, data, d2)
    ensures AllDirty(d, index, length, offset, data, d2)
  {
    assert SectorKept(d, index, current, d1);
    assert SlotLba(index) + current in SlotSectors(index);
    if d2.sectors != d1.sectors {
      forall x: nat | x < length
        ensures ByteAt(d2.sectors, index, x) == ByteAt(d.sectors, index, x) ||
                (offset <= x < offset + |data| && ByteAt(d2.sectors, index, x) == data[x - offset])
      {
        DirtyByte(d, index, current, length, offset, data, d1, d2, x);
      }
    }
  }

  lemma DirtyByte(d: Disk, index: nat, current: nat, length: nat, offset: nat, data: seq<Byte>, d1: Disk, d2: Disk,
                  x: nat)
    requires x < length && SectorKept(d, index, current, d1) &&
             Dirty(d.sectors, index, length, offset, data, d1.sectors)
    requires Touched(d1, d2, {SlotLba(index) + current}) && SectorDone(d1, index, current, length, offset, data, d2)
    ensures ByteAt(d2.sectors, index, x) == ByteAt(d.sectors, index, x) ||
            (offset <= x < offset + |data| && ByteAt(d2.sectors, index, x) == data[x - offset])
  {
    if x / SECTOR == current {
      assert x == current * SECTOR + x % SECTOR;
    } else {
      assert ByteAt(d2.sectors, index, x) == ByteAt(d1.sectors, index, x);
    }
  }

  lemma OneMoreDone(d: Disk, index: nat, first: nat, current: nat, length: nat, offset: nat, data: seq<Byte>, d1: Disk,
                    d2: Disk)
    requires first <= current && DoneUpTo(d, index, first, current, length, offset, data, d1)
    requires Touched(d1, d2, {SlotLba(index) + current}) && SectorDone(d1, index, current, length, offset, data, d2)
    ensures DoneUpTo(d, index, first, current + 1, length, offset, data, d2)
  {
    assert SectorKept(d, index, current, d1);
    forall c: nat | first <= c < current
      ensures SectorDone(d, index, c, length, offset, data, d2)
    {
      assert SectorDone(d, index, c, length, offset, data, d1);
    }
    forall c: nat | c < first || current + 1 <= c
      ensures SectorKept(d, index, c, d2)
    {
      assert SectorKept(d, index, c, d1);
    }
  }

  /** The byte at x once every sector from the end of the file or the data on is done. */
  lemma ByteDone(d: Disk, index: nat, first: nat, last: nat, length: nat, offset: nat, data: seq<Byte>, d': Disk,
                 x: nat)
    requires data != [] && DoneUpTo(d, index, first, last + 1, length, offset, data, d')
    requires first == FirstSector(length, offset) && last == LastSector(offset, |data|)
    requires x < Grown(length, offset, |data|)
    ensures ByteAt(d'.sectors, index, x) ==
      if offset <= x < offset + |data| then data[x - offset] else if x < length then ByteAt(d.sectors, index, x) else 0
  {
    var c := x / SECTOR;
    if first <= c <= last {
      assert SectorDone(d, index, c, length, offset, data, d');
      assert x == c * SECTOR + x % SECTOR;
    } else {
      assert SectorKept(d, index, c, d');
      assert c < first ==> x < length && x < offset;
      assert c > last ==> x >= offset + |data|;
    }
  }

  lemma DoneIsSpliced(d: Disk, index: nat, first: nat, last: nat, length: nat, offset: nat, data: seq<Byte>, d': Disk)
    requires data != [] && DoneUpTo(d, index, first, last + 1, length, offset, data, d')
    requires first == FirstSector(length, offset) && last == LastSector(offset, |data|)
    ensures Spliced(d, index, length, offset, data, d')
  {
    var file := Content(d.sectors, index, length);
    var now := Content(d'.sectors, index, Grown(length, offset, |data|));
    var want := Splice(file, offset, data);
    forall x: nat | x < |now|
      ensures now[x] == want[x]
    {
      ByteDone(d, index, first, last, length, offset, data, d', x);
      SpliceAt(file, offset, data, x);
    }
  }

  /** How much of the next `left` bytes is in the sector of `position`. */
  function Chunk(position: nat, left: nat): (count: nat)
    requires left > 0
    ensures 0 < count <= left && position % SECTOR + count <= SECTOR
  {
    if SECTOR - position % SECTOR > left then left else SECTOR - position % SECTOR
  }

  /** At most `size` bytes from `offset` on. */
  function Part(file: seq<Byte>, offset: nat, size: nat): seq<Byte>
  {
    if offset >= |file| then [] else if size > |file| - offset then file[offset..] else file[offset..offset + size]
  }

  /** Within one sector the file's bytes lie side by side. */
  lemma SectorIsContent(img: seq<seq<Byte>>, index: nat, file: seq<Byte>, position: nat, count: nat)
    requires file == Content(img, index, |file|) && position + count <= |file| && position % SECTOR + count <= SECTOR
    requires Whole(img) && SlotLba(index) + position / SECTOR < |img|
    ensures img[SlotLba(index) + position / SECTOR][position % SECTOR..position % SECTOR + count] ==
            file[position..position + count]
  {
    var a := img[SlotLba(index) + position / SECTOR][position % SECTOR..position % SECTOR + count];
    var b := file[position..position + count];
    forall k | 0 <= k < count
      ensures a[k] == b[k]
    {
      SameSector(position, k);
      assert file[position + k] == ByteAt(img, index, position + k);
    }
  }

  lemma SameSector(position: nat, k: nat)
    requires position % SECTOR + k < SECTOR
    ensures (position + k) / SECTOR == position / SECTOR && (position + k) % SECTOR == position % SECTOR + k
  {
  }

  lemma Joined(file: seq<Byte>, offset: nat, a: seq<Byte>, b: seq<Byte>)
    requires offset + |a| + |b| <= |file|
    requires a == file[offset..offset + |a|] && b == file[offset + |a|..offset + |a| + |b|]
    ensures a + b == file[offset..offset + |a + b|]
  {
  }

  /** The byte at position x of the file once the gap is cleared and the data is in. */
  function Patched(was: Byte, x: nat, length: nat, offset: nat, data: seq<Byte>): Byte
  {
    if offset <= x < offset + |data| then data[x - offset] else if length <= x < offset then 0 else was
  }

  ghost predicate SectorDone(d: Disk, index: nat, current: nat, length: nat, offset: nat, data: seq<Byte>, d': Disk)
  {
    var lba := SlotLba(index) + current;
    && lba < |d.sectors| == |d'.sectors| && |d.sectors[lba]| == |d'.sectors[lba]| == SECTOR
    && forall k :: 0 <= k < SECTOR ==>
      d'.sectors[lba][k] ==
      Patched(if current * SECTOR < length then d.sectors[lba][k] else 0, current * SECTOR + k, length, offset, data)
  }
}
