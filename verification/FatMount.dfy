/** fat16_install: which images are accepted, why the layout they describe lies inside the image, and
    what becomes of the frames that the writable copies of images are kept in. */
module FatMount {
  import opened Common
  import opened FatChains
  import opened FatImage
  import opened Pmm

  const SECTOR := 512

  /** The fields of the BIOS parameter block the driver reads. */
  datatype Bpb = Bpb(bytesPerSector: nat, sectorsPerCluster: nat, reserved: nat, fats: nat, rootEntries: nat,
                     sectorsPerFat: nat)
  {
    function TableSectors(): nat
    {
      fats * sectorsPerFat
    }

    function RootLba(): nat
    {
      reserved + TableSectors()
    }

    function DataLba(): nat
    {
      RootLba() + (rootEntries * 32 + SECTOR - 1) / SECTOR
    }

    /** The number of clusters both the table and the image have room for, plus 2. */
    function MaxCluster(size: nat): (n: nat)
      requires sectorsPerCluster > 0 && DataLba() * SECTOR <= size
      ensures n <= sectorsPerFat * 256
    {
      var dataClusters := 2 + (size - DataLba() * SECTOR) / (sectorsPerCluster * SECTOR);
      if sectorsPerFat * 256 < dataClusters then sectorsPerFat * 256 else dataClusters
    }
  }

  function ReadBpb(image: seq<Byte>): Bpb
    requires |image| >= SECTOR
  {
    Bpb(Le16(image, 11), image[13] as nat, Le16(image, 14), image[16] as nat, Le16(image, 17), Le16(image, 22))
  }

  predicate Acceptable(b: Bpb, size: nat)
  {
    && b.bytesPerSector == SECTOR && b.sectorsPerCluster != 0 && b.fats != 0 && b.rootEntries != 0 &&
       b.sectorsPerFat != 0
    && b.DataLba() <= size / SECTOR
  }

  function LayoutOf(b: Bpb, size: nat): Geometry
    requires Acceptable(b, size)
  {
    Geometry(b.reserved * SECTOR, b.RootLba() * SECTOR, b.DataLba() * SECTOR, b.sectorsPerCluster * SECTOR,
             b.MaxCluster(size), b.rootEntries)
  }

  predicate HasSignature(image: seq<Byte>)
  {
    |image| >= SECTOR && image[510] == 0x55 && image[511] == 0xAA
  }

  /** How many frames hold `size` bytes. */
  function BlocksFor(size: nat): nat
  {
    size / BLOCK_SIZE + if size % BLOCK_SIZE != 0 then 1 else 0
  }

  /** The frame allocator can grant `count` frames in a row. */
  ghost predicate Grantable(bits: seq<bool>, count: nat)
  {
    exists s: nat :: IsRun(bits, s, count)
  }

  /** The layout an image is mounted with, or none if it is rejected or there is no memory for it. */
  ghost function Mount(bits: seq<bool>, image: Option<seq<Byte>>): (r: Option<Geometry>)
  {
    if image.Some? && HasSignature(image.value) && Grantable(bits, BlocksFor(|image.value|)) &&
       Acceptable(ReadBpb(image.value), |image.value|)
    then Some(LayoutOf(ReadBpb(image.value), |image.value|)) else None
  }

  lemma TableFits(b: Bpb, maxCluster: nat)
    requires b.fats > 0 && maxCluster <= b.sectorsPerFat * 256
    ensures b.reserved * SECTOR + 2 * maxCluster <= b.RootLba() * SECTOR
  {
    MulMonotone(1, b.fats, b.sectorsPerFat);
  }

  lemma DataFits(size: nat, dataBase: nat, bpc: nat, maxCluster: nat)
    requires dataBase <= size && bpc > 0 && 2 <= maxCluster <= 2 + (size - dataBase) / bpc
    ensures dataBase + (maxCluster - 2) * bpc <= size
  {
    MulMonotone(maxCluster - 2, (size - dataBase) / bpc, bpc);
  }

  lemma RootFits(rootLba: nat, entries: nat)
    ensures rootLba * SECTOR + 32 * entries <= (rootLba + (entries * 32 + SECTOR - 1) / SECTOR) * SECTOR
  {
  }

  lemma EnoughClusters(b: Bpb, size: nat)
    requires Acceptable(b, size)
    ensures 2 <= b.MaxCluster(size) <= 2 + (size - b.DataLba() * SECTOR) / (b.sectorsPerCluster * SECTOR)
  {
  }

  lemma DivShrinks(a: nat, k: nat)
    requires k > 0
    ensures a / (k * SECTOR) <= a / SECTOR
  {
    var q := a / (k * SECTOR);
    MulMonotone(1, k, SECTOR);
    MulMonotone(SECTOR, k * SECTOR, q);
    assert q * SECTOR <= a;
  }

  /** An image that fits in memory is too small for a cluster number in the reserved range: a table
      with that many entries takes up the sectors the clusters would need. */
  lemma NoReservedCluster(b: Bpb, size: nat)
    requires Acceptable(b, size) && size <= (MAX_BLOCKS - 1) * BLOCK_SIZE
    ensures b.MaxCluster(size) <= RESERVED_START
  {
    var free := size - b.DataLba() * SECTOR;
    DivShrinks(free, b.sectorsPerCluster);
    if b.sectorsPerFat >= 256 {
      MulMonotone(1, b.fats, b.sectorsPerFat);
      assert b.DataLba() >= 256;
      assert free / SECTOR + 256 <= size / SECTOR;
    }
  }

  /** An accepted layout of an image that fits in memory keeps table, root directory and clusters
      apart and inside the image. */
  lemma LayoutFits(b: Bpb, size: nat)
    requires Acceptable(b, size) && size <= (MAX_BLOCKS - 1) * BLOCK_SIZE
    ensures LayoutOf(b, size).Fits(size)
  {
    var g := LayoutOf(b, size);
    NoReservedCluster(b, size);
    TableFits(b, g.maxCluster);
    RootFits(b.RootLba(), b.rootEntries);
    EnoughClusters(b, size);
    DataFits(size, g.dataBase, g.bpc, g.maxCluster);
  }

  /** Every image that is mounted has a layout that lies inside it. */
  lemma MountFits(bits: seq<bool>, image: Option<seq<Byte>>)
    requires |bits| <= MAX_BLOCKS && Mount(bits, image).Some?
    ensures Mount(bits, image).value.Fits(|image.value|)
  {
    LayoutFits(ReadBpb(image.value), |image.value|);
  }

  /** Giving back the run just granted restores the allocator. */
  lemma GrantAndReturn(bits: seq<bool>, start: nat, count: nat)
    requires IsRun(bits, start, count)
    ensures Cleared(Filled(bits, start, count), start, count) == bits
  {
  }

  /** The mount state of fat16.c: the frames of the writable copy, and its layout. */
  class Installer {
    const frames: FrameAllocator
    var first: nat
    var size: nat
    var layout: Option<Geometry>

    /** The copy's frames are marked used, and its layout lies inside it. */
    ghost predicate Valid()
      reads this, frames, frames.bitmap
    {
      && frames.Valid()
      && (first == 0 <==> layout.None?) && (first == 0 ==> size == 0)
      && (first != 0 ==>
            && 0 < size && layout.value.Fits(size) && first + BlocksFor(size) <= frames.bitmap.Length
            && forall f :: first <= f < first + BlocksFor(size) ==> frames.bitmap[f])
    }

    constructor (allocator: FrameAllocator)
      requires allocator.Valid()
      ensures Valid() && frames == allocator && layout.None?
    {
      frames, first, size, layout := allocator, 0, 0, None;
    }

    /** The allocator's frames without those of the copy. */
    ghost function Others(): seq<bool>
      requires Valid()
      reads this, frames, frames.bitmap
    {
      if first == 0 then frames.Bits() else Cleared(frames.Bits(), first, BlocksFor(size))
    }

    /** fat16_release_image. */
    method Release()
      requires Valid()
      modifies this, frames`usedBlocks, frames.bitmap
      ensures Valid() && layout.None? && frames.Bits() == old(Others())
    {
      frames.FreeBlocks(first * BLOCK_SIZE, BlocksFor(size));
      first, size, layout := 0, 0, None;
    }

    /** fat16_install: what was mounted is given up; the image is mounted exactly if it is acceptable
        and there is memory for a copy. The copy then takes the lowest run that is long enough, and a
        rejected image keeps no frame. */
    method Install(image: Option<seq<Byte>>)
      requires Valid() && (image.Some? ==> |image.value| < UINT32_LIMIT)
      modifies this, frames`usedBlocks, frames.bitmap
      ensures Valid() && layout == Mount(old(Others()), image) && Others() == old(Others())
      ensures layout.Some? ==> size == |image.value| && IsRun(old(Others()), first, BlocksFor(size))
      ensures layout.Some? ==> forall s: nat :: IsRun(old(Others()), s, BlocksFor(size)) ==> first <= s
    {
      Release();
      if image.Some? && |image.value| >= SECTOR {
        MountCopy(image.value);
      }
    }

    /** The part of fat16_install that copies the image and looks at it. */
    method MountCopy(image: seq<Byte>)
      requires Valid() && layout.None? && SECTOR <= |image| < UINT32_LIMIT
      modifies this, frames`usedBlocks, frames.bitmap
      ensures Valid() && layout == Mount(old(frames.Bits()), Some(image)) && Others() == old(frames.Bits())
      ensures layout.Some? ==> size == |image| && IsRun(old(frames.Bits()), first, BlocksFor(size))
      ensures layout.Some? ==> forall s: nat :: IsRun(old(frames.Bits()), s, BlocksFor(size)) ==> first <= s
    {
      ghost var others := frames.Bits();
      var blocks := BlocksFor(|image|);
      var copy := frames.AllocBlocks(blocks);
      if copy == 0 {
        return;
      }
      GrantAndReturn(others, copy, blocks);
      var b := ReadBpb(image);
      if !HasSignature(image) || !Acceptable(b, |image|) {
        frames.FreeBlocks(copy * BLOCK_SIZE, blocks);
        return;
      }
      LayoutFits(b, |image|);
      first, size, layout := copy, |image|, Some(LayoutOf(b, |image|));
    }
  }
}
