/** The layout of a FAT16 image, written down part by part as the Microsoft FAT specification orders them
    ("Boot Sector and BPB", "FAT Region", "Root Directory Region"), and that fat16_install finds each
    part where it was put. */
module FatLayout {
  import opened Common
  import opened FatChains
  import opened FatImage
  import opened FatMount

  /** The fields of the boot sector in order, with the bytes between them that the driver does not read. */
  function BootSector(b: Bpb, name: seq<Byte>, between: seq<Byte>, code: seq<Byte>): seq<Byte>
    requires InRange(b)
  {
    name + Bytes16(b.bytesPerSector) + [b.sectorsPerCluster as Byte] + Bytes16(b.reserved) + [b.fats as Byte] +
    Bytes16(b.rootEntries) + between + Bytes16(b.sectorsPerFat) + code + [0x55, 0xAA]
  }

  predicate InRange(b: Bpb)
  {
    && b.bytesPerSector < 0x1_0000 && b.sectorsPerCluster < 0x100 && b.reserved < 0x1_0000 && b.fats < 0x100
    && b.rootEntries < 0x1_0000 && b.sectorsPerFat < 0x1_0000
  }

  /** Jump and name take 11 bytes; total sectors and media descriptor 3; the boot code fills the sector. */
  lemma BootRoundTrip(b: Bpb, name: seq<Byte>, between: seq<Byte>, code: seq<Byte>, rest: seq<Byte>)
    requires InRange(b) && |name| == 11 && |between| == 3 && |code| == 486
    ensures var image := BootSector(b, name, between, code) + rest;
            |BootSector(b, name, between, code)| == 512 && ReadBpb(image) == b && HasSignature(image)
  {
    var s := BootSector(b, name, between, code);
    var image := s + rest;
    assert |s| == 512;
    assert s[11..13] == Bytes16(b.bytesPerSector) && s[14..16] == Bytes16(b.reserved);
    assert s[17..19] == Bytes16(b.rootEntries) && s[22..24] == Bytes16(b.sectorsPerFat);
    assert image[11..13] == s[11..13] && image[14..16] == s[14..16] && image[17..19] == s[17..19] &&
      image[22..24] == s[22..24];
    assert s[13] == b.sectorsPerCluster as Byte && s[16] == b.fats as Byte && s[510] == 0x55 && s[511] == 0xAA;
    Word(image, 11, b.bytesPerSector);
    Word(image, 14, b.reserved);
    Word(image, 17, b.rootEntries);
    Word(image, 22, b.sectorsPerFat);
  }

  lemma Word(image: seq<Byte>, at: nat, v: nat)
    requires v < 0x1_0000 && at + 2 <= |image| && image[at..at + 2] == Bytes16(v)
    ensures Le16(image, at) == v
  {
    assert image[at] == image[at..at + 2][0] && image[at + 1] == image[at..at + 2][1];
  }

  /** An image in parts: boot sector and further reserved sectors, the copies of the table, the root
      directory in whole sectors, and the clusters. */
  datatype Parts = Parts(b: Bpb, name: seq<Byte>, between: seq<Byte>, code: seq<Byte>, reserved: seq<Byte>,
                         tables: seq<seq<Byte>>, root: seq<Byte>, data: seq<Byte>)
  {
    predicate Valid()
    {
      && InRange(b) && |name| == 11 && |between| == 3 && |code| == 486
      && b.bytesPerSector == 512 && b.sectorsPerCluster > 0 && b.reserved > 0 && b.fats > 0 && b.rootEntries > 0
      && b.sectorsPerFat > 0 && |reserved| == (b.reserved - 1) * 512
      && |tables| == b.fats && (forall i :: 0 <= i < |tables| ==> |tables[i]| == b.sectorsPerFat * 512)
      && |root| % 512 == 0 && 32 * b.rootEntries <= |root| < 32 * b.rootEntries + 512
    }

    /** Up to the tables. */
    function Front(): seq<Byte>
      requires InRange(b)
    {
      BootSector(b, name, between, code) + reserved
    }

    function Image(): seq<Byte>
      requires InRange(b)
    {
      Front() + Flat(tables) + root + data
    }
  }

  lemma RootSectors(entries: nat, size: nat)
    requires size % 512 == 0 && 32 * entries <= size < 32 * entries + 512
    ensures size == (entries * 32 + 512 - 1) / 512 * 512
  {
  }

  /** Where the parts begin, as the driver computes it. */
  lemma Bases(p: Parts)
    requires p.Valid()
    ensures |p.Front()| == p.b.reserved * 512
    ensures |p.Front()| + |Flat(p.tables)| == p.b.RootLba() * 512
    ensures |p.Front()| + |Flat(p.tables)| + |p.root| == p.b.DataLba() * 512
  {
    BootRoundTrip(p.b, p.name, p.between, p.code, []);
    FlatSize(p.tables, p.b.sectorsPerFat * 512);
    assert p.b.sectorsPerFat * 512 * p.b.fats == p.b.TableSectors() * 512;
    RootSectors(p.b.rootEntries, |p.root|);
  }

  /** The slices of four parts put together. */
  lemma Pieces(a: seq<Byte>, b: seq<Byte>, c: seq<Byte>, d: seq<Byte>)
    ensures var s := a + b + c + d;
            && s[|a|..|a| + |b|] == b && s[|a| + |b|..|a| + |b| + |c|] == c && s[|a| + |b| + |c|..] == d
  {
  }

  lemma FirstTable(tables: seq<seq<Byte>>)
    requires tables != []
    ensures |tables[0]| <= |Flat(tables)| && Flat(tables)[..|tables[0]|] == tables[0]
  {
  }

  /** An image laid out in this way is accepted, and every part is found: the first table, the root
      directory, and the clusters, of which as many are used as table and image have room for. */
  lemma LayoutIsFound(p: Parts)
    requires p.Valid()
    ensures var image := p.Image();
            && |image| >= SECTOR && ReadBpb(image) == p.b && HasSignature(image) && Acceptable(p.b, |image|)
            && var g := LayoutOf(p.b, |image|);
               && g.fatBase + |p.tables[0]| <= g.rootBase <= g.dataBase <= |image|
               && image[g.fatBase..g.fatBase + |p.tables[0]|] == p.tables[0]
               && image[g.rootBase..g.dataBase] == p.root && image[g.dataBase..] == p.data
               && g.rootEntries == p.b.rootEntries && g.bpc == p.b.sectorsPerCluster * 512
  {
    var image, flat := p.Image(), Flat(p.tables);
    Bases(p);
    Pieces(p.Front(), flat, p.root, p.data);
    FirstTable(p.tables);
    BootRoundTrip(p.b, p.name, p.between, p.code, p.reserved + flat + p.root + p.data);
    assert image == BootSector(p.b, p.name, p.between, p.code) + (p.reserved + flat + p.root + p.data);
    var at, n := |p.Front()|, |p.tables[0]|;
    assert image[at..at + n] == image[at..at + |flat|][..n];
  }

  /** The number of clusters: limited by the table and by the data, whichever is smaller. */
  lemma ClusterCount(p: Parts)
    requires p.Valid()
    ensures Acceptable(p.b, |p.Image()|)
    ensures var n, byTable, byData := LayoutOf(p.b, |p.Image()|).maxCluster, |p.tables[0]| / 2,
            |p.data| / (p.b.sectorsPerCluster * 512);
            n == if byTable < 2 + byData then byTable else 2 + byData
  {
    LayoutIsFound(p);
    Bases(p);
  }

  // ---------------------------------------------------------------- what the parts mean

  /** A directory entry in order: name, attributes, fourteen bytes that the driver does not read, first
      cluster and length. */
  function EntryBytes(d: DirEntry, unread: seq<Byte>): seq<Byte>
    requires d.first <= 0xFFFF && d.length < UINT32_LIMIT
  {
    d.name + [d.attr] + unread + Bytes16(d.first) + Bytes32(d.length)
  }

  lemma EntryRoundTrip(s: seq<Byte>, at: nat, d: DirEntry, unread: seq<Byte>)
    requires d.first <= 0xFFFF && d.length < UINT32_LIMIT && |d.name| == 11 && |unread| == 14
    requires at + 32 <= |s| && s[at..at + 32] == EntryBytes(d, unread)
    ensures EntryAt(s, at) == d
  {
    var e := EntryBytes(d, unread);
    assert |e| == 32;
    assert e[..11] == d.name && e[11] == d.attr;
    assert e[26..28] == Bytes16(d.first);
    assert e[28..32] == Bytes32(d.length);
    SliceOfSlice(s, at, at + 32, 0, 11);
    SliceOfSlice(s, at, at + 32, 26, 28);
    SliceOfSlice(s, at, at + 32, 28, 32);
    assert s[at + 11] == s[at..at + 32][11];
    Word(s, at + 26, d.first);
    Long(s, at + 28, d.length);
  }

  lemma Long(s: seq<Byte>, at: nat, v: nat)
    requires v < UINT32_LIMIT && at + 4 <= |s| && s[at..at + 4] == Bytes32(v)
    ensures Le32(s, at) == v
  {
    var b := s[at..at + 4];
    assert b[0] == s[at] && b[1] == s[at + 1] && b[2] == s[at + 2] && b[3] == s[at + 3];
  }

  /** In the volume decoded from such an image, entry e of the root directory is the one written there, ... */
  lemma EntryIsFound(p: Parts, e: nat, d: DirEntry, unread: seq<Byte>)
    requires p.Valid() && Acceptable(p.b, |p.Image()|) && LayoutOf(p.b, |p.Image()|).Fits(|p.Image()|)
    requires e < p.b.rootEntries && d.first <= 0xFFFF && d.length < UINT32_LIMIT && |d.name| == 11 && |unread| == 14
    requires 32 * e + 32 <= |p.root| && p.root[32 * e..32 * e + 32] == EntryBytes(d, unread)
    ensures var v := Decode(LayoutOf(p.b, |p.Image()|), p.Image());
            e < |v.dir| && v.dir[e] == d
  {
    var image := p.Image();
    var g := LayoutOf(p.b, |image|);
    LayoutIsFound(p);
    RootEntry(image, g.rootBase, g.dataBase, p.root, 32 * e);
    EntryRoundTrip(image, g.rootBase + 32 * e, d, unread);
  }

  /** ... entry c of the table is the one of the first copy, ... */
  lemma TableIsFound(p: Parts, c: nat)
    requires p.Valid() && Acceptable(p.b, |p.Image()|) && LayoutOf(p.b, |p.Image()|).Fits(|p.Image()|)
    requires c < LayoutOf(p.b, |p.Image()|).maxCluster
    ensures var v := Decode(LayoutOf(p.b, |p.Image()|), p.Image());
            c < |v.fat| && 2 * c + 2 <= |p.tables[0]| && v.fat[c] == Le16(p.tables[0], 2 * c)
  {
    LayoutIsFound(p);
    ClusterCount(p);
    TableEntry(p.Image(), LayoutOf(p.b, |p.Image()|).fatBase, p.tables[0], 2 * c);
  }

  /** ... and cluster c is the (c - 2)-th of the data. */
  lemma ClusterIsFound(p: Parts, c: nat)
    requires p.Valid() && Acceptable(p.b, |p.Image()|) && LayoutOf(p.b, |p.Image()|).Fits(|p.Image()|)
    requires 2 <= c < LayoutOf(p.b, |p.Image()|).maxCluster
    ensures var bpc, v := p.b.sectorsPerCluster * 512, Decode(LayoutOf(p.b, |p.Image()|), p.Image());
            && v.bpc == bpc && c < |v.data| && 0 <= (c - 2) * bpc <= (c - 1) * bpc <= |p.data|
            && v.data[c] == p.data[(c - 2) * bpc..(c - 1) * bpc]
  {
    LayoutIsFound(p);
    ClusterFound(p, LayoutOf(p.b, |p.Image()|), c);
  }

  lemma RootEntry(image: seq<Byte>, lo: nat, hi: nat, root: seq<Byte>, at: nat)
    requires lo <= hi <= |image| && image[lo..hi] == root && at + 32 <= |root|
    ensures lo + at + 32 <= |image| && image[lo + at..lo + at + 32] == root[at..at + 32]
  {
    SliceOfSlice(image, lo, hi, at, at + 32);
  }

  lemma TableEntry(image: seq<Byte>, lo: nat, table: seq<Byte>, at: nat)
    requires lo + |table| <= |image| && image[lo..lo + |table|] == table && at + 2 <= |table|
    ensures Le16(image, lo + at) == Le16(table, at)
  {
    assert table[at] == image[lo + at] && table[at + 1] == image[lo + at + 1];
  }

  lemma ClusterFound(p: Parts, g: Geometry, c: nat)
    requires p.Valid() && g.Fits(|p.Image()|) && g.dataBase <= |p.Image()| && p.Image()[g.dataBase..] == p.data
    requires 2 <= c < g.maxCluster
    ensures 0 <= (c - 2) * g.bpc <= (c - 1) * g.bpc <= |p.data|
    ensures ClusterOf(g, p.Image(), c) == p.data[(c - 2) * g.bpc..(c - 1) * g.bpc]
  {
    var image, lo := p.Image(), (c - 2) * g.bpc;
    ClusterInside(g, |image|, c);
    assert (c - 1) * g.bpc == lo + g.bpc;
    SliceOfSlice(image, g.dataBase, |image|, lo, lo + g.bpc);
  }
}
