/** The byte image a FAT16 volume lives in (fat16.c): where the table, the root directory and the
    clusters lie, and what each low-level access does to the volume those bytes stand for. */
module FatImage {
  import opened Common
  import opened FatChains

  const UINT32_LIMIT := 0x1_0000_0000

  /** Byte offsets of the regions, in a layout fat16_install accepts. */
  datatype Geometry = Geometry(fatBase: nat, rootBase: nat, dataBase: nat, bpc: nat, maxCluster: nat, rootEntries: nat)
  {
    ghost predicate Fits(size: nat)
    {
      && bpc > 0 && 2 <= maxCluster <= RESERVED_START
      && fatBase + 2 * maxCluster <= rootBase
      && rootBase + 32 * rootEntries <= dataBase
      && dataBase + (maxCluster - 2) * bpc <= size < UINT32_LIMIT
    }

    function ClusterOff(c: nat): nat
      requires c >= 2
    {
      dataBase + (c - 2) * bpc
    }
  }

  lemma ClusterInside(g: Geometry, size: nat, c: nat)
    requires g.Fits(size) && 2 <= c < g.maxCluster
    ensures g.dataBase <= g.ClusterOff(c) && g.ClusterOff(c) + g.bpc <= size
  {
    assert (c - 1) * g.bpc == (c - 2) * g.bpc + g.bpc;
    MulMonotone(c - 1, g.maxCluster - 2, g.bpc);
    MulMonotone(0, c - 2, g.bpc);
  }

  lemma ClustersApart(g: Geometry, c: nat, d: nat)
    requires 2 <= c < d
    ensures g.ClusterOff(c) + g.bpc <= g.ClusterOff(d)
  {
    assert (c - 1) * g.bpc == (c - 2) * g.bpc + g.bpc;
    MulMonotone(c - 1, d - 2, g.bpc);
  }

  // ---------------------------------------------------------------- little-endian fields

  function Le16(s: seq<Byte>, off: nat): (v: nat)
    requires off + 2 <= |s|
    ensures v <= 0xFFFF
  {
    s[off] as nat + 256 * s[off + 1] as nat
  }

  function Le32(s: seq<Byte>, off: nat): (v: nat)
    requires off + 4 <= |s|
    ensures v < UINT32_LIMIT
  {
    Le16(s, off) + 0x1_0000 * Le16(s, off + 2)
  }

  function Bytes16(v: nat): (s: seq<Byte>)
    requires v <= 0xFFFF
    ensures |s| == 2 && Le16(s, 0) == v
  {
    [(v % 256) as Byte, (v / 256) as Byte]
  }

  function Bytes32(v: nat): (s: seq<Byte>)
    requires v < UINT32_LIMIT
    ensures |s| == 4 && Le32(s, 0) == v
  {
    var lo, hi := Bytes16(v % 0x1_0000), Bytes16(v / 0x1_0000);
    assert Le16(lo + hi, 0) == v % 0x1_0000 && Le16(lo + hi, 2) == v / 0x1_0000;
    lo + hi
  }

  // ---------------------------------------------------------------- the volume in the bytes

  function EntryAt(s: seq<Byte>, off: nat): DirEntry
    requires off + 32 <= |s|
  {
    DirEntry(s[off..off + 11], s[off + 11], Le16(s, off + 26), Le32(s, off + 28))
  }

  function FatOf(g: Geometry, s: seq<Byte>): (r: seq<nat>)
    requires g.fatBase + 2 * g.maxCluster <= |s|
    ensures |r| == g.maxCluster && forall c :: 0 <= c < g.maxCluster ==> r[c] == Le16(s, g.fatBase + 2 * c)
  {
    seq(g.maxCluster, c requires 0 <= c < g.maxCluster => Le16(s, g.fatBase + 2 * c))
  }

  function DirOf(g: Geometry, s: seq<Byte>): (r: seq<DirEntry>)
    requires g.rootBase + 32 * g.rootEntries <= |s|
    ensures |r| == g.rootEntries && forall e :: 0 <= e < g.rootEntries ==> r[e] == EntryAt(s, g.rootBase + 32 * e)
  {
    seq(g.rootEntries, e requires 0 <= e < g.rootEntries => EntryAt(s, g.rootBase + 32 * e))
  }

  function ClusterOf(g: Geometry, s: seq<Byte>, c: nat): seq<Byte>
  {
    if c >= 2 && g.ClusterOff(c) + g.bpc <= |s| then s[g.ClusterOff(c)..g.ClusterOff(c) + g.bpc] else []
  }

  function DataOf(g: Geometry, s: seq<Byte>): (r: seq<seq<Byte>>)
    ensures |r| == g.maxCluster && forall c :: 0 <= c < g.maxCluster ==> r[c] == ClusterOf(g, s, c)
  {
    seq(g.maxCluster, (c: nat) => ClusterOf(g, s, c))
  }

  /** The volume a byte image stands for (an empty one if the layout does not fit). */
  ghost function Decode(g: Geometry, s: seq<Byte>): Volume
  {
    if g.Fits(|s|) then
      ClusterInside'(g, |s|);
      Volume(g.bpc, FatOf(g, s), DataOf(g, s), DirOf(g, s))
    else Volume(0, [], [], [])
  }

  lemma ClusterInside'(g: Geometry, size: nat)
    requires g.Fits(size)
    ensures g.dataBase <= size
  {
    MulMonotone(0, g.maxCluster - 2, g.bpc);
  }

  lemma FatUntouched(g: Geometry, s: seq<Byte>, off: nat, data: seq<Byte>)
    requires g.Fits(|s|) && off + |data| <= |s| && off >= g.rootBase
    ensures FatOf(g, Patched(s, off, data)) == FatOf(g, s)
  {
  }

  lemma DirUntouched(g: Geometry, s: seq<Byte>, off: nat, data: seq<Byte>)
    requires g.Fits(|s|) && off + |data| <= |s| && (off + |data| <= g.rootBase || off >= g.dataBase)
    requires g.dataBase <= |s|
    ensures DirOf(g, Patched(s, off, data)) == DirOf(g, s)
  {
    var t := Patched(s, off, data);
    forall e | 0 <= e < g.rootEntries
      ensures EntryAt(t, g.rootBase + 32 * e) == EntryAt(s, g.rootBase + 32 * e)
    {
      var o := g.rootBase + 32 * e;
      assert t[o..o + 11] == s[o..o + 11];
    }
  }

  lemma DataUntouched(g: Geometry, s: seq<Byte>, off: nat, data: seq<Byte>)
    requires g.Fits(|s|) && off + |data| <= g.dataBase <= |s|
    ensures DataOf(g, Patched(s, off, data)) == DataOf(g, s)
  {
    var t := Patched(s, off, data);
    forall c: nat | 2 <= c < g.maxCluster
      ensures ClusterOf(g, t, c) == ClusterOf(g, s, c)
    {
      ClusterInside(g, |s|, c);
      PatchedElsewhere(s, off, data, g.ClusterOff(c), g.ClusterOff(c) + g.bpc);
    }
  }

  /** Writing a table entry changes that entry and nothing else of the volume. */
  lemma PatchFat(g: Geometry, s: seq<Byte>, c: nat, v: nat)
    requires g.Fits(|s|) && c < g.maxCluster && v <= 0xFFFF && g.dataBase <= |s|
    ensures var vol := Decode(g, s);
            Decode(g, Patched(s, g.fatBase + 2 * c, Bytes16(v))) == Volume(vol.bpc, vol.fat[c := v], vol.data, vol.dir)
  {
    var off := g.fatBase + 2 * c;
    var t := Patched(s, off, Bytes16(v));
    DirUntouched(g, s, off, Bytes16(v));
    DataUntouched(g, s, off, Bytes16(v));
    forall d | 0 <= d < g.maxCluster
      ensures FatOf(g, t)[d] == FatOf(g, s)[c := v][d]
    {
      assert d == c ==> t[off] == Bytes16(v)[0] && t[off + 1] == Bytes16(v)[1];
    }
    assert FatOf(g, t) == FatOf(g, s)[c := v];
  }

  /** Writing inside a directory entry changes that entry and nothing else of the volume. */
  lemma PatchDir(g: Geometry, s: seq<Byte>, e: nat, at: nat, data: seq<Byte>)
    requires g.Fits(|s|) && e < g.rootEntries && at + |data| <= 32 && g.dataBase <= |s|
    ensures var vol := Decode(g, s);
            var t := Patched(s, g.rootBase + 32 * e + at, data);
            Decode(g, t) == Volume(vol.bpc, vol.fat, vol.data, vol.dir[e := EntryAt(t, g.rootBase + 32 * e)])
  {
    var off := g.rootBase + 32 * e + at;
    var t := Patched(s, off, data);
    FatUntouched(g, s, off, data);
    DataUntouched(g, s, off, data);
    forall d | 0 <= d < g.rootEntries && d != e
      ensures DirOf(g, t)[d] == DirOf(g, s)[d]
    {
      PatchedElsewhere(s, off, data, g.rootBase + 32 * d, g.rootBase + 32 * d + 11);
    }
    assert DirOf(g, t) == DirOf(g, s)[e := EntryAt(t, g.rootBase + 32 * e)];
  }

  lemma SliceCluster(g: Geometry, s: seq<Byte>, c: nat, pos: nat, n: nat)
    requires g.Fits(|s|) && 2 <= c < g.maxCluster && pos + n <= g.bpc
    ensures g.ClusterOff(c) + g.bpc <= |s| && |Decode(g, s).data[c]| == g.bpc
    ensures Decode(g, s).data[c][pos..pos + n] == s[g.ClusterOff(c) + pos..g.ClusterOff(c) + pos + n]
  {
    ClusterInside(g, |s|, c);
    var off := g.ClusterOff(c);
    var cluster := s[off..off + g.bpc];
    assert ClusterOf(g, s, c) == cluster;
    assert Decode(g, s).data[c] == cluster;
    SliceOfSlice(s, off, off + g.bpc, pos, pos + n);
  }

  lemma ClusterKept(g: Geometry, s: seq<Byte>, off: nat, data: seq<Byte>, d: nat, o: nat)
    requires d >= 2 && o == g.ClusterOff(d) && o + g.bpc <= |s| && off + |data| <= |s|
    requires o + g.bpc <= off || off + |data| <= o
    ensures ClusterOf(g, Patched(s, off, data), d) == ClusterOf(g, s, d)
  {
    PatchedElsewhere(s, off, data, o, o + g.bpc);
  }

  /** Writing inside cluster c, as seen in it. */
  lemma PatchOwn(g: Geometry, s: seq<Byte>, c: nat, o: nat, pos: nat, data: seq<Byte>)
    requires c >= 2 && o == g.ClusterOff(c) && o + g.bpc <= |s| && pos + |data| <= g.bpc
    ensures |ClusterOf(g, s, c)| == g.bpc
    ensures ClusterOf(g, Patched(s, o + pos, data), c) == Patched(ClusterOf(g, s, c), pos, data)
  {
    PatchedInside(s, o + pos, data, o, o + g.bpc);
  }

  /** ... and in another cluster d. */
  lemma PatchOther(g: Geometry, s: seq<Byte>, c: nat, o: nat, pos: nat, data: seq<Byte>, d: nat)
    requires g.Fits(|s|) && 2 <= d < g.maxCluster && c >= 2 && d != c
    requires o == g.ClusterOff(c) && o + g.bpc <= |s| && pos + |data| <= g.bpc
    ensures ClusterOf(g, Patched(s, o + pos, data), d) == ClusterOf(g, s, d)
  {
    ClusterInside(g, |s|, d);
    if d < c {
      ClustersApart(g, d, c);
    } else {
      ClustersApart(g, c, d);
    }
    ClusterKept(g, s, o + pos, data, d, g.ClusterOff(d));
  }

  /** Writing inside a cluster changes those bytes of it and nothing else of the volume. */
  lemma PatchData(g: Geometry, s: seq<Byte>, c: nat, pos: nat, data: seq<Byte>)
    requires g.Fits(|s|) && 2 <= c < g.maxCluster && pos + |data| <= g.bpc
    ensures g.ClusterOff(c) + g.bpc <= |s|
    ensures var vol := Decode(g, s);
            && |vol.data[c]| == g.bpc
            && Decode(g, Patched(s, g.ClusterOff(c) + pos, data)) ==
               Volume(vol.bpc, vol.fat, vol.data[c := Patched(vol.data[c], pos, data)], vol.dir)
  {
    ClusterInside(g, |s|, c);
    var o := g.ClusterOff(c);
    FatUntouched(g, s, o + pos, data);
    DirUntouched(g, s, o + pos, data);
    DataPatched(g, s, c, o, pos, data);
  }

  lemma DataPatched(g: Geometry, s: seq<Byte>, c: nat, o: nat, pos: nat, data: seq<Byte>)
    requires g.Fits(|s|) && 2 <= c < g.maxCluster && o == g.ClusterOff(c) && o + g.bpc <= |s| && pos + |data| <= g.bpc
    ensures |DataOf(g, s)[c]| == g.bpc
    ensures DataOf(g, Patched(s, o + pos, data)) == DataOf(g, s)[c := Patched(DataOf(g, s)[c], pos, data)]
  {
    var t := Patched(s, o + pos, data);
    PatchOwn(g, s, c, o, pos, data);
    forall d: nat | 2 <= d < g.maxCluster && d != c
      ensures ClusterOf(g, t, d) == ClusterOf(g, s, d)
    {
      PatchOther(g, s, c, o, pos, data, d);
    }
  }

  /** The writable RAM copy of the image. */
  class Image {
    const img: array<Byte>
    const geo: Geometry
    ghost var vol: Volume

    ghost predicate Valid()
      reads this, img
    {
      vol == Decode(geo, img[..]) && vol.bpc > 0
    }

    constructor (image: seq<Byte>, g: Geometry)
      requires g.Fits(|image|)
      ensures Valid() && fresh(img) && geo == g && vol == Decode(g, image)
    {
      ClusterInside'(g, |image|);
      geo := g;
      img := new Byte[|image|](i requires 0 <= i < |image| => image[i]);
      new;
      assert img[..] == image;
      vol := Decode(g, image);
    }

    lemma Layout()
      requires Valid()
      ensures geo.Fits(img.Length) && geo.dataBase <= img.Length
    {
      if geo.Fits(img.Length) {
        ClusterInside'(geo, img.Length);
      }
    }

    lemma VolumeShape()
      requires Valid()
      ensures Shape(vol) && vol.bpc == geo.bpc && |vol.fat| == geo.maxCluster && |vol.dir| == geo.rootEntries
      ensures forall e :: 0 <= e < |vol.dir| ==> |vol.dir[e].name| == 11
    {
      Layout();
      forall c: nat | 2 <= c < geo.maxCluster
        ensures |vol.data[c]| == vol.bpc
      {
        ClusterInside(geo, img.Length, c);
      }
    }

    /** memcpy into the image. */
    method Overwrite(off: nat, data: seq<Byte>)
      requires off + |data| <= img.Length
      modifies img
      ensures img[..] == Patched(old(img[..]), off, data)
    {
      for i := 0 to |data|
        invariant forall k :: 0 <= k < img.Length ==>
          img[k] == if off <= k < off + i then data[k - off] else old(img[k])
      {
        img[off + i] := data[i];
      }
    }

    /** fat16_next_cluster. */
    method NextCluster(c: nat) returns (next: nat)
      requires Valid() && c < geo.maxCluster
      ensures next == vol.fat[c]
    {
      Layout();
      var off := geo.fatBase + 2 * c;
      next := img[off] as nat + 256 * img[off + 1] as nat;
    }

    /** fat16_set_cluster. */
    method SetCluster(c: nat, v: nat)
      requires Valid() && c < geo.maxCluster && v <= 0xFFFF
      modifies this`vol, img
      ensures Valid()
      ensures vol == Volume(old(vol).bpc, old(vol).fat[c := v], old(vol).data, old(vol).dir)
    {
      Layout();
      PatchFat(geo, img[..], c, v);
      Overwrite(geo.fatBase + 2 * c, Bytes16(v));
      vol := Volume(vol.bpc, vol.fat[c := v], vol.data, vol.dir);
    }

    /** rd16(entry + 26). */
    method EntryFirst(e: nat) returns (first: nat)
      requires Valid() && e < geo.rootEntries
      ensures first == vol.dir[e].first
    {
      Layout();
      var off := geo.rootBase + 32 * e + 26;
      first := img[off] as nat + 256 * img[off + 1] as nat;
    }

    /** rd32(entry + 28). */
    method EntryLength(e: nat) returns (length: nat)
      requires Valid() && e < geo.rootEntries
      ensures length == vol.dir[e].length
    {
      Layout();
      var off := geo.rootBase + 32 * e + 28;
      length := img[off] as nat + 256 * img[off + 1] as nat +
        0x1_0000 * (img[off + 2] as nat + 256 * img[off + 3] as nat);
    }

    /** The entry's name field and attribute byte. */
    method EntryHead(e: nat) returns (name: seq<Byte>, attr: Byte)
      requires Valid() && e < geo.rootEntries
      ensures name == vol.dir[e].name && attr == vol.dir[e].attr && |name| == 11
    {
      Layout();
      var off := geo.rootBase + 32 * e;
      name, attr := img[off..off + 11], img[off + 11];
    }

    /** wr16(entry + 26, v). */
    method SetEntryFirst(e: nat, v: nat)
      requires Valid() && e < geo.rootEntries && v <= 0xFFFF
      modifies this`vol, img
      ensures Valid()
      ensures vol == Volume(old(vol).bpc, old(vol).fat, old(vol).data, old(vol).dir[e := old(vol).dir[e].(first := v)])
    {
      Layout();
      ghost var s := img[..];
      var off := geo.rootBase + 32 * e;
      PatchDir(geo, s, e, 26, Bytes16(v));
      Overwrite(off + 26, Bytes16(v));
      assert img[..][off..off + 11] == s[off..off + 11];
      assert EntryAt(img[..], off) == EntryAt(s, off).(first := v);
      vol := Decode(geo, img[..]);
    }

    /** wr32(entry + 28, v). */
    method SetEntryLength(e: nat, v: nat)
      requires Valid() && e < geo.rootEntries && v < UINT32_LIMIT
      modifies this`vol, img
      ensures Valid()
      ensures vol == Volume(old(vol).bpc, old(vol).fat, old(vol).data, old(vol).dir[e := old(vol).dir[e].(length := v)])
    {
      Layout();
      ghost var s := img[..];
      var off := geo.rootBase + 32 * e;
      PatchDir(geo, s, e, 28, Bytes32(v));
      Overwrite(off + 28, Bytes32(v));
      assert img[..][off..off + 11] == s[off..off + 11];
      assert EntryAt(img[..], off) == EntryAt(s, off).(length := v);
      vol := Decode(geo, img[..]);
    }

    /** e[0] = 0xE5. */
    method DeleteEntry(e: nat)
      requires Valid() && e < geo.rootEntries
      modifies this`vol, img
      ensures Valid()
      ensures |old(vol).dir[e].name| == 11
      ensures vol == Volume(old(vol).bpc, old(vol).fat, old(vol).data,
                            old(vol).dir[e := old(vol).dir[e].(name := old(vol).dir[e].name[0 := 0xE5])])
    {
      Layout();
      ghost var s := img[..];
      var off := geo.rootBase + 32 * e;
      PatchDir(geo, s, e, 0, [0xE5]);
      Overwrite(off, [0xE5]);
      assert img[..][off..off + 11] == s[off..off + 11][0 := 0xE5];
      assert EntryAt(img[..], off) == EntryAt(s, off).(name := EntryAt(s, off).name[0 := 0xE5]);
      vol := Decode(geo, img[..]);
    }

    /** The four stores fat16_vfs_create makes: clear the slot, name it, mark it a file. */
    method NewEntry(e: nat, name: seq<Byte>)
      requires Valid() && e < geo.rootEntries && |name| == 11
      modifies this`vol, img
      ensures Valid()
      ensures vol == Volume(old(vol).bpc, old(vol).fat, old(vol).data, old(vol).dir[e := DirEntry(name, 0x20, 0, 0)])
    {
      Layout();
      ghost var s := img[..];
      var off := geo.rootBase + 32 * e;
      var bytes := name + [0x20] + seq(20, _ => 0 as Byte);
      PatchDir(geo, s, e, 0, bytes);
      Overwrite(off, bytes);
      assert img[..][off..off + 11] == name;
      assert forall k :: off + 12 <= k < off + 32 ==> img[..][k] == 0;
      assert EntryAt(img[..], off) == DirEntry(name, 0x20, 0, 0);
      vol := Decode(geo, img[..]);
    }

    /** memset of a whole cluster. */
    method ZeroCluster(c: nat)
      requires Valid() && 2 <= c < geo.maxCluster
      modifies this`vol, img
      ensures Valid()
      ensures vol == Volume(old(vol).bpc, old(vol).fat, old(vol).data[c := seq(geo.bpc, _ => 0 as Byte)], old(vol).dir)
    {
      Layout();
      var zeros := seq(geo.bpc, _ => 0 as Byte);
      PatchData(geo, img[..], c, 0, zeros);
      assert Patched(vol.data[c], 0, zeros) == zeros;
      Overwrite(geo.ClusterOff(c), zeros);
      vol := Decode(geo, img[..]);
    }

    /** memcpy into part of a cluster. */
    method WriteCluster(c: nat, pos: nat, data: seq<Byte>)
      requires Valid() && 2 <= c < geo.maxCluster && pos + |data| <= geo.bpc
      modifies this`vol, img
      ensures Valid()
      ensures |old(vol).data[c]| == geo.bpc
      ensures vol == Volume(old(vol).bpc, old(vol).fat, old(vol).data[c := Patched(old(vol).data[c], pos, data)],
              old(vol).dir)
    {
      Layout();
      PatchData(geo, img[..], c, pos, data);
      Overwrite(geo.ClusterOff(c) + pos, data);
      vol := Decode(geo, img[..]);
    }

    /** memcpy out of part of a cluster. */
    method ReadCluster(c: nat, pos: nat, n: nat) returns (data: seq<Byte>)
      requires Valid() && 2 <= c < geo.maxCluster && pos + n <= geo.bpc
      ensures |vol.data[c]| == geo.bpc && data == vol.data[c][pos..pos + n]
    {
      Layout();
      SliceCluster(geo, img[..], c, pos, n);
      var off := geo.ClusterOff(c) + pos;
      data := img[off..off + n];
      assert data == img[..][off..off + n];
    }
  }
}
