/** The FAT16 driver (fat16.c): allocation, chain validation, write, read, create and unlink on the
    byte image, each proved against the files it stands for. */
module Fat16 {
  import opened Common
  import opened FatChains
  import opened FatImage
  import opened FatUpdates
  import opened FatGrowth
  import opened FatWrite

  /** The clusters visited so far when following the table from `first`, and where it leads next. */
  ghost predicate Path(fat: seq<nat>, first: nat, path: seq<nat>, next: nat)
  {
    if path == [] then next == first
    else
      && path[0] == first
      && (forall i :: 0 <= i < |path| ==> 2 <= path[i] < |fat|)
      && (forall i :: 0 <= i < |path| - 1 ==> fat[path[i]] == path[i + 1])
      && fat[path[|path| - 1]] == next < EOC
  }

  /** Any chain from `first` runs through the clusters visited so far and on to the next one. */
  lemma {:induction false} PathLeadsChain(fat: seq<nat>, first: nat, path: seq<nat>, next: nat, ch: seq<nat>)
    requires Path(fat, first, path, next) && Chain(fat, first, ch) && first != 0 && |fat| <= RESERVED_START
    ensures |ch| > |path| && ch[|path|] == next
  {
    if path != [] {
      var last := path[|path| - 1];
      var prior := path[..|path| - 1];
      assert |path| > 1 ==> fat[path[|path| - 2]] == last;
      assert Path(fat, first, prior, last);
      PathLeadsChain(fat, first, prior, last, ch);
      assert |ch| > |path| ==> fat[ch[|path| - 1]] == ch[|path|];
    }
  }

  /** Entry e deleted and the clusters `ch` freed. */
  function Removed(v: Volume, e: nat, ch: seq<nat>): Volume
    requires e < |v.dir| && |v.dir[e].name| > 0
  {
    Volume(v.bpc, Zeroed(v.fat, ch), v.data, v.dir[e := v.dir[e].(name := v.dir[e].name[0 := 0xE5])])
  }

  class Driver {
    const image: Image
    ghost var chains: seq<seq<nat>>
    ghost const other: set<nat>

    /** The image is a well-formed volume whose files have the chains `chains`. */
    ghost predicate Valid()
      reads this, image, image.img
    {
      image.Valid() && Wf(image.vol, chains, other)
    }

    constructor (img: Image, ghost fileChains: seq<seq<nat>>, ghost otherClusters: set<nat>)
      requires img.Valid() && Wf(img.vol, fileChains, otherClusters)
      ensures Valid() && image == img && chains == fileChains && other == otherClusters
    {
      image, chains, other := img, fileChains, otherClusters;
    }

    /** fat16_chain_valid: true exactly when following the table from `first` reaches an
        end-of-chain mark through valid clusters. */
    method ChainValid(first: nat) returns (ok: bool)
      requires image.Valid()
      ensures ok <==> exists ch :: Chain(image.vol.fat, first, ch)
    {
      ghost var fat := image.vol.fat;
      image.VolumeShape();
      var end := if image.geo.maxCluster < RESERVED_START then image.geo.maxCluster else RESERVED_START;
      var limit := if end > 2 then end - 2 else 0;
      if first == 0 {
        assert Chain(fat, first, []);
        return true;
      }
      var cluster: nat := first;
      ghost var path: seq<nat> := [];
      for steps := 0 to limit
        invariant |path| == steps && Path(fat, first, path, cluster)
      {
        if !(2 <= cluster < image.geo.maxCluster && cluster < RESERVED_START) {
          forall ch | Chain(fat, first, ch)
            ensures false
          {
            PathLeadsChain(fat, first, path, cluster, ch);
          }
          return false;
        }
        var next := image.NextCluster(cluster);
        if next >= EOC {
          assert Chain(fat, first, path + [cluster]);
          return true;
        }
        path := path + [cluster];
        cluster := next;
      }
      forall ch | Chain(fat, first, ch)
        ensures false
      {
        PathLeadsChain(fat, first, path, cluster, ch);
        ChainIsDistinct(fat, first, ch);
        ChainIsShort(ch, |fat|);
      }
      return false;
    }

    /** fat16_alloc_cluster: the lowest free cluster, marked end-of-chain and zeroed; 0 exactly
        when no cluster is free. */
    method AllocCluster() returns (c: nat)
      requires image.Valid()
      modifies image`vol, image.img
      ensures image.Valid()
      ensures c == FirstFree(old(image.vol).fat, 2)
      ensures c == 0 ==> image.vol == old(image.vol)
      ensures c != 0 ==> |old(image.vol).data| == |old(image.vol).fat| && image.vol == Allocated(old(image.vol), c)
    {
      image.VolumeShape();
      c := 2;
      while c < image.geo.maxCluster
        invariant 2 <= c <= image.geo.maxCluster
        invariant image.Valid() && image.vol == old(image.vol)
        invariant FirstFree(image.vol.fat, 2) == FirstFree(image.vol.fat, c)
      {
        var entry := image.NextCluster(c);
        if entry == 0 {
          image.SetCluster(c, EOC_MARK);
          image.ZeroCluster(c);
          return;
        }
        c := c + 1;
      }
      c := 0;
    }
  
    /** One more cluster behind the last one of a chain; 0 when none is free. */
    method LinkCluster(first: nat, cluster: nat, ghost ch: seq<nat>) returns (c: nat)
      requires image.Valid() && Shape(image.vol) && Chain(image.vol.fat, first, ch)
      requires ch != [] && cluster == ch[|ch| - 1]
      modifies image`vol, image.img
      ensures image.Valid() && Shape(image.vol)
      ensures c == FirstFree(old(image.vol).fat, 2)
      ensures c == 0 ==> image.vol == old(image.vol)
      ensures c != 0 ==> cluster < |old(image.vol).fat| && image.vol == Linked(old(image.vol), cluster, c)
      ensures c != 0 ==> Chain(image.vol.fat, first, ch + [c])
    {
      ghost var v := image.vol;
      c := AllocCluster();
      if c == 0 {
        return;
      }
      image.SetCluster(cluster, c);
      image.VolumeShape();
      ChainIsUsed(v.fat, first, ch);
      ChainExtend(v.fat, first, ch, c);
    }

    /** One turn of the extension loop of fat16_vfs_write: the cluster after the count-th of a chain, a new
        one if there is none; 0 when none is free. */
    method ExtendTurn(e: nat, first: nat, ghost needed: nat, cluster: nat, ghost count: nat, ghost ch: seq<nat>)
      returns (next: nat, grew: bool)
      requires image.Valid() && Shape(image.vol) && e < |image.vol.dir| && Chain(image.vol.fat, first, ch)
      requires 1 <= count <= |ch| && count < needed && cluster == ch[count - 1]
      modifies image`vol, image.img
      ensures image.Valid() && Shape(image.vol) && e < |image.vol.dir| && |image.vol.fat| == |old(image.vol).fat|
      ensures ch[|ch| - 1] < |image.vol.fat| && (next != 0 && grew ==> next < |image.vol.fat|)
      ensures next == 0 ==> image.vol == old(image.vol) && (image.vol, ch) == Extended(image.vol, e, ch, needed)
      ensures next != 0 && !grew ==> image.vol == old(image.vol) && count < |ch| && next == ch[count]
      ensures next != 0 && grew ==>
        && count == |ch| && Chain(image.vol.fat, first, ch + [next])
        && Extended(old(image.vol), e, ch, needed) == Extended(image.vol, e, ch + [next], needed)
    {
      ghost var v := image.vol;
      NextInChain(v.fat, first, ch, count - 1);
      NextInChain(v.fat, first, ch, |ch| - 1);
      next := image.NextCluster(cluster);
      grew := false;
      if next < 2 || next >= EOC {
        next := LinkCluster(first, cluster, ch);
        grew := true;
      }
    }

    /** The extension loop of fat16_vfs_write, on a chain that has a first cluster. */
    method ExtendChain(e: nat, first: nat, needed: nat, ghost ch: seq<nat>)
      returns (firstNew: nat, newParent: nat, newCount: nat, ghost ch': seq<nat>)
      requires image.Valid() && Shape(image.vol) && e < |image.vol.dir| && needed > 0
      requires Chain(image.vol.fat, first, ch) && ch != []
      modifies image`vol, image.img
      ensures image.Valid()
      ensures (image.vol, ch') == Extended(old(image.vol), e, ch, needed)
      ensures ch <= ch' && newCount == |ch'| - |ch|
      ensures newCount > 0 ==> firstNew == ch'[|ch|] && newParent == ch[|ch| - 1]
      ensures newCount == 0 ==> firstNew == 0
    {
      ghost var v0 := image.vol;
      ch' := ch;
      firstNew, newParent, newCount := 0, 0, 0;
      var cluster, count := first, 1;
      while count < needed
        invariant image.Valid() && Shape(image.vol) && e < |image.vol.dir|
        invariant Chain(image.vol.fat, first, ch') && ch <= ch'
        invariant 1 <= count <= |ch'| && count <= needed && cluster == ch'[count - 1]
        invariant Extended(v0, e, ch, needed) == Extended(image.vol, e, ch', needed)
        invariant newCount == |ch'| - |ch| && (newCount > 0 ==> count == |ch'|)
        invariant newCount > 0 ==> firstNew == ch'[|ch|] && firstNew != 0 && newParent == ch[|ch| - 1]
        invariant newCount == 0 ==> firstNew == 0
      {
        var next, grew := ExtendTurn(e, first, needed, cluster, count, ch');
        if next == 0 {
          break;
        }
        if grew {
          if firstNew == 0 {
            firstNew, newParent := next, cluster;
          }
          newCount := newCount + 1;
          ch' := ch' + [next];
        }
        cluster, count := next, count + 1;
      }
    }

    /** The first cluster of the file and the extension of its chain. */
    method Reach(e: nat, needed: nat, ghost ch: seq<nat>)
      returns (first: nat, firstNew: nat, newParent: nat, newCount: nat, ghost ch': seq<nat>)
      requires image.Valid() && Shape(image.vol) && e < |image.vol.dir| && needed > 0
      requires Chain(image.vol.fat, image.vol.dir[e].first, ch)
      modifies image`vol, image.img
      ensures image.Valid()
      ensures (image.vol, ch') == Extended(old(image.vol), e, ch, needed)
      ensures ch <= ch' && newCount == |ch'| - |ch|
      ensures first == if ch' == [] then 0 else ch'[0]
      ensures newCount > 0 ==> firstNew == ch'[|ch|] && newParent == if ch == [] then 0 else ch[|ch| - 1]
      ensures newCount == 0 ==> firstNew == 0
    {
      first := image.EntryFirst(e);
      if first != 0 {
        firstNew, newParent, newCount, ch' := ExtendChain(e, first, needed, ch);
        return;
      }
      firstNew, newParent, newCount, ch' := 0, 0, 0, ch;
      first := AllocCluster();
      if first == 0 {
        return;
      }
      image.SetEntryFirst(e, first);
      image.VolumeShape();
      var _, _, more, longer := ExtendChain(e, first, needed, [first]);
      firstNew, newCount, ch' := first, 1 + more, longer;
    }
  
    /** The loop body of the copy loop: what falls into the cl-th cluster of the chain. */
    method CopyPart(cluster: nat, cl: nat, start: int, offset: nat, buf: seq<Byte>, done: nat,
                    ghost ch: seq<nat>, ghost v0: Volume)
      returns (written: nat)
      requires image.Valid() && Shape(v0) && v0.bpc == image.geo.bpc && start == cl * v0.bpc
      requires Distinct(ch) && cl < |ch| && cluster == ch[cl] && buf != []
      requires forall j :: 0 <= j < |ch| ==> 2 <= ch[j] < |v0.fat|
      requires done == BytesBelow(offset, |buf|, start) && Stored(v0, image.vol, ch, offset, buf[..done])
      modifies image`vol, image.img
      ensures image.Valid()
      ensures written == BytesBelow(offset, |buf|, start + v0.bpc)
      ensures Stored(v0, image.vol, ch, offset, buf[..written])
      ensures written == 0 ==> image.vol == old(image.vol)
    {
      var bpc, end := image.geo.bpc, offset + |buf|;
      written := done;
      if start + bpc > offset && start < end {
        var lo := if offset > start then offset else start;
        var hi := if end < start + bpc then end else start + bpc;
        StorePart(cluster, cl, start, lo, hi, offset, buf, ch, v0);
        written := written + (hi - lo);
      }
    }

    /** The memcpy of that turn. */
    method StorePart(cluster: nat, ghost cl: nat, start: int, lo: nat, hi: nat, offset: nat, buf: seq<Byte>,
                     ghost ch: seq<nat>, ghost v0: Volume)
      requires image.Valid() && Shape(v0) && v0.bpc == image.geo.bpc && start == cl * v0.bpc
      requires Distinct(ch) && cl < |ch| && cluster == ch[cl] && forall j :: 0 <= j < |ch| ==> 2 <= ch[j] < |v0.fat|
      requires offset <= lo < hi <= offset + |buf| && start <= lo && hi <= start + v0.bpc
      requires Stored(v0, image.vol, ch, offset, buf[..lo - offset])
      modifies image`vol, image.img
      ensures image.Valid() && Stored(v0, image.vol, ch, offset, buf[..hi - offset])
    {
      ghost var v1 := image.vol;
      image.VolumeShape();
      image.WriteCluster(cluster, lo - start, buf[lo - offset..hi - offset]);
      StoreNext(v0, v1, image.vol, ch, offset, buf, cl, start, lo, hi);
    }

    /** The copy loop of fat16_vfs_write: as much of `buf` as the chain has room for. */
    method CopyIn(first: nat, needed: nat, offset: nat, buf: seq<Byte>, ghost ch: seq<nat>) returns (written: nat)
      requires image.Valid() && Shape(image.vol) && Chain(image.vol.fat, first, ch) && ch != [] && buf != []
      requires needed == ClustersFor(offset + |buf|, image.vol.bpc)
      modifies image`vol, image.img
      ensures image.Valid()
      ensures written == BytesBelow(offset, |buf|, |ch| * image.vol.bpc)
      ensures Stored(old(image.vol), image.vol, ch, offset, buf[..written])
      ensures written == 0 ==> image.vol == old(image.vol)
    {
      ghost var v0 := image.vol;
      ghost var bpc := v0.bpc;
      image.VolumeShape();
      ChainIsDistinct(v0.fat, first, ch);
      NeededCovers(offset + |buf|, bpc);
      var cluster := first;
      written := 0;
      var cl := 0;
      while cl < needed && written < |buf|
        invariant image.Valid() && cl <= needed && cl <= |ch|
        invariant cl < needed ==> if cl < |ch| then cluster == ch[cl] else cluster >= EOC
        invariant written == BytesBelow(offset, |buf|, cl * bpc)
        invariant Stored(v0, image.vol, ch, offset, buf[..written])
        invariant written == 0 ==> image.vol == v0
        decreases needed - cl
      {
        if cluster < 2 || cluster >= EOC {
          break;
        }
        NextInChain(v0.fat, first, ch, cl);
        assert (cl + 1) * bpc == cl * bpc + bpc;
        written := CopyPart(cluster, cl, cl * image.geo.bpc, offset, buf, written, ch, v0);
        if cl + 1 < needed {
          cluster := image.NextCluster(cluster);
        }
        cl := cl + 1;
      }
      CopyEnds(offset, |buf|, bpc, cl, |ch|, written);
    }
  
    /** The freeing loop of the rollback in fat16_vfs_write. */
    method FreeRun(start: nat, count: nat, ghost run: seq<nat>)
      requires image.Valid() && Shape(image.vol) && count == |run| > 0 && start == run[0] && Distinct(run)
      requires forall i :: 0 <= i < |run| ==> 2 <= run[i] < |image.vol.fat|
      requires forall i :: 0 <= i < |run| - 1 ==> image.vol.fat[run[i]] == run[i + 1]
      modifies image`vol, image.img
      ensures image.Valid()
      ensures image.vol == Volume(old(image.vol).bpc, Zeroed(old(image.vol).fat, run), old(image.vol).data,
              old(image.vol).dir)
    {
      ghost var v := image.vol;
      image.VolumeShape();
      var cluster, i := start, 0;
      assert Zeroed(v.fat, run[..0]) == v.fat;
      while i < count && cluster >= 2 && cluster < image.geo.maxCluster
        invariant 0 <= i <= count && (i < count ==> cluster == run[i])
        invariant image.Valid() && image.vol == Volume(v.bpc, Zeroed(v.fat, run[..i]), v.data, v.dir)
      {
        ZeroedStep(v.fat, run, i);
        var next := image.NextCluster(cluster);
        image.SetCluster(cluster, 0);
        cluster, i := next, i + 1;
      }
      assert run[..|run|] == run;
    }

    /** The freeing loop of fat16_vfs_unlink, on a chain that was found valid. */
    method FreeChain(first: nat, ghost ch: seq<nat>)
      requires image.Valid() && Shape(image.vol) && Chain(image.vol.fat, first, ch)
      modifies image`vol, image.img
      ensures image.Valid()
      ensures image.vol == Volume(old(image.vol).bpc, Zeroed(old(image.vol).fat, ch), old(image.vol).data,
              old(image.vol).dir)
    {
      ghost var v := image.vol;
      image.VolumeShape();
      ChainIsDistinct(v.fat, first, ch);
      var cluster := first;
      ghost var i := 0;
      assert Zeroed(v.fat, ch[..0]) == v.fat;
      while 2 <= cluster < image.geo.maxCluster && cluster < RESERVED_START
        invariant 0 <= i <= |ch| && (if ch == [] then cluster == 0 else i < |ch| && cluster == ch[i])
        invariant image.Valid() && image.vol == Volume(v.bpc, Zeroed(v.fat, ch[..i]), v.data, v.dir)
        decreases |ch| - i
      {
        NextInChain(v.fat, first, ch, i);
        ZeroedStep(v.fat, ch, i);
        var next := image.NextCluster(cluster);
        image.SetCluster(cluster, 0);
        i := i + 1;
        if next >= EOC {
          break;
        }
        cluster := next;
      }
      assert ch[..|ch|] == ch;
    }
  
    /** The end of fat16_vfs_unlink: free the chain and delete the entry, unless following the
        table from the entry's first cluster does not reach an end. */
    method RemoveEntry(e: nat) returns (ok: bool, ghost ch: seq<nat>)
      requires image.Valid() && e < |image.vol.dir|
      modifies image`vol, image.img
      ensures image.Valid() && |old(image.vol).dir[e].name| == 11
      ensures ok <==> exists c :: Chain(old(image.vol).fat, old(image.vol).dir[e].first, c)
      ensures !ok ==> image.vol == old(image.vol)
      ensures ok ==> Chain(old(image.vol).fat, old(image.vol).dir[e].first, ch)
      ensures ok ==> image.vol == Removed(old(image.vol), e, ch)
    {
      image.VolumeShape();
      var first := image.EntryFirst(e);
      ok := ChainValid(first);
      ch := [];
      if !ok {
        return;
      }
      ch :| Chain(image.vol.fat, first, ch);
      FreeChain(first, ch);
      image.DeleteEntry(e);
    }

    /** The clean-up of a write that stored nothing. */
    method Rollback(e: nat, firstNew: nat, newParent: nat, newCount: nat, ghost ch: seq<nat>, ghost ch': seq<nat>)
      requires image.Valid() && Shape(image.vol) && e < |image.vol.dir|
      requires Chain(image.vol.fat, image.vol.dir[e].first, ch') && ch <= ch' && newCount == |ch'| - |ch|
      requires newCount > 0 ==> firstNew == ch'[|ch|] && newParent == if ch == [] then 0 else ch[|ch| - 1]
      requires newCount == 0 ==> firstNew == 0
      modifies image`vol, image.img
      ensures image.Valid()
      ensures ch != [] ==> ch[|ch| - 1] < |old(image.vol).fat|
      ensures image.vol == RolledBack(old(image.vol), e, ch, ch')
    {
      if firstNew != 0 {
        image.VolumeShape();
        ChainIsDistinct(image.vol.fat, image.vol.dir[e].first, ch');
        NewRun(ch', |ch|, |image.vol.fat|);
        RunIsLinked(image.vol, e, ch, ch', ch'[|ch|..]);
        Detach(e, newParent, ch);
        FreeRun(firstNew, newCount, ch'[|ch|..]);
      } else {
        LastOfPrefix(image.vol.fat, image.vol.dir[e].first, ch, ch');
        assert ch' == ch;
      }
    }

    /** The rollback's cut: the last cluster kept, or the entry, no longer leads to the new ones. */
    method Detach(e: nat, newParent: nat, ghost ch: seq<nat>)
      requires image.Valid() && Shape(image.vol) && e < |image.vol.dir|
      requires ch != [] ==> 2 <= ch[|ch| - 1] < |image.vol.fat|
      requires newParent == if ch == [] then 0 else ch[|ch| - 1]
      modifies image`vol, image.img
      ensures image.Valid() && Shape(image.vol)
      ensures image.vol == Detached(old(image.vol), e, ch)
    {
      image.VolumeShape();
      if newParent != 0 {
        image.SetCluster(newParent, EOC_MARK);
      } else {
        image.SetEntryFirst(e, 0);
      }
      image.VolumeShape();
    }

    /** The end of fat16_vfs_write: bring the length up to date, or roll back. */
    method Finish(e: nat, offset: nat, n: nat, firstNew: nat, newParent: nat, newCount: nat, ghost ch: seq<nat>,
                  ghost ch': seq<nat>)
      requires image.Valid() && Shape(image.vol) && e < |image.vol.dir| && offset + n < UINT32_LIMIT
      requires Chain(image.vol.fat, image.vol.dir[e].first, ch') && ch <= ch' && newCount == |ch'| - |ch|
      requires newCount > 0 ==> firstNew == ch'[|ch|] && newParent == if ch == [] then 0 else ch[|ch| - 1]
      requires newCount == 0 ==> firstNew == 0
      modifies image`vol, image.img
      ensures image.Valid()
      ensures ch != [] ==> ch[|ch| - 1] < |old(image.vol).fat|
      ensures image.vol == if n == 0 then RolledBack(old(image.vol), e, ch, ch')
              else Lengthened(old(image.vol), e, offset + n)
    {
      if n == 0 {
        Rollback(e, firstNew, newParent, newCount, ch, ch');
        return;
      }
      LastOfPrefix(image.vol.fat, image.vol.dir[e].first, ch, ch');
      image.VolumeShape();
      var length := image.EntryLength(e);
      if offset + n > length {
        image.SetEntryLength(e, offset + n);
      }
    }

    /** The body of fat16_vfs_write, once the request is known to be acceptable. */
    method WriteChain(e: nat, needed: nat, offset: nat, buf: seq<Byte>, ghost ch: seq<nat>)
      returns (n: nat, ghost v1: Volume, ghost ch1: seq<nat>, ghost v2: Volume)
      requires image.Valid() && Shape(image.vol) && e < |image.vol.dir| &&
               Chain(image.vol.fat, image.vol.dir[e].first, ch)
      requires buf != [] && offset + |buf| < UINT32_LIMIT && needed == ClustersFor(offset + |buf|, image.vol.bpc) > 0
      modifies image`vol, image.img
      ensures image.Valid()
      ensures ch != [] ==> ch[|ch| - 1] < |old(image.vol).fat|
      ensures (v1, ch1) == Extended(old(image.vol), e, ch, ClustersFor(offset + |buf|, old(image.vol).bpc))
      ensures WriteTail(v1, e, ch, ch1, offset, buf, n, v2, image.vol)
      ensures n == BytesBelow(offset, |buf|, |ch1| * old(image.vol).bpc)
    {
      ghost var v := image.vol;
      ExtendedIsChain(v, e, ch, needed);
      var first, firstNew, newParent, newCount, longer := Reach(e, needed, ch);
      v1, ch1, v2 := image.vol, longer, image.vol;
      if first == 0 {
        return 0, v1, ch1, v2;
      }
      n, v2 := CopyAndFinish(e, first, needed, offset, buf, firstNew, newParent, newCount, ch, longer);
    }

    /** ... from the copy on. */
    method CopyAndFinish(e: nat, first: nat, needed: nat, offset: nat, buf: seq<Byte>, firstNew: nat, newParent: nat,
                         newCount: nat, ghost ch: seq<nat>, ghost ch1: seq<nat>)
      returns (n: nat, ghost v2: Volume)
      requires image.Valid() && Shape(image.vol) && e < |image.vol.dir| && first == image.vol.dir[e].first
      requires Chain(image.vol.fat, first, ch1) && ch1 != [] && ch <= ch1 && newCount == |ch1| - |ch|
      requires buf != [] && offset + |buf| < UINT32_LIMIT && needed == ClustersFor(offset + |buf|, image.vol.bpc)
      requires newCount > 0 ==> firstNew == ch1[|ch|] && newParent == if ch == [] then 0 else ch[|ch| - 1]
      requires newCount == 0 ==> firstNew == 0
      modifies image`vol, image.img
      ensures image.Valid()
      ensures WriteTail(old(image.vol), e, ch, ch1, offset, buf, n, v2, image.vol)
      ensures n == BytesBelow(offset, |buf|, |ch1| * old(image.vol).bpc)
    {
      n := CopyIn(first, needed, offset, buf, ch1);
      v2 := image.vol;
      image.VolumeShape();
      Finish(e, offset, n, firstNew, newParent, newCount, ch, ch1);
    }

    /** ... with the number of clusters the request needs. */
    method WriteNeeded(e: nat, offset: nat, buf: seq<Byte>, ghost ch: seq<nat>)
      returns (n: nat, ghost v1: Volume, ghost ch1: seq<nat>, ghost v2: Volume)
      requires image.Valid() && e < |image.vol.dir| && Chain(image.vol.fat, image.vol.dir[e].first, ch)
      requires buf != [] && offset + |buf| < UINT32_LIMIT
      modifies image`vol, image.img
      ensures image.Valid()
      ensures ch != [] ==> ch[|ch| - 1] < |old(image.vol).fat|
      ensures |old(image.vol).fat| == |old(image.vol).data|
      ensures (v1, ch1) == Extended(old(image.vol), e, ch, ClustersFor(offset + |buf|, old(image.vol).bpc))
      ensures WriteTail(v1, e, ch, ch1, offset, buf, n, v2, image.vol)
      ensures n == BytesBelow(offset, |buf|, |ch1| * old(image.vol).bpc)
    {
      image.VolumeShape();
      var end, bpc := offset + |buf|, image.geo.bpc;
      var needed := end / bpc + if end % bpc != 0 then 1 else 0;
      NeededCovers(end, bpc);
      n, v1, ch1, v2 := WriteChain(e, needed, offset, buf, ch);
    }

    /** fat16_vfs_write on the file of entry e. A write stores exactly as many bytes as the file's
        clusters and the free ones can hold beyond `offset`; they are a prefix of the request; the
        file then reads as its old bytes with that prefix spliced in, zeroes in any gap, and every
        other file reads as before. A write that stores nothing changes nothing. */
    method WriteEntry(e: nat, offset: nat, buf: seq<Byte>) returns (n: nat)
      requires Valid() && e < |image.vol.dir| && image.vol.dir[e].IsFile()
      requires offset < UINT32_LIMIT && |buf| < UINT32_LIMIT
      modifies this`chains, image`vol, image.img
      ensures Valid()
      ensures n == if offset + |buf| >= UINT32_LIMIT then 0
                   else WriteAmount(old(image.vol), old(chains)[e], offset, |buf|)
      ensures n > 0 ==> Wrote(old(image.vol), old(chains), image.vol, chains, e, offset, buf[..n])
      ensures n == 0 ==> chains == old(chains) && NothingChanged(old(image.vol), image.vol, chains)
    {
      ghost var v, ch := image.vol, chains[e];
      image.VolumeShape();
      image.Layout();
      var bpc := image.geo.bpc;
      if |buf| == 0 {
        return 0;
      }
      if image.geo.maxCluster <= 2 || offset / bpc >= image.geo.maxCluster - 2 {
        NothingBeyondVolume(v, chains, other, e, offset, |buf|);
        return 0;
      }
      if |buf| > 0xFFFF_FFFF - offset {
        return 0;
      }
      n := WriteAccepted(e, offset, buf);
    }

    method WriteAccepted(e: nat, offset: nat, buf: seq<Byte>) returns (n: nat)
      requires Valid() && e < |image.vol.dir| && image.vol.dir[e].IsFile()
      requires buf != [] && offset + |buf| < UINT32_LIMIT
      modifies this`chains, image`vol, image.img
      ensures Valid()
      ensures n == WriteAmount(old(image.vol), old(chains)[e], offset, |buf|)
      ensures n > 0 ==> Wrote(old(image.vol), old(chains), image.vol, chains, e, offset, buf[..n])
      ensures n == 0 ==> chains == old(chains) && NothingChanged(old(image.vol), image.vol, chains)
    {
      ghost var v, ch := image.vol, chains[e];
      ghost var v1, ch1, v2;
      n, v1, ch1, v2 := WriteNeeded(e, offset, buf, ch);
      WriteOutcome(v, chains, other, e, offset, buf, n, v1, ch1, v2, image.vol);
      chains := ChainsAfter(chains, e, n, ch1);
    }
  
    /** The seek loop of fat16_vfs_read. */
    method Seek(first: nat, count: nat, ghost ch: seq<nat>) returns (cluster: nat)
      requires image.Valid() && Shape(image.vol) && Chain(image.vol.fat, first, ch) && count < |ch|
      ensures cluster == ch[count]
    {
      image.VolumeShape();
      cluster := first;
      for i := 0 to count
        invariant cluster == ch[i]
      {
        NextInChain(image.vol.fat, first, ch, i);
        cluster := image.NextCluster(cluster);
        if cluster < 2 || cluster >= EOC {
          return;
        }
      }
    }

    /** One turn of the copy loop of fat16_vfs_read: the rest of a cluster, or as much of it as is still wanted. */
    method CopyTurn(cluster: nat, pos: nat, want: nat, data: seq<Byte>, ghost length: nat, ghost first: nat,
                    ghost ch: seq<nat>, ghost i: nat, ghost base: nat, ghost offset: nat)
      returns (more: seq<Byte>)
      requires image.Valid() && Shape(image.vol) && Chain(image.vol.fat, first, ch)
      requires |ch| == ClustersFor(length, image.vol.bpc)
      requires ReadSoFar(image.vol, ch, length, offset, want, data, i, base, pos) && |data| < want && cluster == ch[i]
      ensures |data| < |more| && ReadSoFar(image.vol, ch, length, offset, want, more, i + 1, base + image.vol.bpc, 0)
    {
      image.VolumeShape();
      NextInChain(image.vol.fat, first, ch, i);
      var avail := image.geo.bpc - pos;
      var chunk := if want - |data| > avail then avail else want - |data|;
      var part := image.ReadCluster(cluster, pos, chunk);
      ReadOn(image.vol, ch, length, offset, want, data, i, base, pos, part);
      more := data + part;
    }

    /** The copy loop of fat16_vfs_read, from position `pos` of the i-th cluster of the chain. */
    method CopyOut(start: nat, position: nat, want: nat, length: nat, ghost first: nat, ghost ch: seq<nat>,
                   ghost index: nat, ghost offset: nat)
      returns (data: seq<Byte>)
      requires image.Valid() && Shape(image.vol) && Chain(image.vol.fat, first, ch)
      requires |ch| == ClustersFor(length, image.vol.bpc) && offset + want <= length
      requires index < |ch| && start == ch[index] && position < image.vol.bpc &&
               offset == index * image.vol.bpc + position
      ensures data == Content(image.vol, ch, length)[offset..offset + want]
    {
      image.VolumeShape();
      ghost var v, i: nat, base: nat := image.vol, index, offset - position;
      var cluster, pos := start, position;
      data := [];
      while |data| < want && cluster >= 2 && cluster < EOC
        invariant ReadSoFar(v, ch, length, offset, want, data, i, base, pos)
        invariant |data| < want ==> cluster == ch[i]
        decreases want - |data|
      {
        data := CopyTurn(cluster, pos, want, data, length, first, ch, i, base, offset);
        NextInChain(v.fat, first, ch, i);
        pos := 0;
        i, base := i + 1, base + v.bpc;
        if |data| < want {
          cluster := image.NextCluster(cluster);
        }
      }
      if |data| < want {
        NextInChain(v.fat, first, ch, i);
      }
    }

    /** fat16_vfs_read through a node with first cluster `first` and length `length`: the bytes of
        the file from `offset` on, as many as were asked for and exist. */
    method ReadChain(first: nat, length: nat, offset: nat, size: nat, ghost ch: seq<nat>) returns (data: seq<Byte>)
      requires image.Valid() && Shape(image.vol) && Chain(image.vol.fat, first, ch)
      requires |ch| == ClustersFor(length, image.vol.bpc)
      ensures offset >= length ==> data == []
      ensures offset < length ==>
        data == Content(image.vol, ch, length)[offset..if size > length - offset then length else offset + size]
    {
      if offset >= length {
        return [];
      }
      var want := if size > length - offset then length - offset else size;
      image.VolumeShape();
      var bpc := image.geo.bpc;
      StartCluster(offset, length, bpc, |ch|);
      var cluster := Seek(first, offset / bpc, ch);
      data := CopyOut(cluster, offset % bpc, want, length, first, ch, offset / bpc, offset);
    }
  }

  lemma StartCluster(offset: nat, length: nat, bpc: nat, n: nat)
    requires bpc > 0 && offset < length && n == ClustersFor(length, bpc)
    ensures offset / bpc < n && 0 <= offset - offset % bpc == (offset / bpc) * bpc
  {
    PlaceAt(offset, bpc, offset / bpc);
    ClustersCover(length, bpc);
    DivBound(offset, n, bpc);
  }

  /** `data` is what a read has copied when it stands at position `pos` of the i-th cluster. */
  ghost predicate ReadSoFar(v: Volume, ch: seq<nat>, length: nat, offset: nat, want: nat, data: seq<Byte>, i: nat,
                            base: nat, pos: nat)
  {
    && offset + want <= length && |data| <= want
    && data == Content(v, ch, length)[offset..offset + |data|]
    && (|data| < want ==> i < |ch| && pos < v.bpc && base == i * v.bpc && offset + |data| == base + pos)
  }

  lemma ReadOn(v: Volume, ch: seq<nat>, length: nat, offset: nat, want: nat, data: seq<Byte>, i: nat, base: nat,
               pos: nat, part: seq<Byte>)
    requires Shape(v) && |ch| == ClustersFor(length, v.bpc) && forall j :: 0 <= j < |ch| ==> 2 <= ch[j] < |v.fat|
    requires ReadSoFar(v, ch, length, offset, want, data, i, base, pos) && |data| < want
    requires |part| == if want - |data| > v.bpc - pos then v.bpc - pos else want - |data|
    requires part == v.data[ch[i]][pos..pos + |part|]
    ensures ReadSoFar(v, ch, length, offset, want, data + part, i + 1, base + v.bpc, 0)
  {
    var all, done := Content(v, ch, length), offset + |data|;
    ClusterSlice(v, ch, length, i, base, pos, |part|);
    SliceJoin(all, offset, done, done + |part|);
    if |data + part| < want {
      MoreClusters(length, v.bpc, i, base, |ch|);
    }
  }

  lemma SliceJoin(s: seq<Byte>, a: nat, b: nat, c: nat)
    requires a <= b <= c <= |s|
    ensures s[a..b] + s[b..c] == s[a..c]
  {
  }
}
