/** What a write to a FAT16 file amounts to: a stored prefix of the request, with every other byte
    of every file in place, or no change at all. */
module FatWrite {
  import opened Common
  import opened FatChains
  import opened FatUpdates
  import opened FatGrowth

  /** The table with the clusters of `run` freed. */
  function Zeroed(fat: seq<nat>, run: seq<nat>): (r: seq<nat>)
    ensures |r| == |fat| && forall c :: 0 <= c < |fat| ==> r[c] == if c in run then 0 else fat[c]
  {
    seq(|fat|, c requires 0 <= c < |fat| => if c in run then 0 else fat[c])
  }

  lemma ZeroedStep(fat: seq<nat>, run: seq<nat>, i: nat)
    requires i < |run| && Distinct(run) && run[i] < |fat|
    ensures Zeroed(fat, run[..i + 1]) == Zeroed(fat, run[..i])[run[i] := 0]
    ensures Zeroed(fat, run[..i])[run[i]] == fat[run[i]]
  {
    assert run[..i + 1] == run[..i] + [run[i]];
    assert run[i] !in run[..i];
  }

  /** Entry e's chain ends after `was`. */
  function Detached(v: Volume, e: nat, was: seq<nat>): Volume
    requires e < |v.dir| && (was != [] ==> was[|was| - 1] < |v.fat|)
  {
    if was == [] then Volume(v.bpc, v.fat, v.data, v.dir[e := v.dir[e].(first := 0)])
    else Volume(v.bpc, v.fat[was[|was| - 1] := EOC_MARK], v.data, v.dir)
  }

  /** The clusters beyond a prefix of a chain. */
  lemma NewRun(now: seq<nat>, k: nat, n: nat)
    requires Distinct(now) && k <= |now| && forall i :: 0 <= i < |now| ==> 2 <= now[i] < n
    ensures Distinct(now[k..]) && forall i :: 0 <= i < |now| - k ==> 2 <= now[k..][i] < n
  {
  }

  /** They are linked to one another, also once they are cut off. */
  lemma RunIsLinked(v: Volume, e: nat, was: seq<nat>, now: seq<nat>, run: seq<nat>)
    requires Shape(v) && e < |v.dir| && Chain(v.fat, v.dir[e].first, now) && was < now && Distinct(now)
    requires run == now[|was|..] && forall i :: 0 <= i < |run| ==> run[i] < |v.fat|
    ensures was != [] ==> 2 <= was[|was| - 1] < |v.fat|
    ensures forall i :: 0 <= i < |run| - 1 ==> Detached(v, e, was).fat[run[i]] == run[i + 1]
  {
    assert was != [] ==> was[|was| - 1] == now[|was| - 1];
    forall i | 0 <= i < |run| - 1
      ensures Detached(v, e, was).fat[run[i]] == run[i + 1]
    {
      StillLinked(v, e, was, now, |was| + i);
    }
  }

  lemma StillLinked(v: Volume, e: nat, was: seq<nat>, now: seq<nat>, i: nat)
    requires Shape(v) && e < |v.dir| && Chain(v.fat, v.dir[e].first, now) && was < now && Distinct(now)
    requires |was| <= i < |now| - 1
    ensures (was != [] ==> was[|was| - 1] < |v.fat|) && Detached(v, e, was).fat[now[i]] == now[i + 1]
  {
    assert was != [] ==> was[|was| - 1] == now[|was| - 1];
  }

  /** The clean-up of a write that stored nothing: the clusters added to `was` are detached from
      entry e and freed. */
  function RolledBack(v: Volume, e: nat, was: seq<nat>, now: seq<nat>): Volume
    requires was <= now && e < |v.dir| && (was != [] ==> was[|was| - 1] < |v.fat|)
  {
    if was == now then v
    else if was == [] then Volume(v.bpc, Zeroed(v.fat, now), v.data, v.dir[e := v.dir[e].(first := 0)])
    else Volume(v.bpc, Zeroed(v.fat[was[|was| - 1] := EOC_MARK], now[|was|..]), v.data, v.dir)
  }

  /** Equal up to the choice of end-of-chain mark. */
  predicate SameTable(fat: seq<nat>, fat': seq<nat>)
  {
    |fat'| == |fat| && forall c :: 0 <= c < |fat| ==> fat'[c] == fat[c] || (fat[c] >= EOC && fat'[c] >= EOC)
  }

  /** The directory and all contents are as before, and the table is up to end-of-chain marks. */
  ghost predicate NothingChanged(v: Volume, v': Volume, chains: seq<seq<nat>>)
  {
    && v'.bpc == v.bpc && v'.dir == v.dir && SameTable(v.fat, v'.fat)
    && KeepsBytes(v, chains, v', chains)
  }

  lemma RollbackTable(v: Volume, chains: seq<seq<nat>>, other: set<nat>, e: nat, v': Volume, ch': seq<nat>)
    requires Structure(v, chains, other) && e < |v.dir| && v.dir[e].IsFile()
    requires Grown(v, chains, v', chains[e := ch'], e) && Chain(v'.fat, v'.dir[e].first, ch')
    ensures chains[e] != [] ==> chains[e][|chains[e]| - 1] < |v.fat|
    ensures SameTable(v.fat, RolledBack(v', e, chains[e], ch').fat)
    ensures RolledBack(v', e, chains[e], ch').dir == v.dir
  {
    var ch := chains[e];
    ChainIsUsed(v.fat, v.dir[e].first, ch);
    assert ch == [] ==> ch'[|ch|..] == ch';
    assert ch == [] ==> v.dir[e := v.dir[e].(first := 0)] == v.dir;
  }

  lemma RollbackStructure(v: Volume, chains: seq<seq<nat>>, other: set<nat>, e: nat, ch: seq<nat>)
    requires Structure(v, chains, other) && e < |v.dir| && v.dir[e].IsFile() && ch <= chains[e]
    ensures ch != [] ==> ch[|ch| - 1] < |v.fat|
    ensures Structure(RolledBack(v, e, ch, chains[e]), chains[e := ch], other)
  {
    if ch == chains[e] {
      assert chains[e := ch] == chains;
    } else if ch == [] {
      StructureDrop(v, RolledBack(v, e, ch, chains[e]), chains, other, e, v.dir[e].(first := 0));
    } else {
      RollbackCut(v, chains, other, e, |ch|);
      assert ch == chains[e][..|ch|];
    }
  }

  lemma RollbackCut(v: Volume, chains: seq<seq<nat>>, other: set<nat>, e: nat, k: nat)
    requires Structure(v, chains, other) && e < |v.dir| && v.dir[e].IsFile() && 0 < k < |chains[e]|
    ensures chains[e][k - 1] < |v.fat|
    ensures Structure(RolledBack(v, e, chains[e][..k], chains[e]), chains[e := chains[e][..k]], other)
  {
    var ch := chains[e];
    var v' := RolledBack(v, e, ch[..k], ch);
    ChainIsDistinct(v.fat, v.dir[e].first, ch);
    assert ch[..k][k - 1] == ch[k - 1] && ch[k - 1] !in ch[k..];
    StructureCut(v, v', chains, other, e, k);
  }

  lemma WfIsRoomy(v: Volume, chains: seq<seq<nat>>, other: set<nat>, e: nat)
    requires Wf(v, chains, other)
    ensures Roomy(v, chains, e)
  {
  }

  /** A volume whose files have the same chains, bytes and entries is just as well sized. */
  lemma SizedAgain(v: Volume, v': Volume, chains: seq<seq<nat>>)
    requires v.bpc > 0 && |chains| == |v.dir| && Sized(v, chains)
    requires v'.bpc == v.bpc && v'.dir == v.dir && KeepsBytes(v, chains, v', chains)
    ensures Sized(v', chains)
  {
  }

  /** Bytes within the clusters kept are read the same through the shorter chain. */
  lemma PrefixBytes(v: Volume, ch: seq<nat>, ch': seq<nat>, k: nat)
    requires v.bpc > 0 && ch <= ch' && k < |ch| * v.bpc
    ensures ByteAt(v, ch, k) == ByteAt(v, ch', k)
  {
    DivBound(k, |ch|, v.bpc);
  }

  /** A write that stores nothing changes nothing: the rollback restores the volume. */
  lemma RollbackRestores(v: Volume, chains: seq<seq<nat>>, other: set<nat>, e: nat, v1: Volume, ch': seq<nat>)
    requires Wf(v, chains, other) && e < |v.dir| && v.dir[e].IsFile()
    requires GoodGrowth(v, chains, other, e, v1, ch')
    ensures chains[e] != [] ==> chains[e][|chains[e]| - 1] < |v1.fat|
    ensures Wf(RolledBack(v1, e, chains[e], ch'), chains, other)
    ensures NothingChanged(v, RolledBack(v1, e, chains[e], ch'), chains)
  {
    var ch := chains[e];
    var chains' := chains[e := ch'];
    RollbackTable(v, chains, other, e, v1, ch');
    RollbackStructure(v1, chains', other, e, ch);
    var v2 := RolledBack(v1, e, ch, ch');
    assert chains'[e := ch] == chains;
    RollbackBytes(v, chains, e, v1, ch', v2);
    SizedAgain(v, v2, chains);
  }

  lemma RollbackBytes(v: Volume, chains: seq<seq<nat>>, e: nat, v1: Volume, ch': seq<nat>, v2: Volume)
    requires v.bpc > 0 && v1.bpc == v.bpc && e < |chains| && chains[e] <= ch'
    requires KeepsBytes(v, chains, v1, chains[e := ch']) && v2.bpc == v1.bpc && v2.data == v1.data
    ensures KeepsBytes(v, chains, v2, chains)
  {
    forall a, k: nat | 0 <= a < |chains| && k < |chains[a]| * v.bpc
      ensures ByteAt(v2, chains[a], k) == ByteAt(v, chains[a], k)
    {
      assert ByteAt(v2, chains[a], k) == ByteAt(v1, chains[a], k);
      if a == e {
        PrefixBytes(v1, chains[e], ch', k);
      }
      assert ByteAt(v1, chains[e := ch'][a], k) == ByteAt(v, chains[a], k);
    }
  }

  // ---------------------------------------------------------------- a write that stores bytes

  function Max(a: nat, b: nat): nat
  {
    if a > b then a else b
  }

  /** The volume after the bytes are stored and the length is brought up to date. */
  function Lengthened(v: Volume, e: nat, end: nat): Volume
    requires e < |v.dir|
  {
    Volume(v.bpc, v.fat, v.data, v.dir[e := v.dir[e].(length := Max(v.dir[e].length, end))])
  }

  lemma ClustersMonotone(a: nat, b: nat, bpc: nat)
    requires bpc > 0 && a <= b
    ensures ClustersFor(a, bpc) <= ClustersFor(b, bpc)
  {
    PlaceAt(a, bpc, a / bpc);
    PlaceAt(b, bpc, b / bpc);
    if a / bpc > b / bpc {
      MulMonotone(b / bpc + 1, a / bpc, bpc);
    }
  }

  lemma ClustersExact(n: nat, bpc: nat)
    requires bpc > 0
    ensures ClustersFor(n * bpc, bpc) == n
  {
    PlaceAt(n * bpc, bpc, n);
  }

  lemma ClustersCover(len: nat, bpc: nat)
    requires bpc > 0
    ensures len <= ClustersFor(len, bpc) * bpc
  {
    PlaceAt(len, bpc, len / bpc);
  }

  /** After a write the chain again has just the clusters the length needs. */
  lemma WriteSizes(len: nat, bpc: nat, free: nat, offset: nat, size: nat, reached: nat, n: nat)
    requires bpc > 0 && size > 0
    requires reached == Reachable(ClustersFor(len, bpc), free, ClustersFor(offset + size, bpc))
    requires n == BytesBelow(offset, size, reached * bpc) > 0
    ensures ClustersFor(Max(len, offset + n), bpc) == reached
  {
    var had, needed := ClustersFor(len, bpc), ClustersFor(offset + size, bpc);
    ClustersCover(len, bpc);
    ClustersCover(offset + size, bpc);
    MulMonotone(had, reached, bpc);
    if reached >= needed {
      MulMonotone(needed, reached, bpc);
      if len <= offset + size {
        ClustersMonotone(len, offset + size, bpc);
      } else {
        ClustersMonotone(offset + size, len, bpc);
      }
    } else {
      ClustersExact(reached, bpc);
      if reached * bpc >= offset + size {
        ClustersMonotone(offset + size, reached * bpc, bpc);
      }
    }
  }

  /** Stored bytes and lengths play no part in the structure. */
  lemma StructureFrame(v: Volume, v': Volume, chains: seq<seq<nat>>, other: set<nat>)
    requires Structure(v, chains, other) && v'.bpc == v.bpc && v'.fat == v.fat
    requires |v'.data| == |v.data| && forall c :: 0 <= c < |v.data| ==> |v'.data[c]| == |v.data[c]|
    requires |v'.dir| == |v.dir|
    requires forall e :: 0 <= e < |v.dir| ==>
             v'.dir[e].IsFile() == v.dir[e].IsFile() && v'.dir[e].first == v.dir[e].first
    ensures Structure(v', chains, other)
  {
  }

  /** The written file, byte by byte, over its whole chain. */
  lemma WrittenByte(v: Volume, chains: seq<seq<nat>>, e: nat, v1: Volume, ch': seq<nat>, v2: Volume, offset: nat,
                    data: seq<Byte>, k: nat)
    requires v.bpc > 0 && v1.bpc == v.bpc && e < |chains| == |v.dir| && v.dir[e].length <= |chains[e]| * v.bpc
    requires KeepsBytes(v, chains, v1, chains[e := ch']) && ZeroFrom(v1, ch', v.dir[e].length)
    requires Stored(v1, v2, ch', offset, data) && k < |ch'| * v.bpc
    ensures ByteAt(v2, ch', k) == if offset <= k < offset + |data| then data[k - offset]
                                  else if k < v.dir[e].length then ByteAt(v, chains[e], k) else 0
  {
    assert k < v.dir[e].length ==> ByteAt(v1, chains[e := ch'][e], k) == ByteAt(v, chains[e], k);
  }

  lemma OtherChain(v1: Volume, ch': seq<nat>, v2: Volume, offset: nat, data: seq<Byte>, ch: seq<nat>, k: nat)
    requires Stored(v1, v2, ch', offset, data) && forall i :: 0 <= i < |ch| ==> ch[i] !in ch'
    ensures ByteAt(v2, ch, k) == ByteAt(v1, ch, k)
  {
    assert v1.bpc > 0 && k / v1.bpc < |ch| ==> ch[k / v1.bpc] !in ch';
  }

  /** The bytes of a file that was not written. */
  lemma UntouchedByte(v: Volume, chains: seq<seq<nat>>, e: nat, v1: Volume, ch': seq<nat>, v2: Volume, offset: nat,
                      data: seq<Byte>, a: nat, k: nat)
    requires e < |chains| && a < |chains| && a != e && k < |chains[a]| * v.bpc
    requires KeepsBytes(v, chains, v1, chains[e := ch']) && Disjoint(chains[e := ch']) &&
             Stored(v1, v2, ch', offset, data)
    ensures ByteAt(v2, chains[a], k) == ByteAt(v, chains[a], k)
  {
    var chains' := chains[e := ch'];
    assert forall i :: 0 <= i < |chains'[a]| ==> chains'[a][i] !in chains'[e];
    OtherChain(v1, ch', v2, offset, data, chains'[a], k);
    assert ByteAt(v1, chains'[a], k) == ByteAt(v, chains[a], k);
  }

  lemma StoreSizes(v: Volume, chains: seq<seq<nat>>, e: nat, v1: Volume, ch': seq<nat>, v2: Volume, offset: nat,
                   data: seq<Byte>)
    requires v.bpc > 0 && v1.bpc == v.bpc && e < |chains| == |v.dir| && Sized(v, chains) && v.dir[e].IsFile()
    requires |v1.dir| == |v.dir| && forall a :: 0 <= a < |v.dir| ==> v1.dir[a] == v.dir[a].(first := v1.dir[a].first)
    requires KeepsBytes(v, chains, v1, chains[e := ch']) && ZeroFrom(v1, ch', v.dir[e].length)
    requires Disjoint(chains[e := ch']) && Stored(v1, v2, ch', offset, data)
    requires ClustersFor(Max(v.dir[e].length, offset + |data|), v.bpc) == |ch'|
    ensures Sized(Lengthened(v2, e, offset + |data|), chains[e := ch'])
  {
    var v3 := Lengthened(v2, e, offset + |data|);
    var chains' := chains[e := ch'];
    forall a | 0 <= a < |v.dir| && v3.dir[a].IsFile()
      ensures |chains'[a]| == ClustersFor(v3.dir[a].length, v.bpc) && ZeroFrom(v3, chains'[a], v3.dir[a].length)
    {
      forall k: nat | v3.dir[a].length <= k < |chains'[a]| * v.bpc
        ensures ByteAt(v3, chains'[a], k) == 0
      {
        assert ByteAt(v3, chains'[a], k) == ByteAt(v2, chains'[a], k);
        if a == e {
          ClustersCover(v.dir[e].length, v.bpc);
          WrittenByte(v, chains, e, v1, ch', v2, offset, data, k);
        } else {
          UntouchedByte(v, chains, e, v1, ch', v2, offset, data, a, k);
        }
      }
    }
  }

  lemma StoreKeepsWf(v: Volume, chains: seq<seq<nat>>, other: set<nat>, e: nat, v1: Volume, ch': seq<nat>, v2: Volume,
                     offset: nat, data: seq<Byte>, v': Volume)
    requires Wf(v, chains, other) && e < |v.dir| && v.dir[e].IsFile()
    requires GoodGrowth(v, chains, other, e, v1, ch') && Stored(v1, v2, ch', offset, data)
    requires ClustersFor(Max(v.dir[e].length, offset + |data|), v.bpc) == |ch'|
    requires v' == Lengthened(v2, e, offset + |data|)
    ensures Wf(v', chains[e := ch'], other)
  {
    StructureFrame(v1, v', chains[e := ch'], other);
    StoreSizes(v, chains, e, v1, ch', v2, offset, data);
    WfFrom(v', chains[e := ch'], other);
  }

  lemma WfFrom(v: Volume, chains: seq<seq<nat>>, other: set<nat>)
    requires Structure(v, chains, other) && Sized(v, chains)
    ensures Wf(v, chains, other)
  {
  }

  /** Write-then-read: the file reads as its old bytes with the data spliced in at the offset and
      zeroes in any gap. */
  lemma WrittenContent(v: Volume, chains: seq<seq<nat>>, e: nat, v1: Volume, ch': seq<nat>, v2: Volume, offset: nat,
                       data: seq<Byte>)
    requires v.bpc > 0 && v1.bpc == v.bpc && e < |chains| == |v.dir| && data != []
    requires |v1.dir| == |v.dir| && v1.dir[e].length == v.dir[e].length
    requires |chains[e]| == ClustersFor(v.dir[e].length, v.bpc)
    requires KeepsBytes(v, chains, v1, chains[e := ch']) && ZeroFrom(v1, ch', v.dir[e].length)
    requires Stored(v1, v2, ch', offset, data)
    requires ClustersFor(Max(v.dir[e].length, offset + |data|), v.bpc) == |ch'|
    ensures var v3 := Lengthened(v2, e, offset + |data|);
            Content(v3, ch', v3.dir[e].length) == Spliced(Content(v, chains[e], v.dir[e].length), offset, data)
  {
    var v3 := Lengthened(v2, e, offset + |data|);
    var len, len' := v.dir[e].length, v3.dir[e].length;
    ClustersCover(len', v.bpc);
    ClustersCover(len, v.bpc);
    forall k | 0 <= k < len'
      ensures Content(v3, ch', len')[k] == Spliced(Content(v, chains[e], len), offset, data)[k]
    {
      assert ByteAt(v3, ch', k) == ByteAt(v2, ch', k);
      WrittenByte(v, chains, e, v1, ch', v2, offset, data, k);
    }
  }

  /** ... and every other file reads as before. */
  lemma OtherContent(v: Volume, chains: seq<seq<nat>>, e: nat, v1: Volume, ch': seq<nat>, v2: Volume, v3: Volume,
                     offset: nat, data: seq<Byte>, a: nat)
    requires v.bpc > 0 && e < |chains| == |v.dir| && a < |v.dir| && a != e
    requires |chains[a]| == ClustersFor(v.dir[a].length, v.bpc)
    requires KeepsBytes(v, chains, v1, chains[e := ch']) && Disjoint(chains[e := ch'])
    requires Stored(v1, v2, ch', offset, data) && v3.bpc == v2.bpc && v3.data == v2.data
    ensures Content(v3, chains[a], v.dir[a].length) == Content(v, chains[a], v.dir[a].length)
  {
    ClustersCover(v.dir[a].length, v.bpc);
    forall k | 0 <= k < v.dir[a].length
      ensures ByteAt(v3, chains[a], k) == ByteAt(v, chains[a], k)
    {
      assert ByteAt(v3, chains[a], k) == ByteAt(v2, chains[a], k);
      UntouchedByte(v, chains, e, v1, ch', v2, offset, data, a, k);
    }
  }

  /** `v'` is `v` with `data` written to file e at `offset`. */
  ghost predicate Wrote(v: Volume, chains: seq<seq<nat>>, v': Volume, chains': seq<seq<nat>>, e: nat, offset: nat,
                        data: seq<Byte>)
  {
    && e < |v.dir| == |v'.dir| && |chains| == |v.dir| && |chains'| == |v.dir|
    && v'.dir[e] == DirEntry(v.dir[e].name, v.dir[e].attr, v'.dir[e].first, Max(v.dir[e].length, offset + |data|))
    && Content(v', chains'[e], v'.dir[e].length) == Spliced(Content(v, chains[e], v.dir[e].length), offset, data)
    && forall a :: 0 <= a < |v.dir| && a != e ==>
         && v'.dir[a] == v.dir[a] && chains'[a] == chains[a]
         && (v.dir[a].IsFile() ==>
               Content(v', chains[a], v.dir[a].length) == Content(v, chains[a], v.dir[a].length))
  }

  lemma StoreWrites(v: Volume, chains: seq<seq<nat>>, other: set<nat>, e: nat, v1: Volume, ch': seq<nat>, v2: Volume,
                    offset: nat, data: seq<Byte>, v': Volume)
    requires Wf(v, chains, other) && e < |v.dir| && v.dir[e].IsFile() && data != []
    requires GoodGrowth(v, chains, other, e, v1, ch') && Stored(v1, v2, ch', offset, data)
    requires ClustersFor(Max(v.dir[e].length, offset + |data|), v.bpc) == |ch'|
    requires v' == Lengthened(v2, e, offset + |data|)
    ensures Wrote(v, chains, v', chains[e := ch'], e, offset, data)
  {
    WrittenContent(v, chains, e, v1, ch', v2, offset, data);
    OtherContents(v, chains, other, e, v1, ch', v2, offset, data, v');
  }

  lemma OtherContents(v: Volume, chains: seq<seq<nat>>, other: set<nat>, e: nat, v1: Volume, ch': seq<nat>, v2: Volume,
                      offset: nat, data: seq<Byte>, v': Volume)
    requires Wf(v, chains, other) && e < |v.dir| && v.dir[e].IsFile() && data != []
    requires GoodGrowth(v, chains, other, e, v1, ch') && Stored(v1, v2, ch', offset, data)
    requires v' == Lengthened(v2, e, offset + |data|)
    ensures forall a :: 0 <= a < |v.dir| && a != e && v.dir[a].IsFile() ==>
              Content(v', chains[a], v.dir[a].length) == Content(v, chains[a], v.dir[a].length)
  {
    forall a | 0 <= a < |v.dir| && a != e && v.dir[a].IsFile()
      ensures Content(v', chains[a], v.dir[a].length) == Content(v, chains[a], v.dir[a].length)
    {
      OtherContent(v, chains, e, v1, ch', v2, v', offset, data, a);
    }
  }

  // ---------------------------------------------------------------- how much is written

  /** The number of bytes a write stores: what the file's clusters and the free ones can hold. */
  function WriteAmount(v: Volume, ch: seq<nat>, offset: nat, size: nat): nat
  {
    BytesBelow(offset, size, (|ch| + FreeCount(v.fat)) * v.bpc)
  }

  lemma AmountReached(v: Volume, ch: seq<nat>, offset: nat, size: nat)
    requires v.bpc > 0
    ensures BytesBelow(offset, size, Reachable(|ch|, FreeCount(v.fat), ClustersFor(offset + size, v.bpc)) * v.bpc) ==
            WriteAmount(v, ch, offset, size)
  {
    var needed := ClustersFor(offset + size, v.bpc);
    var total := |ch| + FreeCount(v.fat);
    ClustersCover(offset + size, v.bpc);
    if needed <= total {
      var reached := Reachable(|ch|, FreeCount(v.fat), needed);
      MulMonotone(needed, reached, v.bpc);
      MulMonotone(needed, total, v.bpc);
    }
  }

  /** A file's clusters and the free ones together fit in the volume. */
  lemma CapacityBound(v: Volume, e: nat, ch: seq<nat>)
    requires Shape(v) && e < |v.dir| && Chain(v.fat, v.dir[e].first, ch) && |v.fat| >= 2
    ensures |ch| + FreeCount(v.fat) <= |v.fat| - 2
  {
    var needed := |ch| + FreeCount(v.fat);
    ChainIsUsed(v.fat, v.dir[e].first, ch);
    ExtendedIsChain(v, e, ch, needed);
    ExtendedLength(v, e, ch, needed);
    var r := Extended(v, e, ch, needed);
    ChainIsDistinct(r.0.fat, r.0.dir[e].first, r.1);
    ChainIsShort(r.1, |v.fat|);
  }

  lemma NothingBeyondVolume(v: Volume, chains: seq<seq<nat>>, other: set<nat>, e: nat, offset: nat, size: nat)
    requires Wf(v, chains, other) && e < |v.dir| && v.dir[e].IsFile() && |v.fat| >= 2
    requires offset / v.bpc >= |v.fat| - 2
    ensures WriteAmount(v, chains[e], offset, size) == 0
  {
    WfIsRoomy(v, chains, other, e);
    CapacityBound(v, e, chains[e]);
    PlaceAt(offset, v.bpc, offset / v.bpc);
    MulMonotone(|chains[e]| + FreeCount(v.fat), offset / v.bpc, v.bpc);
  }

  /** The copy stops at the end of the chain or of the data, whichever comes first. */
  lemma CopyEnds(offset: nat, size: nat, bpc: nat, cl: nat, n: nat, written: nat)
    requires bpc > 0 && cl <= n && written == BytesBelow(offset, size, cl * bpc)
    requires cl == n || written >= size || cl * bpc >= offset + size
    ensures written == BytesBelow(offset, size, n * bpc)
  {
    MulMonotone(cl, n, bpc);
  }

  lemma NeededCovers(end: nat, bpc: nat)
    requires bpc > 0
    ensures ClustersFor(end, bpc) * bpc >= end
    ensures forall n: nat :: n * bpc >= end ==> n >= ClustersFor(end, bpc)
  {
    PlaceAt(end, bpc, end / bpc);
    assert (end / bpc + 1) * bpc == (end / bpc) * bpc + bpc;
    forall n: nat | n * bpc >= end
      ensures n >= ClustersFor(end, bpc)
    {
      MulMonotone(n + 1, Max(n + 1, end / bpc), bpc);
    }
  }

  /** What fat16_vfs_write did to entry e once its chain `ch` had been extended to ch1 (volume v1):
      it stored n bytes (v2) and brought the length up to date, or stored none and rolled back. */
  ghost predicate WriteTail(v1: Volume, e: nat, ch: seq<nat>, ch1: seq<nat>, offset: nat, buf: seq<Byte>, n: nat,
                            v2: Volume, v': Volume)
  {
    && n <= |buf| && e < |v1.dir| && ch <= ch1 && (ch != [] ==> ch[|ch| - 1] < |v1.fat|)
    && Stored(v1, v2, ch1, offset, buf[..n])
    && v' == if n == 0 then RolledBack(v1, e, ch, ch1) else Lengthened(v2, e, offset + n)
  }

  /** Extending a chain gives a chain. */
  lemma {:induction false} ExtendedIsChain(v: Volume, e: nat, ch: seq<nat>, needed: nat)
    requires Shape(v) && e < |v.dir| && Chain(v.fat, v.dir[e].first, ch)
    ensures ch != [] ==> ch[|ch| - 1] < |v.fat|
    ensures var r := Extended(v, e, ch, needed);
            && |r.0.fat| == |v.fat| && |r.0.dir| == |v.dir| && r.0.bpc == v.bpc && Shape(r.0)
            && Chain(r.0.fat, r.0.dir[e].first, r.1)
    decreases needed - |ch|
  {
    var c := FirstFree(v.fat, 2);
    if |ch| < needed && c != 0 {
      if ch == [] {
        ExtendedIsChain(Started(v, e, c), e, [c], needed);
      } else {
        ChainIsUsed(v.fat, v.dir[e].first, ch);
        ChainExtend(v.fat, v.dir[e].first, ch, c);
        ExtendedIsChain(Linked(v, ch[|ch| - 1], c), e, ch + [c], needed);
      }
    }
  }

  lemma LastOfPrefix(fat: seq<nat>, first: nat, ch: seq<nat>, ch': seq<nat>)
    requires Chain(fat, first, ch') && ch <= ch'
    ensures ch != [] ==> ch[|ch| - 1] < |fat|
  {
    assert ch != [] ==> ch[|ch| - 1] == ch'[|ch| - 1];
  }

  lemma OutcomeNone(v: Volume, chains: seq<seq<nat>>, other: set<nat>, e: nat, v1: Volume, ch1: seq<nat>, v': Volume)
    requires Wf(v, chains, other) && e < |v.dir| && v.dir[e].IsFile() && GoodGrowth(v, chains, other, e, v1, ch1)
    requires chains[e] != [] ==> chains[e][|chains[e]| - 1] < |v1.fat|
    requires v' == RolledBack(v1, e, chains[e], ch1)
    ensures Wf(v', chains, other) && NothingChanged(v, v', chains)
  {
    RollbackRestores(v, chains, other, e, v1, ch1);
  }

  lemma ReachFacts(v: Volume, chains: seq<seq<nat>>, other: set<nat>, e: nat, needed: nat, v1: Volume, ch1: seq<nat>)
    requires Wf(v, chains, other) && e < |v.dir| && v.dir[e].IsFile()
    requires chains[e] != [] ==> chains[e][|chains[e]| - 1] < |v.fat|
    requires (v1, ch1) == Extended(v, e, chains[e], needed)
    ensures GoodGrowth(v, chains, other, e, v1, ch1)
  {
    WfIsRoomy(v, chains, other, e);
    ExtendedKeeps(v, chains, other, e, needed);
  }

  /** How much was stored, and that the chain then has just the clusters the new length needs. */
  lemma WriteNumbers(v: Volume, chains: seq<seq<nat>>, other: set<nat>, e: nat, offset: nat, size: nat, n: nat,
                     ch1: seq<nat>)
    requires Wf(v, chains, other) && e < |v.dir| && v.dir[e].IsFile() && size > 0
    requires chains[e] != [] ==> chains[e][|chains[e]| - 1] < |v.fat|
    requires ch1 == Extended(v, e, chains[e], ClustersFor(offset + size, v.bpc)).1
    requires n == BytesBelow(offset, size, |ch1| * v.bpc)
    ensures n == WriteAmount(v, chains[e], offset, size)
    ensures n > 0 ==> ClustersFor(Max(v.dir[e].length, offset + n), v.bpc) == |ch1|
  {
    ChainIsUsed(v.fat, v.dir[e].first, chains[e]);
    ExtendedLength(v, e, chains[e], ClustersFor(offset + size, v.bpc));
    AmountReached(v, chains[e], offset, size);
    if n > 0 {
      WriteSizes(v.dir[e].length, v.bpc, FreeCount(v.fat), offset, size, |ch1|, n);
    }
  }

  /** Whatever a write did, the volume is well formed again. */
  lemma WriteKeepsWf(v: Volume, chains: seq<seq<nat>>, other: set<nat>, e: nat, offset: nat, buf: seq<Byte>, n: nat,
                     v1: Volume, ch1: seq<nat>, v2: Volume, v': Volume)
    requires Wf(v, chains, other) && e < |v.dir| && v.dir[e].IsFile()
    requires GoodGrowth(v, chains, other, e, v1, ch1) && WriteTail(v1, e, chains[e], ch1, offset, buf, n, v2, v')
    requires n > 0 ==> ClustersFor(Max(v.dir[e].length, offset + n), v.bpc) == |ch1|
    ensures Wf(v', ChainsAfter(chains, e, n, ch1), other)
  {
    if n == 0 {
      OutcomeNone(v, chains, other, e, v1, ch1, v');
    } else {
      StoreKeepsWf(v, chains, other, e, v1, ch1, v2, offset, buf[..n], v');
    }
  }

  /** The files' chains after a write of n bytes to file e. */
  function ChainsAfter(chains: seq<seq<nat>>, e: nat, n: nat, ch1: seq<nat>): seq<seq<nat>>
    requires e < |chains|
  {
    if n > 0 then chains[e := ch1] else chains
  }

  /** A write stores a prefix of the request, and nothing else changes. */
  lemma WriteSays(v: Volume, chains: seq<seq<nat>>, other: set<nat>, e: nat, offset: nat, buf: seq<Byte>, n: nat,
                  v1: Volume, ch1: seq<nat>, v2: Volume, v': Volume)
    requires Wf(v, chains, other) && e < |v.dir| && v.dir[e].IsFile()
    requires GoodGrowth(v, chains, other, e, v1, ch1) && WriteTail(v1, e, chains[e], ch1, offset, buf, n, v2, v')
    requires n > 0 ==> ClustersFor(Max(v.dir[e].length, offset + n), v.bpc) == |ch1|
    ensures n > 0 ==> Wrote(v, chains, v', chains[e := ch1], e, offset, buf[..n])
    ensures n == 0 ==> NothingChanged(v, v', chains)
  {
    if n == 0 {
      OutcomeNone(v, chains, other, e, v1, ch1, v');
    } else {
      StoreWrites(v, chains, other, e, v1, ch1, v2, offset, buf[..n], v');
    }
  }

  /** The two together. */
  lemma TailResult(v: Volume, chains: seq<seq<nat>>, other: set<nat>, e: nat, offset: nat, buf: seq<Byte>, n: nat,
                   v1: Volume, ch1: seq<nat>, v2: Volume, v': Volume)
    requires Wf(v, chains, other) && e < |v.dir| && v.dir[e].IsFile()
    requires GoodGrowth(v, chains, other, e, v1, ch1) && WriteTail(v1, e, chains[e], ch1, offset, buf, n, v2, v')
    requires n > 0 ==> ClustersFor(Max(v.dir[e].length, offset + n), v.bpc) == |ch1|
    ensures Wf(v', ChainsAfter(chains, e, n, ch1), other)
    ensures n > 0 ==> Wrote(v, chains, v', ChainsAfter(chains, e, n, ch1), e, offset, buf[..n])
    ensures n == 0 ==> NothingChanged(v, v', chains)
  {
    WriteKeepsWf(v, chains, other, e, offset, buf, n, v1, ch1, v2, v');
    WriteSays(v, chains, other, e, offset, buf, n, v1, ch1, v2, v');
  }

  /** What the extension loop reached: a well-formed volume, and room for just so many bytes. */
  lemma ReachedRoom(v: Volume, chains: seq<seq<nat>>, other: set<nat>, e: nat, offset: nat, size: nat, n: nat,
                    v1: Volume, ch1: seq<nat>)
    requires Wf(v, chains, other) && e < |v.dir| && v.dir[e].IsFile() && size > 0
    requires chains[e] != [] ==> chains[e][|chains[e]| - 1] < |v.fat|
    requires (v1, ch1) == Extended(v, e, chains[e], ClustersFor(offset + size, v.bpc))
    requires n == BytesBelow(offset, size, |ch1| * v.bpc)
    ensures GoodGrowth(v, chains, other, e, v1, ch1)
    ensures n == WriteAmount(v, chains[e], offset, size)
    ensures n > 0 ==> ClustersFor(Max(v.dir[e].length, offset + n), v.bpc) == |ch1|
  {
    ReachFacts(v, chains, other, e, ClustersFor(offset + size, v.bpc), v1, ch1);
    WriteNumbers(v, chains, other, e, offset, size, n, ch1);
  }

  /** What fat16_vfs_write does from the extension loop to the end. */
  lemma WriteOutcome(v: Volume, chains: seq<seq<nat>>, other: set<nat>, e: nat, offset: nat, buf: seq<Byte>, n: nat,
                     v1: Volume, ch1: seq<nat>, v2: Volume, v': Volume)
    requires Wf(v, chains, other) && e < |v.dir| && v.dir[e].IsFile() && buf != []
    requires chains[e] != [] ==> chains[e][|chains[e]| - 1] < |v.fat|
    requires (v1, ch1) == Extended(v, e, chains[e], ClustersFor(offset + |buf|, v.bpc))
    requires n == BytesBelow(offset, |buf|, |ch1| * v.bpc)
    requires WriteTail(v1, e, chains[e], ch1, offset, buf, n, v2, v')
    ensures n == WriteAmount(v, chains[e], offset, |buf|)
    ensures Wf(v', ChainsAfter(chains, e, n, ch1), other)
    ensures n > 0 ==> Wrote(v, chains, v', ChainsAfter(chains, e, n, ch1), e, offset, buf[..n])
    ensures n == 0 ==> NothingChanged(v, v', chains)
  {
    ReachedRoom(v, chains, other, e, offset, |buf|, n, v1, ch1);
    TailResult(v, chains, other, e, offset, buf, n, v1, ch1, v2, v');
  }

  // ---------------------------------------------------------------- reading

  /** Part of one cluster is part of the chain's bytes. */
  lemma ClusterSlice(v: Volume, ch: seq<nat>, length: nat, i: nat, base: nat, pos: nat, n: nat)
    requires Shape(v) && i < |ch| && 2 <= ch[i] < |v.fat| && pos + n <= v.bpc
    requires base == i * v.bpc && base + pos + n <= length
    ensures |v.data[ch[i]]| == v.bpc
    ensures v.data[ch[i]][pos..pos + n] == Content(v, ch, length)[base + pos..base + pos + n]
  {
    var c := v.data[ch[i]];
    forall k | pos <= k < pos + n
      ensures c[k] == ByteAt(v, ch, base + k)
    {
      PlaceAt(base + k, v.bpc, i);
    }
    var all := Content(v, ch, length);
    assert forall k :: pos <= k < pos + n ==> c[k] == all[base + k];
    assert c[pos..pos + n] == all[base + pos..base + pos + n];
  }

  /** While bytes of the file remain beyond cluster i, the chain has a cluster i + 1. */
  lemma MoreClusters(length: nat, bpc: nat, i: nat, base: nat, n: nat)
    requires bpc > 0 && n == ClustersFor(length, bpc) && base == i * bpc && base + bpc < length
    ensures i + 1 < n && base + bpc == (i + 1) * bpc
  {
    ClustersCover(length, bpc);
    MulMonotone(n, Max(n, i + 1), bpc);
  }
}
