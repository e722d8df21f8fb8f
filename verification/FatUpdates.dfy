/** How one table update after another moves a FAT16 volume between well-formed states: linking a
    cluster, cutting a chain, deleting and creating a file, and writing bytes into a chain. */
module FatUpdates {
  import opened Common
  import opened FatChains

  // ---------------------------------------------------------------- structure

  /** The volume after fat16_alloc_cluster took cluster c. */
  function Allocated(v: Volume, c: nat): Volume
    requires c < |v.fat| && c < |v.data|
  {
    Volume(v.bpc, v.fat[c := EOC_MARK], v.data[c := Zeros(v.bpc)], v.dir)
  }

  /** ... and linked it behind cluster `last`. */
  function Linked(v: Volume, last: nat, c: nat): Volume
    requires c < |v.fat| && c < |v.data| && last < |v.fat|
  {
    Volume(v.bpc, v.fat[c := EOC_MARK][last := c], v.data[c := Zeros(v.bpc)], v.dir)
  }

  /** ... or made it the first cluster of entry e. */
  function Started(v: Volume, e: nat, c: nat): Volume
    requires c < |v.fat| && c < |v.data| && e < |v.dir|
  {
    Volume(v.bpc, v.fat[c := EOC_MARK], v.data[c := Zeros(v.bpc)], v.dir[e := v.dir[e].(first := c)])
  }

  lemma FreeIsUnowned(v: Volume, chains: seq<seq<nat>>, other: set<nat>, c: nat)
    requires Partition(v, chains, other) && 2 <= c < |v.fat| && v.fat[c] == 0
    ensures c !in other
    ensures forall e, i :: 0 <= e < |chains| && 0 <= i < |chains[e]| ==> chains[e][i] != c
  {
    assert !InChains(chains, c);
  }

  lemma PartitionGrow(v: Volume, v': Volume, chains: seq<seq<nat>>, other: set<nat>, e: nat, c: nat)
    requires Partition(v, chains, other) && e < |chains| && 2 <= c < |v.fat| == |v'.fat| && v.fat[c] == 0
    requires v'.fat[c] != 0 && forall d :: 2 <= d < |v.fat| && d != c ==> (v'.fat[d] != 0 <==> v.fat[d] != 0)
    ensures Partition(v', chains[e := chains[e] + [c]], other)
  {
    FreeIsUnowned(v, chains, other, c);
    var chains' := chains[e := chains[e] + [c]];
    assert forall a, i :: 0 <= a < |chains| && 0 <= i < |chains[a]| ==> chains'[a][i] == chains[a][i];
    assert chains'[e][|chains[e]|] == c;
    forall d | 2 <= d < |v.fat|
      ensures InChains(chains', d) <==> d == c || InChains(chains, d)
    {
      if InChains(chains, d) {
        var a, i :| 0 <= a < |chains| && 0 <= i < |chains[a]| && chains[a][i] == d;
        assert chains'[a][i] == d;
      }
    }
  }

  lemma StructureLink(v: Volume, chains: seq<seq<nat>>, other: set<nat>, e: nat, c: nat)
    requires Structure(v, chains, other) && e < |v.dir| && v.dir[e].IsFile() && chains[e] != []
    requires 2 <= c < |v.fat| && v.fat[c] == 0
    ensures chains[e][|chains[e]| - 1] < |v.fat|
    ensures Structure(Linked(v, chains[e][|chains[e]| - 1], c), chains[e := chains[e] + [c]], other)
  {
    var ch := chains[e];
    var last := ch[|ch| - 1];
    var v' := Linked(v, last, c);
    FreeIsUnowned(v, chains, other, c);
    PartitionGrow(v, v', chains, other, e, c);
    ChainExtend(v.fat, v.dir[e].first, ch, c);
    forall a | 0 <= a < |v.dir| && a != e && v.dir[a].IsFile()
      ensures Chain(v'.fat, v.dir[a].first, chains[a])
    {
      ChainFrame(v.fat, v'.fat, v.dir[a].first, chains[a]);
    }
  }

  lemma StructureStart(v: Volume, chains: seq<seq<nat>>, other: set<nat>, e: nat, c: nat)
    requires Structure(v, chains, other) && e < |v.dir| && v.dir[e].IsFile() && chains[e] == []
    requires 2 <= c < |v.fat| && v.fat[c] == 0
    ensures Structure(Started(v, e, c), chains[e := [c]], other)
  {
    var v' := Started(v, e, c);
    FreeIsUnowned(v, chains, other, c);
    PartitionGrow(v, v', chains, other, e, c);
    assert chains[e] + [c] == [c];
    forall a | 0 <= a < |v.dir| && a != e && v.dir[a].IsFile()
      ensures Chain(v'.fat, v.dir[a].first, chains[a])
    {
      ChainFrame(v.fat, v'.fat, v.dir[a].first, chains[a]);
    }
  }

  /** `fat'` is `fat` with the clusters of `freed` zeroed; `keep` may have been overwritten. */
  ghost predicate Freed(fat: seq<nat>, fat': seq<nat>, freed: seq<nat>, keep: nat)
  {
    && |fat'| == |fat|
    && (forall i :: 0 <= i < |freed| ==> freed[i] < |fat| && fat'[freed[i]] == 0)
    && (forall c :: 0 <= c < |fat| && c !in freed && c != keep ==> fat'[c] == fat[c])
  }

  lemma PartitionShrink(v: Volume, v': Volume, chains: seq<seq<nat>>, other: set<nat>, e: nat, k: nat)
    requires Partition(v, chains, other) && e < |chains| && k <= |chains[e]| && |v'.fat| == |v.fat|
    requires forall c :: 2 <= c < |v.fat| ==> (v'.fat[c] != 0 <==> v.fat[c] != 0 && c !in chains[e][k..])
    ensures Partition(v', chains[e := chains[e][..k]], other)
  {
    var chains' := chains[e := chains[e][..k]];
    var tail := chains[e][k..];
    assert forall a, i :: 0 <= a < |chains| && 0 <= i < |chains'[a]| ==> chains'[a][i] == chains[a][i];
    assert forall i :: k <= i < |chains[e]| ==> tail[i - k] == chains[e][i];
    forall d | 2 <= d < |v.fat|
      ensures InChains(chains', d) <==> InChains(chains, d) && d !in tail
      ensures d in tail ==> d !in other
    {
      if d in tail {
        var j :| 0 <= j < |tail| && tail[j] == d;
        NotInShrunk(chains, e, k, k + j);
      } else if InChains(chains, d) {
        var a, i :| 0 <= a < |chains| && 0 <= i < |chains[a]| && chains[a][i] == d;
        assert a == e ==> i < k;
        assert chains'[a][i] == d;
      }
    }
  }

  lemma NotInShrunk(chains: seq<seq<nat>>, e: nat, k: nat, j: nat)
    requires Disjoint(chains) && e < |chains| && k <= j < |chains[e]|
    ensures !InChains(chains[e := chains[e][..k]], chains[e][j])
    ensures InChains(chains, chains[e][j])
  {
    var chains' := chains[e := chains[e][..k]];
    forall a, i | 0 <= a < |chains'| && 0 <= i < |chains'[a]|
      ensures chains'[a][i] != chains[e][j]
    {
      assert chains'[a][i] == chains[a][i];
    }
  }

  /** Cutting a chain after its first k clusters and freeing the rest. */
  lemma StructureCut(v: Volume, v': Volume, chains: seq<seq<nat>>, other: set<nat>, e: nat, k: nat)
    requires Structure(v, chains, other) && e < |v.dir| && v.dir[e].IsFile() && 0 < k <= |chains[e]|
    requires Shape(v') && v' == Volume(v.bpc, v'.fat, v.data, v.dir)
    requires Freed(v.fat, v'.fat, chains[e][k..], chains[e][k - 1]) && v'.fat[chains[e][k - 1]] == EOC_MARK
    ensures Structure(v', chains[e := chains[e][..k]], other)
  {
    ChainIsDistinct(v.fat, v.dir[e].first, chains[e]);
    CutPartition(v, v', chains, other, e, k);
    CutMatches(v, v', chains, e, k);
  }

  lemma CutMatches(v: Volume, v': Volume, chains: seq<seq<nat>>, e: nat, k: nat)
    requires ChainsMatch(v, chains) && Disjoint(chains) && |v.fat| <= RESERVED_START
    requires e < |v.dir| && v.dir[e].IsFile() && 0 < k <= |chains[e]| && Distinct(chains[e]) && v'.dir == v.dir
    requires Freed(v.fat, v'.fat, chains[e][k..], chains[e][k - 1]) && v'.fat[chains[e][k - 1]] == EOC_MARK
    ensures ChainsMatch(v', chains[e := chains[e][..k]])
  {
    CutChain(v.fat, v'.fat, v.dir[e].first, chains[e], k);
    forall a | 0 <= a < |v.dir| && a != e && v.dir[a].IsFile()
      ensures Chain(v'.fat, v.dir[a].first, chains[a])
    {
      assert forall i :: 0 <= i < |chains[a]| ==> chains[a][i] !in chains[e];
      assert forall i :: k <= i < |chains[e]| ==> chains[e][k..][i - k] == chains[e][i];
      ChainFrame(v.fat, v'.fat, v.dir[a].first, chains[a]);
    }
  }

  lemma CutPartition(v: Volume, v': Volume, chains: seq<seq<nat>>, other: set<nat>, e: nat, k: nat)
    requires Partition(v, chains, other) && e < |chains| && 0 < k <= |chains[e]| && Distinct(chains[e])
    requires Freed(v.fat, v'.fat, chains[e][k..], chains[e][k - 1]) && v'.fat[chains[e][k - 1]] == EOC_MARK
    ensures Partition(v', chains[e := chains[e][..k]], other)
  {
    var last := chains[e][k - 1];
    assert InChains(chains, last);
    assert v.fat[last] != 0;
    PartitionShrink(v, v', chains, other, e, k);
  }

  lemma CutChain(fat: seq<nat>, fat': seq<nat>, first: nat, ch: seq<nat>, k: nat)
    requires Chain(fat, first, ch) && 0 < k <= |ch| && |fat| <= RESERVED_START && Distinct(ch)
    requires Freed(fat, fat', ch[k..], ch[k - 1]) && fat'[ch[k - 1]] == EOC_MARK
    ensures Chain(fat', first, ch[..k])
  {
    ChainCut(fat, first, ch, k);
    ChainFrame(fat[ch[k - 1] := EOC_MARK], fat', first, ch[..k]);
  }

  lemma OtherChainsKeep(v: Volume, v': Volume, chains: seq<seq<nat>>, other: set<nat>, e: nat, k: nat)
    requires Structure(v, chains, other) && e < |v.dir| && k <= |chains[e]| && |v'.fat| == |v.fat|
    requires forall c :: 2 <= c < |v.fat| && c !in chains[e] ==> v'.fat[c] == v.fat[c]
    ensures forall a :: 0 <= a < |v.dir| && a != e && v.dir[a].IsFile() ==> Chain(v'.fat, v.dir[a].first, chains[a])
  {
    forall a | 0 <= a < |v.dir| && a != e && v.dir[a].IsFile()
      ensures Chain(v'.fat, v.dir[a].first, chains[a])
    {
      ChainFrame(v.fat, v'.fat, v.dir[a].first, chains[a]);
    }
  }

  /** Freeing a whole chain, while the entry is emptied or deleted. */
  lemma StructureDrop(v: Volume, v': Volume, chains: seq<seq<nat>>, other: set<nat>, e: nat, entry: DirEntry)
    requires Structure(v, chains, other) && e < |v.dir| && v.dir[e].IsFile()
    requires v' == Volume(v.bpc, v'.fat, v.data, v.dir[e := entry])
    requires Shape(v') && Freed(v.fat, v'.fat, chains[e], 0)
    requires entry.IsFile() ==> entry.first == 0
    ensures Structure(v', chains[e := []], other)
  {
    assert chains[e][0..] == chains[e] && chains[e][..0] == [];
    PartitionShrink(v, v', chains, other, e, 0);
    OtherChainsKeep(v, v', chains, other, e, 0);
  }

  // ---------------------------------------------------------------- bytes

  lemma PlaceAt(k: nat, bpc: nat, i: nat)
    requires bpc > 0
    ensures k / bpc == i <==> i * bpc <= k < i * bpc + bpc
    ensures k / bpc == i ==> k % bpc == k - i * bpc
  {
    var q := k / bpc;
    if i < q {
      MulMonotone(i + 1, q, bpc);
    } else if i > q {
      MulMonotone(q + 1, i, bpc);
    }
  }

  /** `d` stored at position `pos` of cluster `c`. */
  function Poked(v: Volume, c: nat, pos: nat, d: seq<Byte>): Volume
    requires c < |v.data| && pos + |d| <= |v.data[c]|
  {
    Volume(v.bpc, v.fat, v.data[c := Patched(v.data[c], pos, d)], v.dir)
  }

  /** Storing into the i-th cluster of a chain, as seen in its j-th. */
  lemma PokeIn(v: Volume, ch: seq<nat>, i: nat, pos: nat, d: seq<Byte>, j: nat, r: nat)
    requires Distinct(ch) && i < |ch| && ch[i] < |v.data| && pos + |d| <= |v.data[ch[i]]|
    ensures ByteIn(Poked(v, ch[i], pos, d), ch, j, r) ==
            if j == i && pos <= r < pos + |d| then d[r - pos] else ByteIn(v, ch, j, r)
  {
    if j < |ch| && j != i {
      assert ch[j] != ch[i];
    }
  }

  /** Storing into the i-th cluster of a chain changes just the bytes at i * bpc + pos. */
  lemma PokeBytes(v: Volume, ch: seq<nat>, i: nat, base: nat, pos: nat, d: seq<Byte>, k: nat)
    requires v.bpc > 0 && Distinct(ch) && i < |ch| && ch[i] < |v.data| && |v.data[ch[i]]| == v.bpc
    requires base == i * v.bpc && pos + |d| <= v.bpc
    ensures ByteAt(Poked(v, ch[i], pos, d), ch, k) ==
            if base + pos <= k < base + pos + |d| then d[k - base - pos] else ByteAt(v, ch, k)
  {
    PlaceAt(k, v.bpc, i);
    PokeIn(v, ch, i, pos, d, k / v.bpc, k % v.bpc);
  }

  /** A chain without cluster c does not see c change. */
  lemma ElsewhereBytes(v: Volume, v': Volume, ch: seq<nat>, c: nat, k: nat)
    requires v'.bpc == v.bpc && |v'.data| == |v.data| && c !in ch
    requires forall d :: 0 <= d < |v.data| && d != c ==> v'.data[d] == v.data[d]
    ensures ByteAt(v', ch, k) == ByteAt(v, ch, k)
  {
  }

  lemma DivBound(k: nat, n: nat, bpc: nat)
    requires bpc > 0
    ensures k < n * bpc <==> k / bpc < n
  {
    var q := k / bpc;
    PlaceAt(k, bpc, q);
    if q < n {
      MulMonotone(q + 1, n, bpc);
    } else {
      MulMonotone(n, q, bpc);
    }
  }

  /** A fresh zeroed cluster appended to a chain: old bytes stay, new ones are zero. */
  lemma AppendBytes(v: Volume, v': Volume, ch: seq<nat>, c: nat, k: nat)
    requires Shape(v) && v'.bpc == v.bpc && |v'.data| == |v.data| && c !in ch && c < |v.data|
    requires v'.data == v.data[c := Zeros(v.bpc)]
    ensures k < |ch| * v.bpc ==> ByteAt(v', ch + [c], k) == ByteAt(v, ch, k)
    ensures k >= |ch| * v.bpc ==> ByteAt(v', ch + [c], k) == 0
  {
    DivBound(k, |ch|, v.bpc);
    AppendBytesAt(v, v', ch, c, k);
  }

  lemma AppendBytesAt(v: Volume, v': Volume, ch: seq<nat>, c: nat, k: nat)
    requires Shape(v) && v'.bpc == v.bpc && |v'.data| == |v.data| && c !in ch && c < |v.data|
    requires v'.data == v.data[c := Zeros(v.bpc)]
    ensures ByteAt(v', ch + [c], k) == if k / v.bpc < |ch| then ByteAt(v, ch, k) else 0
  {
  }

  // ---------------------------------------------------------------- growing one file

  /** Every file is exactly sized, except that file e may have clusters to spare. */
  ghost predicate Roomy(v: Volume, chains: seq<seq<nat>>, e: nat)
    requires v.bpc > 0
  {
    forall a :: 0 <= a < |v.dir| && a < |chains| && v.dir[a].IsFile() ==>
      && ZeroFrom(v, chains[a], v.dir[a].length)
      && |chains[a]| >= ClustersFor(v.dir[a].length, v.bpc)
      && (a != e ==> |chains[a]| == ClustersFor(v.dir[a].length, v.bpc))
  }

  /** The bytes in the clusters a file already had are still there. */
  ghost predicate KeepsBytes(v: Volume, chains: seq<seq<nat>>, v': Volume, chains': seq<seq<nat>>)
  {
    && |chains'| == |chains|
    && forall a, k: nat :: 0 <= a < |chains| && k < |chains[a]| * v.bpc ==>
         ByteAt(v', chains'[a], k) == ByteAt(v, chains[a], k)
  }

  /** A zeroed cluster c joins file e: nobody's bytes change, and what is new reads as zero. */
  lemma GrowBytes(v: Volume, v': Volume, chains: seq<seq<nat>>, e: nat, c: nat)
    requires Shape(v) && v'.bpc == v.bpc && 2 <= c < |v.data| && v'.data == v.data[c := Zeros(v.bpc)]
    requires |chains| == |v.dir| && |v'.dir| == |v.dir| && e < |chains|
    requires forall a :: 0 <= a < |chains| ==> c !in chains[a]
    requires forall a :: 0 <= a < |chains| ==>
      v'.dir[a].IsFile() == v.dir[a].IsFile() && v'.dir[a].length == v.dir[a].length
    requires Roomy(v, chains, e)
    ensures Roomy(v', chains[e := chains[e] + [c]], e)
    ensures KeepsBytes(v, chains, v', chains[e := chains[e] + [c]])
  {
    var chains' := chains[e := chains[e] + [c]];
    forall a, k: nat | 0 <= a < |chains|
      ensures ByteAt(v', chains'[a], k) ==
              if a == e && k >= |chains[e]| * v.bpc then 0 else ByteAt(v, chains[a], k)
    {
      if a == e {
        AppendBytes(v, v', chains[e], c, k);
      } else {
        ElsewhereBytes(v, v', chains[a], c, k);
      }
    }
  }
}
