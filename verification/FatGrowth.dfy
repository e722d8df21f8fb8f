/** Extending a file's chain, as fat16_vfs_write does: which clusters it takes, and that no file
    loses a byte and no cluster is lost or owned twice. */
module FatGrowth {
  import opened Common
  import opened FatChains
  import opened FatUpdates

  lemma NextInChain(fat: seq<nat>, first: nat, ch: seq<nat>, i: nat)
    requires Chain(fat, first, ch) && i < |ch| && |fat| <= RESERVED_START
    ensures 2 <= ch[i] < |fat|
    ensures if i + 1 < |ch| then fat[ch[i]] == ch[i + 1] && 2 <= ch[i + 1] < EOC else fat[ch[i]] >= EOC
  {
  }

  /** Clusters of a chain have nonzero table entries. */
  lemma ChainIsUsed(fat: seq<nat>, first: nat, ch: seq<nat>)
    requires Chain(fat, first, ch)
    ensures forall c :: c in ch ==> c < |fat| && fat[c] != 0
  {
    forall i | 0 <= i < |ch|
      ensures fat[ch[i]] != 0
    {
      assert i < |ch| - 1 ==> fat[ch[i]] == ch[i + 1];
    }
  }

  /** The lowest free cluster from c on, or 0. */
  function FirstFree(fat: seq<nat>, c: nat): (r: nat)
    ensures r != 0 ==> c <= r < |fat| && fat[r] == 0 && forall d :: c <= d < r ==> fat[d] != 0
    ensures r == 0 && c > 0 ==> forall d :: c <= d < |fat| ==> fat[d] != 0
    decreases |fat| - c
  {
    if c >= |fat| then 0 else if fat[c] == 0 then c else FirstFree(fat, c + 1)
  }

  /** The volume and chain after taking free clusters, lowest first, until the chain of entry e
      has `needed` clusters or none is free. */
  function Extended(v: Volume, e: nat, ch: seq<nat>, needed: nat): (r: (Volume, seq<nat>))
    requires |v.fat| == |v.data| && e < |v.dir| && (ch != [] ==> ch[|ch| - 1] < |v.fat|)
    decreases needed - |ch|
  {
    var c := FirstFree(v.fat, 2);
    if |ch| >= needed || c == 0 then (v, ch)
    else if ch == [] then Extended(Started(v, e, c), e, [c], needed)
    else Extended(Linked(v, ch[|ch| - 1], c), e, ch + [c], needed)
  }

  /** How many clusters a chain of n can be made to reach when f more are free. */
  function Reachable(n: nat, f: nat, needed: nat): nat
  {
    if needed <= n then n else if needed <= n + f then needed else n + f
  }

  /** The table after new clusters were hung behind the chain `was`, giving `now`: it differs only
      at the new clusters, which were free, and at the old end. */
  ghost predicate TableGrown(fat: seq<nat>, fat': seq<nat>, was: seq<nat>, now: seq<nat>)
  {
    && |fat'| == |fat| && was <= now
    && FreeCount(fat') + |now| - |was| == FreeCount(fat)
    && (forall i :: |was| <= i < |now| ==> 2 <= now[i] < |fat| && fat[now[i]] == 0)
    && (forall c | 0 <= c < |fat| && c !in now[|was|..] :: (was != [] ==> c != was[|was| - 1]) ==> fat'[c] == fat[c])
    && (was == now ==> fat' == fat)
  }

  /** What an extension of entry e's chain has done. */
  ghost predicate Grown(v: Volume, chains: seq<seq<nat>>, v': Volume, chains': seq<seq<nat>>, e: nat)
  {
    && e < |chains| == |v.dir| && |chains'| == |chains| && v'.bpc == v.bpc && |v'.data| == |v.data|
    && chains' == chains[e := chains'[e]]
    && TableGrown(v.fat, v'.fat, chains[e], chains'[e])
    && KeepsBytes(v, chains, v', chains')
    && v'.dir == (if chains[e] == [] && chains'[e] != [] then v.dir[e := v.dir[e].(first := chains'[e][0])] else v.dir)
    && (forall c :: 0 <= c < |v.data| && c !in chains'[e][|chains[e]|..] ==> v'.data[c] == v.data[c])
  }

  lemma KeepsBytesTransitive(v: Volume, c: seq<seq<nat>>, v1: Volume, c1: seq<seq<nat>>, v2: Volume, c2: seq<seq<nat>>)
    requires KeepsBytes(v, c, v1, c1) && KeepsBytes(v1, c1, v2, c2) && v1.bpc == v.bpc
    requires forall a :: 0 <= a < |c| ==> |c[a]| <= |c1[a]|
    ensures KeepsBytes(v, c, v2, c2)
  {
    forall a, k: nat | 0 <= a < |c| && k < |c[a]| * v.bpc
      ensures ByteAt(v2, c2[a], k) == ByteAt(v, c[a], k)
    {
      MulMonotone(|c[a]|, |c1[a]|, v.bpc);
    }
  }

  lemma TableStart(fat: seq<nat>, c: nat)
    requires 2 <= c < |fat| && fat[c] == 0
    ensures TableGrown(fat, fat[c := EOC_MARK], [], [c])
  {
    FreeBelowUpdate(fat, |fat|, c, EOC_MARK);
    assert [c][0..] == [c];
  }

  lemma TableLink(fat: seq<nat>, was: seq<nat>, c: nat)
    requires was != [] && 2 <= c < |fat| && fat[c] == 0
    requires 2 <= was[|was| - 1] < |fat| && fat[was[|was| - 1]] != 0
    ensures TableGrown(fat, fat[c := EOC_MARK][was[|was| - 1] := c], was, was + [c])
  {
    FreeBelowUpdate(fat, |fat|, c, EOC_MARK);
    FreeBelowUpdate(fat[c := EOC_MARK], |fat|, was[|was| - 1], c);
    assert (was + [c])[|was|..] == [c];
  }

  lemma TableGrownTransitive(f0: seq<nat>, f1: seq<nat>, f2: seq<nat>, a: seq<nat>, b: seq<nat>, c: seq<nat>)
    requires TableGrown(f0, f1, a, b) && TableGrown(f1, f2, b, c) && a != b
    requires forall i :: |b| <= i < |c| ==> c[i] !in b
    ensures TableGrown(f0, f2, a, c)
  {
    assert c[|a|..|b|] == b[|a|..];
    assert c[|a|..] == b[|a|..] + c[|b|..];
    assert b[|a|..][|b| - 1 - |a|] == b[|b| - 1];
    assert a != [] ==> a[|a| - 1] == b[|a| - 1];
    assert b == c ==> f2 == f1;
  }

  lemma GrownTransitive(v: Volume, c: seq<seq<nat>>, v1: Volume, c1: seq<seq<nat>>, v2: Volume, c2: seq<seq<nat>>,
                        e: nat)
    requires Grown(v, c, v1, c1, e) && Grown(v1, c1, v2, c2, e) && c[e] != c1[e]
    requires forall i :: |c1[e]| <= i < |c2[e]| ==> c2[e][i] !in c1[e]
    ensures Grown(v, c, v2, c2, e)
  {
    TableGrownTransitive(v.fat, v1.fat, v2.fat, c[e], c1[e], c2[e]);
    KeepsBytesTransitive(v, c, v1, c1, v2, c2);
    assert c2[e][|c[e]|..] == c1[e][|c[e]|..] + c2[e][|c1[e]|..];
    assert c2 == c[e := c2[e]];
  }

  lemma StartStep(v: Volume, chains: seq<seq<nat>>, other: set<nat>, e: nat, c: nat)
    requires Structure(v, chains, other) && Roomy(v, chains, e)
    requires e < |v.dir| && v.dir[e].IsFile() && chains[e] == [] && 2 <= c < |v.fat| && v.fat[c] == 0
    ensures Structure(Started(v, e, c), chains[e := [c]], other)
    ensures Roomy(Started(v, e, c), chains[e := [c]], e)
    ensures Grown(v, chains, Started(v, e, c), chains[e := [c]], e)
  {
    FreeIsUnowned(v, chains, other, c);
    StructureStart(v, chains, other, e, c);
    assert chains[e] + [c] == [c] && [c][0..] == [c];
    GrowBytes(v, Started(v, e, c), chains, e, c);
    TableStart(v.fat, c);
  }

  lemma LinkStep(v: Volume, chains: seq<seq<nat>>, other: set<nat>, e: nat, c: nat)
    requires Structure(v, chains, other) && Roomy(v, chains, e)
    requires e < |v.dir| && v.dir[e].IsFile() && chains[e] != [] && 2 <= c < |v.fat| && v.fat[c] == 0
    ensures 2 <= chains[e][|chains[e]| - 1] < |v.fat|
    ensures Structure(Linked(v, chains[e][|chains[e]| - 1], c), chains[e := chains[e] + [c]], other)
    ensures Roomy(Linked(v, chains[e][|chains[e]| - 1], c), chains[e := chains[e] + [c]], e)
    ensures Grown(v, chains, Linked(v, chains[e][|chains[e]| - 1], c), chains[e := chains[e] + [c]], e)
  {
    var last := chains[e][|chains[e]| - 1];
    FreeIsUnowned(v, chains, other, c);
    ChainIsUsed(v.fat, v.dir[e].first, chains[e]);
    StructureLink(v, chains, other, e, c);
    GrowBytes(v, Linked(v, last, c), chains, e, c);
    TableLink(v.fat, chains[e], c);
    assert (chains[e] + [c])[|chains[e]|..] == [c];
  }

  /** The extension left the volume well formed, with file e's chain now `ch'`. */
  ghost predicate GoodGrowth(v: Volume, chains: seq<seq<nat>>, other: set<nat>, e: nat, v': Volume, ch': seq<nat>)
  {
    && e < |chains| && v'.bpc > 0
    && Structure(v', chains[e := ch'], other)
    && Roomy(v', chains[e := ch'], e)
    && Grown(v, chains, v', chains[e := ch'], e)
  }

  lemma NoGrowth(v: Volume, chains: seq<seq<nat>>, other: set<nat>, e: nat)
    requires Structure(v, chains, other) && Roomy(v, chains, e) && e < |v.dir|
    ensures GoodGrowth(v, chains, other, e, v, chains[e])
  {
    assert chains[e := chains[e]] == chains && chains[e][|chains[e]|..] == [];
  }

  lemma GoodGrowthTransitive(v: Volume, chains: seq<seq<nat>>, other: set<nat>, e: nat, v1: Volume, ch1: seq<nat>,
                             v2: Volume, ch2: seq<nat>)
    requires e < |v.dir| && v.dir[e].IsFile() && e < |chains| && chains[e] != ch1
    requires GoodGrowth(v, chains, other, e, v1, ch1) && GoodGrowth(v1, chains[e := ch1], other, e, v2, ch2)
    ensures GoodGrowth(v, chains, other, e, v2, ch2)
  {
    var chains1 := chains[e := ch1];
    assert chains1[e := ch2] == chains[e := ch2];
    ChainIsUsed(v1.fat, v1.dir[e].first, ch1);
    GrownTransitive(v, chains, v1, chains1, v2, chains[e := ch2], e);
  }

  lemma OneStep(v: Volume, chains: seq<seq<nat>>, other: set<nat>, e: nat, c: nat)
    requires Structure(v, chains, other) && Roomy(v, chains, e)
    requires e < |v.dir| && v.dir[e].IsFile() && 2 <= c < |v.fat| && v.fat[c] == 0
    ensures chains[e] == [] ==> GoodGrowth(v, chains, other, e, Started(v, e, c), [c])
    ensures chains[e] != [] ==>
              && chains[e][|chains[e]| - 1] < |v.fat|
              && GoodGrowth(v, chains, other, e, Linked(v, chains[e][|chains[e]| - 1], c), chains[e] + [c])
  {
    if chains[e] == [] {
      StartStep(v, chains, other, e, c);
    } else {
      LinkStep(v, chains, other, e, c);
    }
  }

  lemma LastInRange(v: Volume, chains: seq<seq<nat>>, e: nat)
    requires ChainsMatch(v, chains) && e < |v.dir| && v.dir[e].IsFile()
    ensures chains[e] != [] ==> chains[e][|chains[e]| - 1] < |v.fat|
  {
  }

  /** Extending reaches exactly as many clusters as were asked for or are free. */
  lemma {:induction false} ExtendedLength(v: Volume, e: nat, ch: seq<nat>, needed: nat)
    requires |v.fat| == |v.data| && e < |v.dir|
    requires ch != [] ==> 2 <= ch[|ch| - 1] < |v.fat| && v.fat[ch[|ch| - 1]] != 0
    ensures |Extended(v, e, ch, needed).1| == Reachable(|ch|, FreeCount(v.fat), needed)
    decreases needed - |ch|
  {
    var c := FirstFree(v.fat, 2);
    if c == 0 {
      FreeBelowZero(v.fat, |v.fat|);
    } else if |ch| < needed {
      FreeBelowPositive(v.fat, |v.fat|, c);
      FreeBelowUpdate(v.fat, |v.fat|, c, EOC_MARK);
      if ch == [] {
        ExtendedLength(Started(v, e, c), e, [c], needed);
      } else {
        FreeBelowUpdate(v.fat[c := EOC_MARK], |v.fat|, ch[|ch| - 1], c);
        ExtendedLength(Linked(v, ch[|ch| - 1], c), e, ch + [c], needed);
      }
    }
  }

  /** Extending a chain keeps the volume well formed and every byte in place. */
  lemma {:induction false} ExtendedKeeps(v: Volume, chains: seq<seq<nat>>, other: set<nat>, e: nat, needed: nat)
    requires Structure(v, chains, other) && Roomy(v, chains, e) && e < |v.dir| && v.dir[e].IsFile()
    ensures chains[e] != [] ==> chains[e][|chains[e]| - 1] < |v.fat|
    ensures GoodGrowth(v, chains, other, e, Extended(v, e, chains[e], needed).0, Extended(v, e, chains[e], needed).1)
    decreases needed - |chains[e]|, 0
  {
    LastInRange(v, chains, e);
    var ch := chains[e];
    var c := FirstFree(v.fat, 2);
    if |ch| >= needed || c == 0 {
      NoGrowth(v, chains, other, e);
    } else {
      OneStep(v, chains, other, e, c);
      var v1 := if ch == [] then Started(v, e, c) else Linked(v, ch[|ch| - 1], c);
      assert ch == [] ==> ch + [c] == [c];
      ExtendOn(v, chains, other, e, v1, ch + [c], needed);
    }
  }

  lemma {:induction false} ExtendOn(v: Volume, chains: seq<seq<nat>>, other: set<nat>, e: nat, v1: Volume,
                                    ch1: seq<nat>, needed: nat)
    requires e < |v.dir| && v.dir[e].IsFile() && e < |chains| && |chains[e]| < |ch1| <= needed && chains[e] != ch1
    requires GoodGrowth(v, chains, other, e, v1, ch1)
    ensures ch1[|ch1| - 1] < |v1.fat|
    ensures GoodGrowth(v, chains, other, e, Extended(v1, e, ch1, needed).0, Extended(v1, e, ch1, needed).1)
    decreases needed - |ch1|, 1
  {
    ExtendedKeeps(v1, chains[e := ch1], other, e, needed);
    GoodGrowthTransitive(v, chains, other, e, v1, ch1, Extended(v1, e, ch1, needed).0, Extended(v1, e, ch1, needed).1);
  }

  // ---------------------------------------------------------------- storing bytes

  /** How many of the bytes [offset, offset + size) lie below `limit`. */
  function BytesBelow(offset: nat, size: nat, limit: int): (n: nat)
    ensures n <= size
  {
    if limit <= offset then 0 else if limit >= offset + size then size else limit - offset
  }

  /** `data` has been stored at `offset` of the chain, and nothing else has changed. */
  ghost predicate Stored(v: Volume, v': Volume, ch: seq<nat>, offset: nat, data: seq<Byte>)
  {
    && v' == Volume(v.bpc, v.fat, v'.data, v.dir) && |v'.data| == |v.data|
    && (forall c :: 0 <= c < |v.data| ==> |v'.data[c]| == |v.data[c]|)
    && (forall c :: 0 <= c < |v.data| && c !in ch ==> v'.data[c] == v.data[c])
    && forall k: nat :: ByteAt(v', ch, k) ==
         if offset <= k < offset + |data| then data[k - offset] else ByteAt(v, ch, k)
  }

  /** Storing the part of `data` that falls into the next cluster extends what has been stored. */
  lemma StoreNext(v: Volume, v1: Volume, v2: Volume, ch: seq<nat>, offset: nat, data: seq<Byte>, i: nat, base: int,
                  lo: nat, hi: nat)
    requires offset <= lo < hi <= offset + |data| && Shape(v) && Stored(v, v1, ch, offset, data[..lo - offset])
    requires Distinct(ch) && i < |ch| && forall j :: 0 <= j < |ch| ==> 2 <= ch[j] < |v.fat|
    requires base == i * v.bpc && base <= lo && hi <= base + v.bpc && |v1.data[ch[i]]| == v.bpc
    requires v2 == Poked(v1, ch[i], lo - base, data[lo - offset..hi - offset])
    ensures Stored(v, v2, ch, offset, data[..hi - offset])
  {
    forall k: nat
      ensures ByteAt(v2, ch, k) == if offset <= k < hi then data[..hi - offset][k - offset] else ByteAt(v, ch, k)
    {
      PokeBytes(v1, ch, i, base, lo - base, data[lo - offset..hi - offset], k);
    }
  }
}
