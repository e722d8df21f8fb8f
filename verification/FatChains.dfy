/** Cluster chains of a FAT16 volume (fat16.c, and "FAT Data Structure" of the Microsoft FAT
    specification): what a chain is, who owns a cluster, and what a file's bytes are. */
module FatChains {
  import opened Common

  const EOC := 0xFFF8
  const EOC_MARK := 0xFFFF
  const RESERVED_START := 0xFFF0

  /** A 32-byte directory entry: 8.3 name field, attributes, first cluster and length. */
  datatype DirEntry = DirEntry(name: seq<Byte>, attr: Byte, first: nat, length: nat)
  {
    /** fat16_entry_kind returns 1 and the entry is not a directory. */
    predicate IsFile()
    {
      && |name| == 11
      && name[0] != 0x00 && name[0] != 0xE5 && name[0] != 0x2E
      && attr as int % 16 != 15 && (attr as int / 8) % 2 == 0 && (attr as int / 16) % 2 == 0
    }
  }

  /** The mounted volume. Entry c of `fat` and of `data` belong to cluster c; 0 and 1 name no
      cluster. `dir` lists the directory entries. */
  datatype Volume = Volume(bpc: nat, fat: seq<nat>, data: seq<seq<Byte>>, dir: seq<DirEntry>)

  ghost predicate Shape(v: Volume)
  {
    && v.bpc > 0
    && |v.fat| == |v.data| <= RESERVED_START
    && (forall c :: 0 <= c < |v.fat| ==> v.fat[c] <= 0xFFFF)
    && (forall c :: 2 <= c < |v.data| ==> |v.data[c]| == v.bpc)
  }

  /** Following the table from `first` visits exactly `ch` and then meets an end-of-chain mark. */
  ghost predicate Chain(fat: seq<nat>, first: nat, ch: seq<nat>)
  {
    if ch == [] then first == 0
    else
      && ch[0] == first
      && (forall i :: 0 <= i < |ch| ==> 2 <= ch[i] < |fat|)
      && (forall i :: 0 <= i < |ch| - 1 ==> fat[ch[i]] == ch[i + 1])
      && fat[ch[|ch| - 1]] >= EOC
  }

  /** A chain that ends cannot visit a cluster twice. */
  lemma {:induction false} ChainIsDistinct(fat: seq<nat>, first: nat, ch: seq<nat>)
    requires Chain(fat, first, ch) && |fat| <= RESERVED_START
    ensures Distinct(ch)
  {
    forall i, j | 0 <= i < j < |ch|
      ensures ch[i] != ch[j]
    {
      NoRepeat(fat, first, ch, i, j);
    }
  }

  lemma {:induction false} NoRepeat(fat: seq<nat>, first: nat, ch: seq<nat>, i: nat, j: nat)
    requires Chain(fat, first, ch) && |fat| <= RESERVED_START && i < j < |ch|
    ensures ch[i] != ch[j]
    decreases |ch| - j
  {
    assert fat[ch[i]] == ch[i + 1];
    if j + 1 < |ch| {
      NoRepeat(fat, first, ch, i + 1, j + 1);
      assert fat[ch[j]] == ch[j + 1];
    }
  }

  lemma {:induction false} ChainIsUnique(fat: seq<nat>, first: nat, a: seq<nat>, b: seq<nat>)
    requires Chain(fat, first, a) && Chain(fat, first, b) && |fat| <= RESERVED_START
    ensures a == b
  {
    forall i | 0 <= i < |a| && i < |b|
      ensures a[i] == b[i] && (i == |a| - 1 <==> i == |b| - 1)
    {
      SamePrefix(fat, first, a, b, i);
    }
  }

  lemma {:induction false} SamePrefix(fat: seq<nat>, first: nat, a: seq<nat>, b: seq<nat>, i: nat)
    requires Chain(fat, first, a) && Chain(fat, first, b) && i < |a| && i < |b| && |fat| <= RESERVED_START
    ensures a[i] == b[i] && (i == |a| - 1 <==> i == |b| - 1)
  {
    if i > 0 {
      SamePrefix(fat, first, a, b, i - 1);
    }
    assert i < |a| - 1 ==> fat[a[i]] == a[i + 1];
    assert i < |b| - 1 ==> fat[b[i]] == b[i + 1];
  }

  /** Distinct clusters of a volume with n table entries number at most n - 2. */
  lemma ChainIsShort(ch: seq<nat>, n: nat)
    requires Distinct(ch) && forall i :: 0 <= i < |ch| ==> 2 <= ch[i] < n
    ensures |ch| == 0 || |ch| <= n - 2
  {
    if ch != [] {
      assert 2 <= ch[0] < n;
      BoundedDistinct([0, 1] + ch, n);
    }
  }

  /** Table entries outside a chain do not matter to it. */
  lemma ChainFrame(fat: seq<nat>, fat': seq<nat>, first: nat, ch: seq<nat>)
    requires Chain(fat, first, ch) && |fat'| == |fat|
    requires forall i :: 0 <= i < |ch| ==> fat'[ch[i]] == fat[ch[i]]
    ensures Chain(fat', first, ch)
  {
  }

  /** Linking a fresh cluster behind the last one lengthens the chain by it. */
  lemma ChainExtend(fat: seq<nat>, first: nat, ch: seq<nat>, c: nat)
    requires Chain(fat, first, ch) && ch != [] && 2 <= c < |fat| <= RESERVED_START && c !in ch
    ensures ch[|ch| - 1] < |fat|
    ensures Chain(fat[c := EOC_MARK][ch[|ch| - 1] := c], first, ch + [c])
  {
    ChainIsDistinct(fat, first, ch);
    var fat' := fat[c := EOC_MARK][ch[|ch| - 1] := c];
    var ch' := ch + [c];
    forall i | 0 <= i < |ch'| - 1
      ensures fat'[ch'[i]] == ch'[i + 1]
    {
      assert ch'[i] == ch[i];
    }
  }

  /** Marking a cluster of a chain as the end cuts the chain there. */
  lemma ChainCut(fat: seq<nat>, first: nat, ch: seq<nat>, k: nat)
    requires Chain(fat, first, ch) && 0 < k <= |ch| && |fat| <= RESERVED_START
    ensures Chain(fat[ch[k - 1] := EOC_MARK], first, ch[..k])
  {
    ChainIsDistinct(fat, first, ch);
  }

  // ---------------------------------------------------------------- ownership

  ghost predicate InChains(chains: seq<seq<nat>>, c: nat)
  {
    exists e, i :: 0 <= e < |chains| && 0 <= i < |chains[e]| && chains[e][i] == c
  }

  /** No cluster occurs twice, in one chain or in two. */
  ghost predicate Disjoint(chains: seq<seq<nat>>)
  {
    forall e, i, e', i' | 0 <= e < |chains| && 0 <= i < |chains[e]| && 0 <= e' < |chains| && 0 <= i' < |chains[e']| ::
      chains[e][i] == chains[e'][i'] ==> e == e' && i == i'
  }

  ghost predicate ChainsMatch(v: Volume, chains: seq<seq<nat>>)
  {
    && |chains| == |v.dir|
    && forall e :: 0 <= e < |v.dir| ==>
         if v.dir[e].IsFile() then Chain(v.fat, v.dir[e].first, chains[e]) else chains[e] == []
  }

  /** Every cluster is free, or in exactly one file's chain, or one of `other` (directories, bad
      clusters): nothing is lost and nothing is owned twice. */
  ghost predicate Partition(v: Volume, chains: seq<seq<nat>>, other: set<nat>)
  {
    && Disjoint(chains)
    && (forall e, i :: 0 <= e < |chains| && 0 <= i < |chains[e]| ==>
          2 <= chains[e][i] < |v.fat| && chains[e][i] !in other)
    && (forall c :: 2 <= c < |v.fat| ==> (v.fat[c] != 0 <==> c in other || InChains(chains, c)))
  }

  ghost predicate Structure(v: Volume, chains: seq<seq<nat>>, other: set<nat>)
  {
    Shape(v) && ChainsMatch(v, chains) && Partition(v, chains, other)
  }

  // ---------------------------------------------------------------- bytes

  function ClustersFor(length: nat, bpc: nat): nat
    requires bpc > 0
  {
    length / bpc + if length % bpc != 0 then 1 else 0
  }

  /** The byte at position r of the j-th cluster of a chain, and zero beyond it. */
  function ByteIn(v: Volume, ch: seq<nat>, j: nat, r: nat): Byte
  {
    if j < |ch| && ch[j] < |v.data| && r < |v.data[ch[j]]| then v.data[ch[j]][r] else 0
  }

  /** Byte k of the clusters of a chain, read one after the other. */
  function ByteAt(v: Volume, ch: seq<nat>, k: nat): (b: Byte)
  {
    if v.bpc > 0 then ByteIn(v, ch, k / v.bpc, k % v.bpc) else 0
  }

  /** The bytes of file e. */
  function Content(v: Volume, ch: seq<nat>, length: nat): (s: seq<Byte>)
    ensures |s| == length
    ensures forall k :: 0 <= k < length ==> s[k] == ByteAt(v, ch, k)
  {
    seq(length, k requires 0 <= k < length => ByteAt(v, ch, k))
  }

  ghost predicate ZeroFrom(v: Volume, ch: seq<nat>, k: nat)
    requires v.bpc > 0
  {
    forall j: nat :: k <= j < |ch| * v.bpc ==> ByteAt(v, ch, j) == 0
  }

  /** Each file has just the clusters its length needs, and zeroes behind its last byte. */
  ghost predicate Sized(v: Volume, chains: seq<seq<nat>>)
    requires v.bpc > 0
  {
    forall e :: 0 <= e < |v.dir| && e < |chains| && v.dir[e].IsFile() ==>
      |chains[e]| == ClustersFor(v.dir[e].length, v.bpc) && ZeroFrom(v, chains[e], v.dir[e].length)
  }

  ghost predicate Wf(v: Volume, chains: seq<seq<nat>>, other: set<nat>)
  {
    Structure(v, chains, other) && Sized(v, chains)
  }

  lemma MulMonotone(a: nat, b: nat, k: nat)
    requires a <= b
    ensures a * k <= b * k
  {
  }

  /** `data` written over the bytes at `off`. */
  function Patched(s: seq<Byte>, off: nat, data: seq<Byte>): (r: seq<Byte>)
    requires off + |data| <= |s|
    ensures |r| == |s|
    ensures forall k :: 0 <= k < |s| ==> r[k] == if off <= k < off + |data| then data[k - off] else s[k]
  {
    s[..off] + data + s[off + |data|..]
  }

  /** A slice that a patch does not reach is as before. */
  lemma PatchedElsewhere(s: seq<Byte>, off: nat, data: seq<Byte>, lo: nat, hi: nat)
    requires off + |data| <= |s| && lo <= hi <= |s| && (hi <= off || off + |data| <= lo)
    ensures Patched(s, off, data)[lo..hi] == s[lo..hi]
  {
  }

  /** A patch inside a slice patches the slice. */
  lemma PatchedInside(s: seq<Byte>, off: nat, data: seq<Byte>, lo: nat, hi: nat)
    requires lo <= off && off + |data| <= hi <= |s|
    ensures Patched(s, off, data)[lo..hi] == Patched(s[lo..hi], off - lo, data)
  {
    var t, u := Patched(s, off, data), Patched(s[lo..hi], off - lo, data);
    forall k | 0 <= k < hi - lo
      ensures t[lo + k] == u[k]
    {
      assert s[lo..hi][k] == s[lo + k];
    }
  }

  lemma SliceOfSlice(s: seq<Byte>, lo: nat, hi: nat, a: nat, b: nat)
    requires lo <= hi <= |s| && a <= b <= hi - lo
    ensures s[lo..hi][a..b] == s[lo + a..lo + b]
  {
    var t := s[lo..hi];
    forall k | 0 <= k < b - a
      ensures t[a..b][k] == s[lo + a..lo + b][k]
    {
      assert t[a + k] == s[lo + a + k];
    }
  }

  /** A sparse file: `data` placed at `offset`, with zeroes in any gap before it. */
  function Spliced(s: seq<Byte>, offset: nat, data: seq<Byte>): (r: seq<Byte>)
    ensures |r| == if data == [] then |s| else if offset + |data| > |s| then offset + |data| else |s|
    ensures forall k :: 0 <= k < |r| ==>
      r[k] == if offset <= k < offset + |data| then data[k - offset] else if k < |s| then s[k] else 0
  {
    if data == [] then s
    else
      seq(if offset + |data| > |s| then offset + |data| else |s|, k requires 0 <= k =>
        if offset <= k < offset + |data| then data[k - offset] else if k < |s| then s[k] else 0)
  }

  // ---------------------------------------------------------------- free clusters

  /** How many of the first n table entries, from cluster 2 on, are free. */
  function FreeBelow(fat: seq<nat>, n: nat): nat
    requires n <= |fat|
  {
    if n <= 2 then 0 else FreeBelow(fat, n - 1) + if fat[n - 1] == 0 then 1 else 0
  }

  function FreeCount(fat: seq<nat>): nat
  {
    FreeBelow(fat, |fat|)
  }

  lemma {:induction false} FreeBelowUpdate(fat: seq<nat>, n: nat, c: nat, x: nat)
    requires n <= |fat| && 2 <= c < |fat|
    ensures FreeBelow(fat[c := x], n) ==
            FreeBelow(fat, n) + if c >= n then 0 else (if x == 0 then 1 else 0) - (if fat[c] == 0 then 1 else 0)
  {
    if n > 2 {
      FreeBelowUpdate(fat, n - 1, c, x);
    }
  }

  lemma {:induction false} FreeBelowZero(fat: seq<nat>, n: nat)
    requires n <= |fat| && forall c :: 2 <= c < n ==> fat[c] != 0
    ensures FreeBelow(fat, n) == 0
  {
    if n > 2 {
      FreeBelowZero(fat, n - 1);
    }
  }

  lemma {:induction false} FreeBelowPositive(fat: seq<nat>, n: nat, c: nat)
    requires 2 <= c < n <= |fat| && fat[c] == 0
    ensures FreeBelow(fat, n) > 0
  {
    if c < n - 1 {
      FreeBelowPositive(fat, n - 1, c);
    }
  }
}
