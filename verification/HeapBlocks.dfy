/** The kernel heap's block list (heap.c): what keeps it sound, and what splitting, inserting and
    merging do to it. Addresses and sizes are in bytes. */
module HeapBlocks {
  import opened Common
  import opened Rings
  import opened Tiling

  const HEADER := 12
  const PAGE := 4096

  /** The block headers in memory (`size` is the payload); the list as a sequence and as a set; each
      block's extent, header included; and the block every byte obtained from the frame allocator
      lies in. */
  datatype Mem = Mem(next: map<nat, nat>, size: map<nat, nat>, free: map<nat, bool>, list: seq<nat>, blocks: set<nat>,
                     ext: map<nat, nat>, owner: map<nat, nat>)

  ghost predicate Ascending(list: seq<nat>)
  {
    forall i, j :: 0 <= i < j < |list| ==> list[i] < list[j]
  }

  /** The list holds every block, in address order. */
  ghost predicate Listed(list: seq<nat>, blocks: set<nat>)
  {
    Ascending(list) && 0 !in blocks && |blocks| == |list| && forall i :: 0 <= i < |list| ==> list[i] in blocks
  }

  /** As many distinct elements as the set has are all of it. */
  lemma {:induction false} AllListed(list: seq<nat>, blocks: set<nat>, b: nat)
    requires Distinct(list) && |blocks| == |list| && (forall i :: 0 <= i < |list| ==> list[i] in blocks) && b in blocks
    ensures b in list
    decreases |list|
  {
    var n := |list| - 1;
    if n >= 0 && list[n] != b {
      AllListed(list[..n], blocks - {list[n]}, b);
    }
  }

  predicate HasHeader(m: Mem, b: nat)
  {
    b in m.size && b in m.free && b in m.ext && m.ext[b] == HEADER + m.size[b]
  }

  ghost predicate Headed(m: Mem)
  {
    forall b :: b in m.blocks ==> HasHeader(m, b)
  }

  /** Blocks j and j + 1 are free and touch. */
  predicate Mergeable(m: Mem, j: nat)
  {
    && j + 1 < |m.list| && m.list[j] in m.free && m.list[j + 1] in m.free
    && m.free[m.list[j]] && m.free[m.list[j + 1]] && End(m.ext, m.list[j]) == m.list[j + 1]
  }

  /** No two free blocks among the first n touch. */
  ghost predicate Coalesced(m: Mem, n: int)
  {
    forall j :: 0 <= j < n ==> !Mergeable(m, j)
  }

  /** The list is in address order and its blocks share out exactly the bytes obtained. */
  ghost predicate Sound(m: Mem, head: nat)
  {
    && Chained(m.next, head, m.list) && Listed(m.list, m.blocks) && Headed(m)
    && Tiled(m.ext, m.owner, m.blocks)
  }

  lemma ListedBlock(m: Mem, head: nat, i: nat)
    requires Sound(m, head) && i < |m.list|
    ensures m.list[i] in m.blocks && HasHeader(m, m.list[i]) && m.list[i] in m.next && m.list[i] > 0
  {
  }

  lemma AscendingIsDistinct(list: seq<nat>)
    requires Ascending(list)
    ensures Distinct(list)
  {
  }

  lemma RemoveListed(list: seq<nat>, blocks: set<nat>, k: nat)
    requires Listed(list, blocks) && k < |list|
    ensures Listed(Without(list, k), blocks - {list[k]})
  {
  }

  // ---------------------------------------------------------------- merging

  /** Block j swallows the one after it. */
  function Merge(m: Mem, j: nat): Mem
    requires j + 1 < |m.list| && HasHeader(m, m.list[j]) && HasHeader(m, m.list[j + 1]) && m.list[j + 1] in m.next
  {
    var a, b := m.list[j], m.list[j + 1];
    m.(next := m.next[a := m.next[b]], size := m.size[a := m.size[a] + (HEADER + m.size[b])],
      list := Without(m.list, j + 1),
       blocks := m.blocks - {b}, ext := m.ext[a := m.ext[a] + m.ext[b]], owner := Reowned(m.owner, b, End(m.ext, b), a))
  }

  lemma KeysKept(ext: map<nat, nat>, owner: map<nat, nat>, b: nat, lo: nat, hi: nat, x: nat)
    requires Owns(ext, owner, b) && b <= lo <= hi <= End(ext, b)
    ensures Reowned(owner, lo, hi, x).Keys == owner.Keys
  {
  }

  lemma MergeTiled(m: Mem, j: nat, m': Mem)
    requires Tiled(m.ext, m.owner, m.blocks) && j + 1 < |m.list| && m.list[j] in m.blocks && m.list[j + 1] in m.blocks
    requires HasHeader(m, m.list[j]) && HasHeader(m, m.list[j + 1]) && m.list[j + 1] in m.next &&
             m.list[j] != m.list[j + 1]
    requires m' == Merge(m, j) && End(m.ext, m.list[j]) == m.list[j + 1]
    ensures Tiled(m'.ext, m'.owner, m'.blocks) && m'.owner.Keys == m.owner.Keys
  {
    var b := m.list[j + 1];
    JoinTiles(m.ext, m.owner, m.blocks, m.list[j], b, m'.ext, m'.owner);
    assert Owns(m.ext, m.owner, b);
    KeysKept(m.ext, m.owner, b, b, End(m.ext, b), m.list[j]);
  }

  lemma MergeHeaded(m: Mem, j: nat, m': Mem)
    requires Headed(m) && j + 1 < |m.list| && HasHeader(m, m.list[j]) && HasHeader(m, m.list[j + 1]) &&
             m.list[j + 1] in m.next
    requires m' == Merge(m, j)
    ensures Headed(m')
  {
    forall c | c in m'.blocks
      ensures HasHeader(m', c)
    {
      assert HasHeader(m, c);
    }
  }

  lemma MergeKeepsSound(m: Mem, head: nat, j: nat)
    requires Sound(m, head) && j + 1 < |m.list| && End(m.ext, m.list[j]) == m.list[j + 1]
    ensures HasHeader(m, m.list[j]) && HasHeader(m, m.list[j + 1]) && m.list[j + 1] in m.next
    ensures Sound(Merge(m, j), head) && Merge(m, j).owner.Keys == m.owner.Keys
  {
    ListedBlock(m, head, j);
    ListedBlock(m, head, j + 1);
    var m' := Merge(m, j);
    MergeTiled(m, j, m');
    MergeHeaded(m, j, m');
    RemoveListed(m.list, m.blocks, j + 1);
    AscendingIsDistinct(m.list);
    ChainRemove(m.next, head, m.list, j + 1);
  }

  /** Merging at j leaves the pairs before j as they were. */
  lemma MergeKeepsCoalesced(m: Mem, j: nat)
    requires Ascending(m.list) && Mergeable(m, j) && Coalesced(m, j)
    requires HasHeader(m, m.list[j]) && HasHeader(m, m.list[j + 1]) && m.list[j + 1] in m.next
    ensures Coalesced(Merge(m, j), j)
  {
    var m' := Merge(m, j);
    forall k | 0 <= k < j
      ensures !Mergeable(m', k)
    {
      assert !Mergeable(m, k) && m'.list[k] == m.list[k] && m'.list[k + 1] == m.list[k + 1] && m.list[k] != m.list[j];
    }
  }

  // ---------------------------------------------------------------- growing

  /** `b` as the k-th element. */
  function InsertedAt(list: seq<nat>, k: nat, b: nat): (r: seq<nat>)
    requires k <= |list|
    ensures |r| == |list| + 1
    ensures forall i :: 0 <= i < |r| ==> r[i] == if i < k then list[i] else if i == k then b else list[i - 1]
  {
    list[..k] + [b] + list[k..]
  }

  /** b belongs behind the first k blocks. */
  ghost predicate Belongs(list: seq<nat>, k: nat, b: nat)
  {
    k <= |list| && (k > 0 ==> list[k - 1] < b) && (k < |list| ==> b < list[k])
  }

  lemma InsertAscends(list: seq<nat>, k: nat, b: nat)
    requires Ascending(list) && Belongs(list, k, b)
    ensures Ascending(InsertedAt(list, k, b))
  {
    var r := InsertedAt(list, k, b);
    forall i, j | 0 <= i < j < |r|
      ensures r[i] < r[j]
    {
      if i < k {
        assert list[i] <= list[k - 1];
      }
      if j > k {
        assert list[k] <= list[j - 1];
      }
    }
  }

  lemma InsertListed(list: seq<nat>, blocks: set<nat>, k: nat, b: nat)
    requires Listed(list, blocks) && Belongs(list, k, b) && b > 0 && b !in blocks
    ensures Listed(InsertedAt(list, k, b), blocks + {b})
  {
    InsertAscends(list, k, b);
  }

  /** A fresh free block of n bytes at b, behind the first k blocks. */
  function InsertFree(m: Mem, k: nat, b: nat, n: nat, next: map<nat, nat>): Mem
    requires k <= |m.list| && n >= HEADER
  {
    Mem(next, m.size[b := n - HEADER], m.free[b := true], InsertedAt(m.list, k, b), m.blocks + {b}, m.ext[b := n],
        Reowned(m.owner, b, b + n, b))
  }

  lemma InsertHeaded(m: Mem, k: nat, b: nat, n: nat, next: map<nat, nat>)
    requires Headed(m) && k <= |m.list| && n >= HEADER
    ensures Headed(InsertFree(m, k, b, n, next))
  {
    var m' := InsertFree(m, k, b, n, next);
    forall c | c in m'.blocks
      ensures HasHeader(m', c)
    {
      assert c != b ==> HasHeader(m, c);
    }
  }

  lemma InsertTiled(m: Mem, k: nat, b: nat, n: nat, next: map<nat, nat>, m': Mem)
    requires Tiled(m.ext, m.owner, m.blocks) && k <= |m.list| && n > HEADER && forall u :: u in m.owner ==>
             !(b <= u < b + n)
    requires m' == InsertFree(m, k, b, n, next)
    ensures b !in m.blocks && Tiled(m'.ext, m'.owner, m'.blocks)
  {
    GrowTiles(m.ext, m.owner, m.blocks, b, n, m'.ext, m'.owner);
  }

  lemma InsertKeepsSound(m: Mem, head: nat, head': nat, k: nat, b: nat, n: nat, next: map<nat, nat>)
    requires Sound(m, head) && Belongs(m.list, k, b) && b > 0 && n > HEADER
    requires forall u :: u in m.owner ==> !(b <= u < b + n)
    requires Chained(next, head', InsertedAt(m.list, k, b))
    ensures Sound(InsertFree(m, k, b, n, next), head') && b !in m.blocks
  {
    InsertTiled(m, k, b, n, next, InsertFree(m, k, b, n, next));
    InsertListed(m.list, m.blocks, k, b);
    InsertHeaded(m, k, b, n, next);
  }

  // ---------------------------------------------------------------- splitting

  /** Block i keeps `want` bytes and the rest becomes a free block behind it. */
  function Split(m: Mem, i: nat, want: nat, q: nat): Mem
    requires i < |m.list| && HasHeader(m, m.list[i]) && m.size[m.list[i]] > want + HEADER &&
             q == m.list[i] + HEADER + want && m.list[i] in m.next
  {
    var a := m.list[i];
    var rest := m.size[a] - want;
    Mem(m.next[q := m.next[a]][a := q], m.size[q := rest - HEADER][a := want], m.free[q := true],
      Inserted(m.list, i, q),
        m.blocks + {q}, m.ext[a := m.ext[a] - rest][q := rest], Reowned(m.owner, q, q + rest, q))
  }

  lemma SplitTiled(m: Mem, a: nat, rest: nat, q: nat, ext': map<nat, nat>, owner': map<nat, nat>)
    requires Tiled(m.ext, m.owner, m.blocks) && a in m.blocks && a in m.ext && 0 < rest < m.ext[a] &&
             q == a + m.ext[a] - rest
    requires ext' == m.ext[a := m.ext[a] - rest][q := rest] && owner' == Reowned(m.owner, q, q + rest, q)
    ensures q !in m.blocks && Tiled(ext', owner', m.blocks + {q})
  {
    CutTiles(m.ext, m.owner, m.blocks, a, rest, q, ext', owner');
  }

  lemma SplitMaps(m: Mem, i: nat, want: nat, q: nat, m': Mem, a: nat, rest: nat)
    requires i < |m.list| && a == m.list[i] && HasHeader(m, a) && a in m.next
    requires m.size[a] > want + HEADER && q == a + HEADER + want && m' == Split(m, i, want, q) &&
             rest == m.size[a] - want
    ensures m'.ext == m.ext[a := m.ext[a] - rest][q := rest] && m'.owner == Reowned(m.owner, q, q + rest, q) &&
            m'.blocks == m.blocks + {q}
    ensures 0 < rest < m.ext[a] && q == a + m.ext[a] - rest
  {
  }

  lemma SplitParts(m: Mem, i: nat, want: nat, q: nat, m': Mem)
    requires Tiled(m.ext, m.owner, m.blocks) && i < |m.list| && m.list[i] in m.blocks && HasHeader(m, m.list[i]) &&
             m.list[i] in m.next
    requires m.size[m.list[i]] > want + HEADER && q == m.list[i] + HEADER + want && m' == Split(m, i, want, q)
    ensures q !in m.blocks && Tiled(m'.ext, m'.owner, m'.blocks)
  {
    var a := m.list[i];
    var rest := m.size[a] - want;
    SplitMaps(m, i, want, q, m', a, rest);
    SplitTiled(m, a, rest, q, m'.ext, m'.owner);
  }

  lemma SplitKeys(m: Mem, i: nat, want: nat, q: nat, m': Mem)
    requires Tiled(m.ext, m.owner, m.blocks) && i < |m.list| && m.list[i] in m.blocks && HasHeader(m, m.list[i]) &&
             m.list[i] in m.next
    requires m.size[m.list[i]] > want + HEADER && q == m.list[i] + HEADER + want && m' == Split(m, i, want, q)
    ensures m'.owner.Keys == m.owner.Keys
  {
    var a := m.list[i];
    assert Owns(m.ext, m.owner, a);
    KeysKept(m.ext, m.owner, a, q, q + (m.size[a] - want), q);
  }

  lemma SplitHeaded(m: Mem, i: nat, want: nat, q: nat, m': Mem)
    requires Headed(m) && i < |m.list| && m.list[i] in m.blocks && HasHeader(m, m.list[i]) && m.list[i] in m.next &&
             q !in m.blocks
    requires m.size[m.list[i]] > want + HEADER && q == m.list[i] + HEADER + want && m' == Split(m, i, want, q)
    ensures Headed(m')
  {
    forall c | c in m'.blocks
      ensures HasHeader(m', c)
    {
      assert c != q ==> HasHeader(m, c);
    }
  }

  /** Putting q behind the i-th element of a null-terminated list. */
  lemma SplitChain(next: map<nat, nat>, head: nat, list: seq<nat>, i: nat, q: nat)
    requires Chained(next, head, list) && Distinct(list) && i < |list| && q !in list
    ensures Chained(next[q := next[list[i]]][list[i] := q], head, Inserted(list, i, q))
  {
    var next', list' := next[q := next[list[i]]][list[i] := q], Inserted(list, i, q);
    forall k | 0 <= k < |list'|
      ensures list'[k] in next' && next'[list'[k]] == At(list', k + 1)
    {
      if k <= i {
        assert next[list[k]] == At(list, k + 1);
      } else {
        assert next[list[k - 1]] == At(list, k);
      }
    }
  }

  lemma SplitKeepsSound(m: Mem, head: nat, i: nat, want: nat, q: nat)
    requires Sound(m, head) && i < |m.list| && m.list[i] in m.size && m.size[m.list[i]] > want + HEADER &&
             q == m.list[i] + HEADER + want
    ensures HasHeader(m, m.list[i]) && m.list[i] in m.next && q !in m.blocks
    ensures Sound(Split(m, i, want, q), head) && Split(m, i, want, q).owner.Keys == m.owner.Keys
  {
    ListedBlock(m, head, i);
    var m' := Split(m, i, want, q);
    SplitParts(m, i, want, q, m');
    SplitKeys(m, i, want, q, m');
    SplitHeaded(m, i, want, q, m');
    AscendingIsDistinct(m.list);
    assert q !in m.list;
    SplitChain(m.next, head, m.list, i, q);
    if i + 1 < |m.list| {
      ListedBlock(m, head, i + 1);
      BlocksApart(m.ext, m.owner, m.blocks, m.list[i], m.list[i + 1]);
    }
    InsertListed(m.list, m.blocks, i + 1, q);
    assert InsertedAt(m.list, i + 1, q) == Inserted(m.list, i, q);
  }

  // ---------------------------------------------------------------- what callers rely on

  /** Blocks in use stay in use with their sizes. */
  ghost predicate UsedKept(m: Mem, m': Mem)
  {
    forall c :: c in m.blocks && c in m.free && !m.free[c] && c in m.size ==>
      c in m'.blocks && c in m'.free && !m'.free[c] && c in m'.size && m'.size[c] == m.size[c]
  }

  /** Some free block has n bytes. */
  ghost predicate HasFit(m: Mem, n: nat)
  {
    exists b :: b in m.blocks && IsFit(m, b, n)
  }

  predicate IsFit(m: Mem, b: nat, n: nat)
  {
    b in m.free && b in m.size && m.free[b] && m.size[b] >= n
  }

  lemma MergeKeepsUsers(m: Mem, j: nat, n: nat)
    requires Mergeable(m, j) && HasHeader(m, m.list[j]) && HasHeader(m, m.list[j + 1]) && m.list[j + 1] in m.next
    requires m.list[j] in m.blocks && m.list[j] != m.list[j + 1]
    ensures UsedKept(m, Merge(m, j)) && (HasFit(m, n) ==> HasFit(Merge(m, j), n))
  {
    var m' := Merge(m, j);
    if HasFit(m, n) {
      var b :| b in m.blocks && IsFit(m, b, n);
      var w := if b == m.list[j + 1] then m.list[j] else b;
      assert w in m'.blocks && IsFit(m', w, n);
    }
  }

  lemma UsedKeptTwice(m: Mem, m1: Mem, m2: Mem)
    requires UsedKept(m, m1) && UsedKept(m1, m2)
    ensures UsedKept(m, m2)
  {
  }

  /** A byte was obtained exactly if it lies in a block. */
  lemma ByteIsOwned(m: Mem, head: nat, u: nat)
    requires Sound(m, head)
    ensures u in m.owner <==> exists i :: 0 <= i < |m.list| && m.list[i] <= u < End(m.ext, m.list[i])
  {
    if u in m.owner {
      AscendingIsDistinct(m.list);
      AllListed(m.list, m.blocks, m.owner[u]);
    }
    forall i | 0 <= i < |m.list| && m.list[i] <= u < End(m.ext, m.list[i])
      ensures u in m.owner
    {
      ListedBlock(m, head, i);
      assert Owns(m.ext, m.owner, m.list[i]);
    }
  }
}
