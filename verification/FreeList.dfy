/** The storage the K&R allocator of user/umalloc.h manages: what its circular list of free blocks
    looks like, which units belong to which block, and what each pointer operation does to both.
    Addresses and sizes count headers. */
module FreeList {
  import opened Rings
  import opened Tiling

  /** The headers in memory (`next`, `size`); the free blocks by address, base header first; all
      blocks and those handed out; and, for every unit obtained from sbrk, the block it lies in. */
  datatype Mem = Mem(next: map<nat, nat>, size: map<nat, nat>, list: seq<nat>, blocks: set<nat>, live: set<nat>,
                     owner: map<nat, nat>)

  // ---------------------------------------------------------------- the list

  ghost predicate Ascending(list: seq<nat>)
  {
    forall i, j :: 0 <= i < j < |list| ==> list[i] < list[j]
  }

  /** The free list holds the base header and every block that is not handed out. */
  ghost predicate Members(list: seq<nat>, blocks: set<nat>, live: set<nat>, base: nat)
  {
    && |list| > 0 && list[0] == base && Ascending(list)
    && live <= blocks
    && (forall b :: b in list <==> b == base || (b in blocks && b !in live))
    && (forall b :: b in blocks ==> b > base)
  }

  /** No free block touches the next one, except that those in lo..hi may. */
  ghost predicate Coalesced(size: map<nat, nat>, list: seq<nat>, lo: int, hi: int)
  {
    forall i :: 0 <= i < |list| - 1 && !(lo <= i < hi) ==> End(size, list[i]) < list[i + 1]
  }

  ghost predicate Inv(m: Mem, base: nat, lo: int, hi: int)
  {
    && base > 0 && base in m.size && m.size[base] == 0
    && Tiled(m.size, m.owner, m.blocks) && Members(m.list, m.blocks, m.live, base)
    && Linked(m.next, m.list) && Coalesced(m.size, m.list, lo, hi)
  }

  lemma InsertedAscends(list: seq<nat>, k: nat, b: nat)
    requires Ascending(list) && Between(list, k, b)
    ensures b !in list && Ascending(Inserted(list, k, b))
  {
    var r := Inserted(list, k, b);
    forall i, j | 0 <= i < j < |r|
      ensures r[i] < r[j]
    {
      if i <= k {
        assert list[i] <= list[k];
      }
      if j > k + 1 {
        assert list[k + 1] <= list[j - 1];
      }
    }
    forall i | 0 <= i < |list|
      ensures list[i] != b
    {
      assert r[k + 1] == b && list[i] == r[if i <= k then i else i + 1];
    }
  }

  lemma WithoutAscends(list: seq<nat>, k: nat)
    requires k < |list| && Ascending(list)
    ensures Ascending(Without(list, k))
    ensures forall x :: x in Without(list, k) <==> x in list && x != list[k]
  {
    WithoutMembers(list, k);
  }

  /** b belongs between the k-th free block and the one after it. */
  ghost predicate Between(list: seq<nat>, k: nat, b: nat)
  {
    k < |list| && list[k] < b && (k + 1 < |list| ==> b < list[k + 1])
  }

  // ---------------------------------------------------------------- operations

  /** A block handed out goes behind the k-th free block. */
  function Insert(m: Mem, k: nat, b: nat): Mem
    requires k < |m.list|
  {
    Mem(m.next[b := Succ(m.list, k)][m.list[k] := b], m.size, Inserted(m.list, k, b), m.blocks, m.live - {b}, m.owner)
  }

  /** The j-th free block swallows the one after it. */
  function Merge(m: Mem, j: nat): Mem
    requires j + 1 < |m.list| && m.list[j] in m.size && m.list[j + 1] in m.size && m.list[j + 1] in m.next
  {
    var a, b := m.list[j], m.list[j + 1];
    Mem(m.next[a := m.next[b]], m.size[a := m.size[a] + m.size[b]], Without(m.list, j + 1), m.blocks - {b}, m.live,
        Reowned(m.owner, b, End(m.size, b), a))
  }

  /** The i-th free block is handed out whole. */
  function Unlink(m: Mem, i: nat): Mem
    requires 0 < i < |m.list| && m.list[i] in m.next
  {
    Mem(m.next[m.list[i - 1] := m.next[m.list[i]]], m.size, Without(m.list, i), m.blocks, m.live + {m.list[i]}, m.owner)
  }

  /** The last n units of the i-th free block are handed out. */
  function Split(m: Mem, i: nat, n: nat, q: nat): Mem
    requires i < |m.list| && m.list[i] in m.size && m.size[m.list[i]] > n && q == m.list[i] + m.size[m.list[i]] - n
  {
    var a := m.list[i];
    Mem(m.next, m.size[a := m.size[a] - n][q := n], m.list, m.blocks + {q}, m.live + {q}, Reowned(m.owner, q, q + n, q))
  }

  /** n fresh units at a, as a block that is handed out. */
  function Grow(m: Mem, a: nat, n: nat): Mem
  {
    Mem(m.next, m.size[a := n], m.list, m.blocks + {a}, m.live + {a}, Reowned(m.owner, a, a + n, a))
  }

  lemma Combine(m: Mem, base: nat, lo: int, hi: int)
    requires base > 0 && base in m.size && m.size[base] == 0
    requires Tiled(m.size, m.owner, m.blocks) && Members(m.list, m.blocks, m.live, base)
    requires Linked(m.next, m.list) && Coalesced(m.size, m.list, lo, hi)
    ensures Inv(m, base, lo, hi)
  {
  }

  lemma InsertKeepsInv(m: Mem, base: nat, k: nat, b: nat)
    requires Inv(m, base, 0, 0) && b in m.live && Between(m.list, k, b)
    ensures Inv(Insert(m, k, b), base, k, k + 2)
  {
    InsertedAscends(m.list, k, b);
    InsertLinks(m.next, m.list, k, b);
    InsertedMembers(m.list, k, b);
    InsertCoalesced(m, k, b);
  }

  lemma InsertCoalesced(m: Mem, k: nat, b: nat)
    requires Coalesced(m.size, m.list, 0, 0) && k < |m.list|
    ensures Coalesced(m.size, Inserted(m.list, k, b), k, k + 2)
  {
    var list' := Inserted(m.list, k, b);
    forall i | 0 <= i < |list'| - 1 && !(k <= i < k + 2)
      ensures End(m.size, list'[i]) < list'[i + 1]
    {
      assert i > k ==> End(m.size, m.list[i - 1]) < m.list[i];
    }
  }

  lemma MergeCoalesces(size: map<nat, nat>, list: seq<nat>, j: nat, lo: int, hi: int)
    requires Coalesced(size, list, lo, hi) && Ascending(list) && lo <= j < hi && 0 <= j < |list| - 1
    requires list[j] in size && list[j + 1] in size && list[j] + size[list[j]] == list[j + 1]
    ensures Coalesced(size[list[j] := size[list[j]] + size[list[j + 1]]], Without(list, j + 1), lo, hi - 1)
  {
    var size', list' := size[list[j] := size[list[j]] + size[list[j + 1]]], Without(list, j + 1);
    forall i | 0 <= i < |list'| - 1 && !(lo <= i < hi - 1)
      ensures End(size', list'[i]) < list'[i + 1]
    {
      if i > j {
        assert End(size, list[i + 1]) < list[i + 2];
      } else if i == j {
        assert End(size', list[j]) == End(size, list[j + 1]);
        assert End(size, list[j + 1]) < list[j + 2];
      }
    }
  }

  lemma MergeMembers(list: seq<nat>, blocks: set<nat>, live: set<nat>, base: nat, k: nat)
    requires Members(list, blocks, live, base) && 0 < k < |list|
    ensures Members(Without(list, k), blocks - {list[k]}, live, base)
  {
    WithoutAscends(list, k);
    assert list[k] in list && list[k] != list[0];
  }

  lemma FreeBlock(m: Mem, base: nat, i: nat)
    requires Tiled(m.size, m.owner, m.blocks) && Members(m.list, m.blocks, m.live, base) && 0 < i < |m.list|
    ensures m.list[i] in m.blocks && m.list[i] in m.size && m.size[m.list[i]] > 0
  {
    assert m.list[i] in m.list && m.list[i] != m.list[0];
    assert Owns(m.size, m.owner, m.list[i]);
  }

  lemma MergeTiled(m: Mem, base: nat, j: nat)
    requires Tiled(m.size, m.owner, m.blocks) && Members(m.list, m.blocks, m.live, base) && Linked(m.next, m.list)
    requires 0 < j < |m.list| - 1 && End(m.size, m.list[j]) == m.list[j + 1]
    ensures m.list[j] in m.size && m.list[j + 1] in m.size && m.list[j + 1] in m.next && m.list[j] > base
    ensures var m' := Merge(m, j); Tiled(m'.size, m'.owner, m'.blocks)
  {
    FreeBlock(m, base, j);
    FreeBlock(m, base, j + 1);
    var m' := Merge(m, j);
    JoinTiles(m.size, m.owner, m.blocks, m.list[j], m.list[j + 1], m'.size, m'.owner);
  }

  lemma MergeListed(m: Mem, base: nat, j: nat, lo: int, hi: int)
    requires Members(m.list, m.blocks, m.live, base) && Linked(m.next, m.list) && Coalesced(m.size, m.list, lo, hi)
    requires lo <= j < hi && 0 < j < |m.list| - 1 && m.list[j] in m.size && m.list[j + 1] in m.size
    requires m.list[j] + m.size[m.list[j]] == m.list[j + 1]
    ensures var m' := Merge(m, j);
            Members(m'.list, m'.blocks, m'.live, base) && Linked(m'.next, m'.list) &&
              Coalesced(m'.size, m'.list, lo, hi - 1)
  {
    MergeMembers(m.list, m.blocks, m.live, base, j + 1);
    RemoveLinks(m.next, m.list, j + 1);
    MergeCoalesces(m.size, m.list, j, lo, hi);
  }

  /** Merging two touching free blocks keeps the invariant, with one pair less left to merge. */
  lemma MergeKeepsInv(m: Mem, base: nat, j: nat, lo: int, hi: int)
    requires Inv(m, base, lo, hi) && lo <= j < hi && 0 < j < |m.list| - 1 && End(m.size, m.list[j]) == m.list[j + 1]
    ensures m.list[j] in m.size && m.list[j + 1] in m.size && m.list[j + 1] in m.next
    ensures Inv(Merge(m, j), base, lo, hi - 1)
  {
    MergeTiled(m, base, j);
    MergeListed(m, base, j, lo, hi);
    Combine(Merge(m, j), base, lo, hi - 1);
  }

  lemma UnlinkKeepsInv(m: Mem, base: nat, i: nat)
    requires Inv(m, base, 0, 0) && 0 < i < |m.list|
    ensures m.list[i] in m.next && Inv(Unlink(m, i), base, 0, 0)
  {
    WithoutAscends(m.list, i);
    RemoveLinks(m.next, m.list, i);
    var list' := Without(m.list, i);
    forall j | 0 <= j < |list'| - 1
      ensures End(m.size, list'[j]) < list'[j + 1]
    {
      assert End(m.size, m.list[j]) < m.list[j + 1];
      assert j >= i ==> End(m.size, m.list[j + 1]) < m.list[j + 2];
    }
  }

  lemma SplitMembers(list: seq<nat>, blocks: set<nat>, live: set<nat>, base: nat, q: nat)
    requires Members(list, blocks, live, base) && q !in blocks && q > base
    ensures Members(list, blocks + {q}, live + {q}, base) && forall j :: 0 <= j < |list| ==> list[j] != q
  {
    assert q !in list;
  }

  lemma SplitCoalesced(size: map<nat, nat>, list: seq<nat>, a: nat, n: nat, q: nat)
    requires Coalesced(size, list, 0, 0) && a in size && size[a] > n && forall j :: 0 <= j < |list| ==> list[j] != q
    ensures Coalesced(size[a := size[a] - n][q := n], list, 0, 0)
  {
    var size' := size[a := size[a] - n][q := n];
    forall j | 0 <= j < |list| - 1
      ensures End(size', list[j]) < list[j + 1]
    {
      assert End(size', list[j]) <= End(size, list[j]) < list[j + 1];
    }
  }

  lemma SplitTiled(m: Mem, base: nat, i: nat, n: nat, q: nat)
    requires Tiled(m.size, m.owner, m.blocks) && Members(m.list, m.blocks, m.live, base) && 0 < i < |m.list| && n > 0
    requires m.list[i] in m.size && m.size[m.list[i]] > n && q == m.list[i] + m.size[m.list[i]] - n
    ensures base < m.list[i] < q && q !in m.blocks
    ensures var m' := Split(m, i, n, q); Tiled(m'.size, m'.owner, m'.blocks)
  {
    FreeBlock(m, base, i);
    var m' := Split(m, i, n, q);
    CutTiles(m.size, m.owner, m.blocks, m.list[i], n, q, m'.size, m'.owner);
  }

  lemma SplitKeepsInv(m: Mem, base: nat, i: nat, n: nat, q: nat)
    requires Inv(m, base, 0, 0) && 0 < i < |m.list| && n > 0 && m.list[i] in m.size && m.size[m.list[i]] > n
    requires q == m.list[i] + m.size[m.list[i]] - n
    ensures q !in m.blocks && Inv(Split(m, i, n, q), base, 0, 0)
  {
    SplitTiled(m, base, i, n, q);
    SplitMembers(m.list, m.blocks, m.live, base, q);
    SplitCoalesced(m.size, m.list, m.list[i], n, q);
    Combine(Split(m, i, n, q), base, 0, 0);
  }

  lemma GrowKeepsInv(m: Mem, base: nat, a: nat, n: nat)
    requires Inv(m, base, 0, 0) && n > 0 && a > base && forall u :: u in m.owner ==> u < a
    ensures Inv(Grow(m, a, n), base, 0, 0) && a !in m.blocks
  {
    var m' := Grow(m, a, n);
    GrowTiles(m.size, m.owner, m.blocks, a, n, m'.size, m'.owner);
    assert a !in m.list;
    assert forall j :: 0 <= j < |m.list| ==> m.list[j] != a;
  }
}
