/** malloc and free of user/umalloc.h: a circular first-fit search that grows the heap at most once,
    and a free that finds the block's place and coalesces both ways. */
module Umalloc {
  import opened Common
  import opened Rings
  import opened Tiling
  import opened FreeList

  const HEADER := 8
  const NALLOC := 1024
  const UINT32_LIMIT := 0x1_0000_0000

  // ---------------------------------------------------------------- giving a block back

  /** Free blocks j and j + 1 touch. */
  predicate Touch(m: Mem, j: nat)
  {
    && j + 1 < |m.list| && m.list[j] in m.size && m.list[j + 1] in m.size && m.list[j + 1] in m.next
    && End(m.size, m.list[j]) == m.list[j + 1]
  }

  function MergeIf(m: Mem, j: nat): Mem
  {
    if Touch(m, j) then Merge(m, j) else m
  }

  /** If blocks j and j + 1 do not touch there is nothing to merge there. */
  lemma NoTouch(m: Mem, base: nat, j: nat, lo: int, hi: int)
    requires Inv(m, base, lo, hi) && lo <= j == hi - 1 && j < |m.list| && !Touch(m, j)
    ensures Inv(m, base, lo, hi - 1)
  {
    if j + 1 < |m.list| {
      assert m.list[j + 1] in m.list && m.list[j + 1] != m.list[0];
      if j > 0 {
        FreeBlock(m, base, j);
        FreeBlock(m, base, j + 1);
        BlocksApart(m.size, m.owner, m.blocks, m.list[j], m.list[j + 1]);
      }
      assert End(m.size, m.list[j]) < m.list[j + 1];
    }
  }

  lemma MergeStep(m: Mem, base: nat, j: nat, lo: int, hi: int)
    requires Inv(m, base, lo, hi) && lo <= j == hi - 1 && j < |m.list|
    ensures Touch(m, j) ==> j > 0
    ensures Inv(MergeIf(m, j), base, lo, hi - 1)
  {
    if Touch(m, j) {
      MergeKeepsInv(m, base, j, lo, hi);
    } else {
      NoTouch(m, base, j, lo, hi);
    }
  }

  /** Block b, handed out before, goes behind free block k and merges with its neighbours. */
  function Released(m: Mem, k: nat, b: nat): Mem
    requires k < |m.list|
  {
    MergeIf(MergeIf(Insert(m, k, b), k + 1), k)
  }

  lemma ReleasedKeepsInv(m: Mem, base: nat, k: nat, b: nat)
    requires Inv(m, base, 0, 0) && b in m.live && Between(m.list, k, b)
    ensures Inv(Released(m, k, b), base, 0, 0)
  {
    InsertKeepsInv(m, base, k, b);
    var m1 := Insert(m, k, b);
    MergeStep(m1, base, k + 1, k, k + 2);
    var m2 := MergeIf(m1, k + 1);
    MergeStep(m2, base, k, k, k + 1);
  }

  /** `b` is free and every other block is handed out or not as before, with the same size if it is. */
  ghost predicate Kept(m: Mem, m': Mem, live: set<nat>)
  {
    && m'.live == live && m'.owner.Keys == m.owner.Keys
    && forall a :: a in live && a in m.size ==> a in m'.size && m'.size[a] == m.size[a]
  }

  /** Some free block has n units. */
  ghost predicate HasFit(m: Mem, n: nat)
  {
    exists i :: 0 < i < |m.list| && Fits(m, i, n)
  }

  predicate Fits(m: Mem, i: nat, n: nat)
    requires i < |m.list|
  {
    m.list[i] in m.size && m.size[m.list[i]] >= n
  }

  lemma MergeKeeps(m: Mem, base: nat, j: nat)
    requires Tiled(m.size, m.owner, m.blocks) && Members(m.list, m.blocks, m.live, base) && j < |m.list| &&
             (Touch(m, j) ==> j > 0)
    ensures Kept(m, MergeIf(m, j), m.live) && |MergeIf(m, j).list| > j && MergeIf(m, j).list[..j + 1] == m.list[..j + 1]
  {
    if Touch(m, j) {
      FreeBlock(m, base, j);
      FreeBlock(m, base, j + 1);
      var b := m.list[j + 1];
      assert Owns(m.size, m.owner, b);
      assert Merge(m, j).owner.Keys == m.owner.Keys;
      assert m.list[j] in m.list && m.list[j] !in m.live;
    }
  }

  lemma MergeKeepsFit(m: Mem, j: nat, i: nat, n: nat)
    requires Ascending(m.list) && 0 < i < |m.list| && Fits(m, i, n) && (Touch(m, j) ==> j > 0)
    ensures HasFit(MergeIf(m, j), n)
  {
    if Touch(m, j) {
      var m' := Merge(m, j);
      var i' := if i <= j then i else i - 1;
      assert m'.list[i'] == if i == j + 1 then m.list[j] else m.list[i];
      assert Fits(m', i', n);
    } else {
      assert Fits(MergeIf(m, j), i, n);
    }
  }

  lemma KeptTwice(m: Mem, m1: Mem, m2: Mem, live: set<nat>)
    requires Kept(m, m1, live) && Kept(m1, m2, live)
    ensures Kept(m, m2, live)
  {
  }

  /** After the insertion and the first merge, b is still free block k + 1 and has not shrunk. */
  lemma MergedUp(m: Mem, base: nat, k: nat, b: nat)
    requires Inv(m, base, 0, 0) && b in m.live && Between(m.list, k, b)
    ensures var m2 := MergeIf(Insert(m, k, b), k + 1);
            && Inv(m2, base, k, k + 1) && Kept(m, m2, m.live - {b})
            && k + 1 < |m2.list| && m2.list[k] == m.list[k] && m2.list[k + 1] == b
            && b in m.size && b in m2.size && m2.size[b] >= m.size[b]
  {
    assert Owns(m.size, m.owner, b);
    InsertKeepsInv(m, base, k, b);
    var m1 := Insert(m, k, b);
    MergeStep(m1, base, k + 1, k, k + 2);
    MergeKeeps(m1, base, k + 1);
    var m2 := MergeIf(m1, k + 1);
    assert m2.list[k + 1] == m1.list[..k + 2][k + 1];
    assert m2.list[k] == m1.list[..k + 2][k];
  }

  /** Giving a block back touches no other block that is handed out, takes no unit away, leaves the
      k-th header listed, and leaves a free block at least as large. */
  lemma ReleasedFacts(m: Mem, base: nat, k: nat, b: nat)
    requires Inv(m, base, 0, 0) && b in m.live && Between(m.list, k, b)
    ensures var m' := Released(m, k, b);
            && Inv(m', base, 0, 0) && Kept(m, m', m.live - {b}) && k < |m'.list| && m'.list[k] == m.list[k]
            && b in m.size && HasFit(m', m.size[b])
  {
    MergedUp(m, base, k, b);
    var m2 := MergeIf(Insert(m, k, b), k + 1);
    var m' := MergeIf(m2, k);
    ReleasedKeepsInv(m, base, k, b);
    MergeStep(m2, base, k, k, k + 1);
    MergeKeeps(m2, base, k);
    KeptTwice(m, m2, m', m.live - {b});
    MergeKeepsFit(m2, k, k + 1, m.size[b]);
    assert m'.list[k] == m'.list[..k + 1][k] == m2.list[..k + 1][k];
  }

  /** The stores of free(), with p the k-th free block and b the block given back. */
  function SizeAfter(size: map<nat, nat>, p: nat, b: nat, n: nat): map<nat, nat>
    requires p in size && b in size
  {
    var size1 := if b + size[b] == n && n in size then size[b := size[b] + size[n]] else size;
    if p + size1[p] == b then size1[p := size1[p] + size1[b]] else size1
  }

  function NextAfter(next: map<nat, nat>, size: map<nat, nat>, p: nat, b: nat, n: nat): map<nat, nat>
    requires p in size && b in size && n in next
  {
    var up := if b + size[b] == n then next[n] else n;
    next[b := up][p := if p + size[p] == b then up else b]
  }

  /** The neighbours of a block that is being given back. */
  lemma Neighbours(m: Mem, base: nat, k: nat, b: nat)
    requires Inv(m, base, 0, 0) && b in m.live && Between(m.list, k, b)
    ensures var p, n := m.list[k], Succ(m.list, k);
            && p in m.size && b in m.size && n in m.size && n in m.next && p in m.next && p != b && n != b
            && (k + 1 == |m.list| ==> n < b) && (k + 1 < |m.list| ==> n != p)
  {
    assert Owns(m.size, m.owner, b) && b !in m.list;
    if k > 0 {
      FreeBlock(m, base, k);
    }
    if k + 1 < |m.list| {
      FreeBlock(m, base, k + 1);
    }
  }

  lemma UpStores(m: Mem, k: nat, b: nat, p: nat, n: nat)
    requires k < |m.list| && p == m.list[k] && n == Succ(m.list, k) && Ascending(m.list) && n in m.next &&
             n in m.size && b in m.size
    requires p != b && n != b && (k + 1 == |m.list| ==> n < b) && (k + 1 < |m.list| ==> n != p)
    ensures var m2 := MergeIf(Insert(m, k, b), k + 1);
            && m2.size == (if b + m.size[b] == n then m.size[b := m.size[b] + m.size[n]] else m.size)
            && m2.next == (if b + m.size[b] == n then m.next[b := n][p := b][b := m.next[n]]
               else m.next[b := n][p := b])
            && k + 1 < |m2.list| && m2.list[k] == p && m2.list[k + 1] == b
  {
    var m1 := Insert(m, k, b);
    assert m1.list[k + 1] == b && m1.list[k] == p;
    assert k + 1 < |m.list| ==> m1.list[k + 2] == n;
  }

  lemma DownStores(m: Mem, k: nat, b: nat, p: nat)
    requires k + 1 < |m.list| && m.list[k] == p && m.list[k + 1] == b && p in m.size && b in m.size && b in m.next
    ensures var m' := MergeIf(m, k);
            && m'.size == (if p + m.size[p] == b then m.size[p := m.size[p] + m.size[b]] else m.size)
            && m'.next == (if p + m.size[p] == b then m.next[p := m.next[b]] else m.next)
  {
  }

  lemma MapsAgree(next: map<nat, nat>, size: map<nat, nat>, p: nat, b: nat, n: nat,
                  size2: map<nat, nat>, next2: map<nat, nat>, size3: map<nat, nat>, next3: map<nat, nat>)
    requires p in size && b in size && n in size && n in next && p in next && p != b && n != b
    requires size2 == if b + size[b] == n then size[b := size[b] + size[n]] else size
    requires next2 == if b + size[b] == n then next[b := n][p := b][b := next[n]] else next[b := n][p := b]
    requires size3 == if p + size2[p] == b then size2[p := size2[p] + size2[b]] else size2
    requires next3 == if p + size2[p] == b then next2[p := next2[b]] else next2
    ensures size3 == SizeAfter(size, p, b, n) && next3 == NextAfter(next, size, p, b, n)
  {
    assert size2[p] == size[p];
  }

  lemma StoresAgree(m: Mem, k: nat, b: nat, p: nat, n: nat)
    requires k < |m.list| && p == m.list[k] && n == Succ(m.list, k) && Ascending(m.list)
    requires p in m.size && b in m.size && n in m.size && n in m.next && p in m.next && p != b && n != b
    requires (k + 1 == |m.list| ==> n < b) && (k + 1 < |m.list| ==> n != p)
    ensures Released(m, k, b).size == SizeAfter(m.size, p, b, n)
    ensures Released(m, k, b).next == NextAfter(m.next, m.size, p, b, n)
  {
    UpStores(m, k, b, p, n);
    var m2 := MergeIf(Insert(m, k, b), k + 1);
    DownStores(m2, k, b, p);
    var m3 := MergeIf(m2, k);
    MapsAgree(m.next, m.size, p, b, n, m2.size, m2.next, m3.size, m3.next);
  }

  /** What free() stores is what giving the block back means. */
  lemma ReleasedStores(m: Mem, base: nat, k: nat, b: nat)
    requires Inv(m, base, 0, 0) && b in m.live && Between(m.list, k, b)
    ensures var p, n := m.list[k], Succ(m.list, k);
            && p in m.size && b in m.size && n in m.size && n in m.next
            && Released(m, k, b).size == SizeAfter(m.size, p, b, n)
            && Released(m, k, b).next == NextAfter(m.next, m.size, p, b, n)
  {
    Neighbours(m, base, k, b);
    StoresAgree(m, k, b, m.list[k], Succ(m.list, k));
  }

  // ---------------------------------------------------------------- searching

  /** The last free block below b. */
  function Spot(list: seq<nat>, b: nat): (k: nat)
    requires |list| > 0 && list[0] < b && b !in list && Ascending(list)
    ensures Between(list, k, b)
  {
    if list[|list| - 1] < b then |list| - 1
    else
      assert forall i :: 0 <= i < |list| - 1 ==> list[..|list| - 1][i] == list[i];
      assert list[|list| - 1] in list;
      Spot(list[..|list| - 1], b)
  }

  /** How far block i is from block f, going around a list of n blocks from the one after f. */
  function Lap(n: nat, f: nat, i: nat): nat
    requires f < n && i < n
  {
    if i > f then i - f - 1 else i + n - f - 1
  }

  function After(n: nat, i: nat): (j: nat)
    requires i < n
    ensures j < n
  {
    if i + 1 < n then i + 1 else 0
  }

  /** Header units for a request, computed in 32 bits: the payload and one header. */
  function Units(nbytes: nat): (n: nat)
    ensures n > 0
  {
    (nbytes + HEADER - 1) % UINT32_LIMIT / HEADER + 1
  }

  /** The units hold the request exactly when rounding it up does not wrap around. */
  lemma PayloadFits(nbytes: nat)
    requires 0 < nbytes < UINT32_LIMIT
    ensures (Units(nbytes) - 1) * HEADER >= nbytes <==> nbytes + HEADER - 1 < UINT32_LIMIT
    ensures (Units(nbytes) - 1) * HEADER < nbytes + HEADER
  {
  }

  /** The other requests, 0xFFFFFFFF bytes among them, are granted a bare header. */
  lemma WrappedRequest(nbytes: nat)
    requires nbytes < UINT32_LIMIT <= nbytes + HEADER - 1
    ensures Units(nbytes) == 1 && Units(0xFFFF_FFFF) == 1 && (Units(0xFFFF_FFFF) - 1) * HEADER < 0xFFFF_FFFF
  {
    assert (nbytes + HEADER - 1) % UINT32_LIMIT == nbytes + HEADER - 1 - UINT32_LIMIT;
  }

  /** What a request of n units asks of sbrk. */
  function GrowUnits(n: nat): nat
  {
    if n < NALLOC then NALLOC else n
  }

  /** sbrk was asked and gave memory. */
  predicate CanGrow(n: nat, sbrk: Option<nat>)
  {
    sbrk.Some? && GrowUnits(n) <= 0x7FFF_FFFF / HEADER
  }

  /** A request that does not wrap around can be served from new memory exactly up to this size. */
  lemma ServedUpTo(nbytes: nat, sbrk: Option<nat>)
    requires 0 < nbytes && nbytes + HEADER - 1 < UINT32_LIMIT
    ensures CanGrow(Units(nbytes), sbrk) <==> sbrk.Some? && nbytes <= 0x7FFF_FFF0
    ensures nbytes <= GrowUnits(Units(nbytes)) * HEADER - HEADER
  {
    assert Units(nbytes) == (nbytes + HEADER - 1) / HEADER + 1;
  }

  // ---------------------------------------------------------------- handing a block out

  /** `q` has been handed out with n units; the blocks handed out before are as they were. */
  ghost predicate HandedOut(m: Mem, m': Mem, q: nat, n: nat)
  {
    && q !in m.live && q in m'.size && m'.size[q] == n && m'.live == m.live + {q}
    && forall a :: a in m.live && a in m.size ==> a in m'.size && m'.size[a] == m.size[a]
  }

  lemma UnlinkFacts(m: Mem, base: nat, i: nat, n: nat)
    requires Inv(m, base, 0, 0) && 0 < i < |m.list| && m.list[i] in m.size && m.size[m.list[i]] == n
    ensures m.list[i] in m.next && HandedOut(m, Unlink(m, i), m.list[i], n)
    ensures Unlink(m, i).list[i - 1] == m.list[i - 1]
  {
    assert m.list[i] in m.list && m.list[i] != m.list[0];
  }

  lemma SplitFacts(m: Mem, base: nat, i: nat, n: nat, q: nat)
    requires Inv(m, base, 0, 0) && 0 < i < |m.list| && n > 0 && m.list[i] in m.size && m.size[m.list[i]] > n
    requires q == m.list[i] + m.size[m.list[i]] - n
    ensures HandedOut(m, Split(m, i, n, q), q, n) && Split(m, i, n, q).owner.Keys == m.owner.Keys
  {
    SplitTiled(m, base, i, n, q);
    FreeBlock(m, base, i);
    assert Owns(m.size, m.owner, m.list[i]);
    assert m.list[i] in m.list && m.list[i] !in m.live;
    assert Split(m, i, n, q).owner.Keys == m.owner.Keys;
  }

  /** A search that is at block i, having started behind block f, has met no fit so far. */
  ghost predicate Searching(m: Mem, f: nat, i: nat, n: nat)
  {
    && f < |m.list| && i < |m.list|
    && forall j :: 0 <= j < |m.list| && Lap(|m.list|, f, j) < Lap(|m.list|, f, i) ==> !Fits(m, j, n)
  }

  lemma AtBlock(m: Mem, base: nat, i: nat)
    requires Inv(m, base, 0, 0) && i < |m.list|
    ensures m.list[i] in m.size && (i == 0 ==> m.size[m.list[i]] == 0)
    ensures m.list[i] in m.next && m.next[m.list[i]] == m.list[After(|m.list|, i)]
    ensures forall j :: 0 <= j < |m.list| && m.list[j] == m.list[i] ==> j == i
  {
    if i > 0 {
      FreeBlock(m, base, i);
    }
  }

  lemma SearchOn(m: Mem, f: nat, i: nat, n: nat)
    requires Searching(m, f, i, n) && !Fits(m, i, n) && i != f
    ensures Searching(m, f, After(|m.list|, i), n)
    ensures Lap(|m.list|, f, After(|m.list|, i)) == Lap(|m.list|, f, i) + 1 < |m.list|
  {
  }

  /** Back at block f without a fit: there is none in the list. */
  lemma SearchEnds(m: Mem, f: nat, n: nat)
    requires Searching(m, f, f, n) && !Fits(m, f, n)
    ensures !HasFit(m, n)
  {
    assert forall j :: 0 <= j < |m.list| && j != f ==> Lap(|m.list|, f, j) < Lap(|m.list|, f, f);
  }

  // ---------------------------------------------------------------- the allocator

  class Allocator {
    const base: nat
    var next: map<nat, nat>
    var size: map<nat, nat>
    var freep: nat
    ghost var mem: Mem

    /** Before the first malloc there is no list; then the list is sound and freep points into it. */
    ghost predicate Valid()
      reads this
    {
      && base > 0 && mem.next == next && mem.size == size
      && if freep == 0 then mem == Mem(map[], map[], [], {}, {}, map[]) else Inv(mem, base, 0, 0) && freep in mem.list
    }

    constructor (header: nat)
      requires header > 0
      ensures Valid() && base == header && freep == 0
    {
      base, next, size, freep := header, map[], map[], 0;
      mem := Mem(map[], map[], [], {}, {}, map[]);
    }

    /** The search loop of free(): the free block that b goes behind. */
    method FindPlace(b: nat) returns (p: nat, ghost k: nat)
      requires Valid() && b in mem.live
      ensures k < |mem.list| && p == mem.list[k] && Between(mem.list, k, b)
    {
      assert b !in mem.list && b > base;
      ghost var list := mem.list;
      ghost var spot, n := Spot(list, b), |list|;
      ghost var i: nat :| i < n && list[i] == freep;
      p := freep;
      while !(b > p && b < next[p])
        invariant i < n && p == list[i]
        decreases if i <= spot then spot - i else spot + n - i
      {
        if p >= next[p] && (b > p || b < next[p]) {
          break;
        }
        p := next[p];
        i := After(n, i);
      }
      k := i;
      if i + 1 == n {
        assert next[p] == list[0];
      } else {
        assert next[p] == list[i + 1];
      }
    }

    /** free(): nothing for a null pointer; otherwise the block is free and coalesced, and no other
        block that is handed out changes. */
    method Free(ap: nat)
      requires Valid() && (ap != 0 ==> ap - 1 in mem.live)
      modifies this
      ensures Valid()
      ensures ap == 0 ==> mem == old(mem) && freep == old(freep)
      ensures ap != 0 ==> freep != 0 && Kept(old(mem), mem, old(mem).live - {ap - 1})
      ensures ap != 0 ==> ap - 1 in old(size) && HasFit(mem, old(size)[ap - 1])
    {
      if ap == 0 {
        return;
      }
      var b := ap - 1;
      var p, k := FindPlace(b);
      ReleasedFacts(mem, base, k, b);
      Link(p, b, k);
    }

    /** The stores of free(), b going between p and n. */
    method Store(p: nat, b: nat, n: nat)
      requires p in size && b in size && n in size && n in next && p != b && n != b
      modifies this`next, this`size
      ensures next == NextAfter(old(next), old(size), p, b, n) && size == SizeAfter(old(size), p, b, n)
    {
      if b + size[b] == n {
        size := size[b := size[b] + size[n]];
        next := next[b := next[n]];
      } else {
        next := next[b := n];
      }
      if p + size[p] == b {
        size := size[p := size[p] + size[b]];
        next := next[p := next[b]];
      } else {
        next := next[p := b];
      }
    }

    method Link(p: nat, b: nat, ghost k: nat)
      requires Valid() && freep != 0 && b in mem.live && Between(mem.list, k, b) && p == mem.list[k]
      requires Inv(Released(mem, k, b), base, 0, 0) && k < |Released(mem, k, b).list| &&
               Released(mem, k, b).list[k] == p
      modifies this
      ensures Valid() && freep == p && mem == Released(old(mem), k, b)
    {
      Neighbours(mem, base, k, b);
      ReleasedStores(mem, base, k, b);
      assert next[p] == Succ(mem.list, k);
      Store(p, b, next[p]);
      freep := p;
      mem := Released(mem, k, b);
    }

    ghost predicate Synced()
      reads this
    {
      mem.next == next && mem.size == size
    }

    method AddUnits(up: nat, n: nat)
      requires Synced()
      modifies this`size, this`mem
      ensures Synced() && mem == Grow(old(mem), up, n)
    {
      size := size[up := n];
      mem := Grow(mem, up, n);
    }

    method TakeWhole(prevp: nat, p: nat, ghost i: nat)
      requires Synced() && 0 < i < |mem.list| && p == mem.list[i] && prevp == mem.list[i - 1] && p in next
      modifies this`next, this`mem, this`freep
      ensures Synced() && mem == Unlink(old(mem), i) && freep == prevp
    {
      next := next[prevp := next[p]];
      mem := Unlink(mem, i);
      freep := prevp;
    }

    method TakeTail(prevp: nat, p: nat, nunits: nat, q: nat, ghost i: nat)
      requires Synced() && i < |mem.list| && p == mem.list[i] && p in size && size[p] > nunits &&
               q == p + size[p] - nunits
      modifies this`size, this`mem, this`freep
      ensures Synced() && mem == Split(old(mem), i, nunits, q) && freep == prevp
    {
      size := size[p := size[p] - nunits][q := nunits];
      mem := Split(mem, i, nunits, q);
      freep := prevp;
    }

    /** umalloc_morecore: at least NALLOC fresh units from sbrk become a free block. */
    method MoreCore(nu: nat, sbrk: Option<nat>) returns (p: nat)
      requires Valid() && freep != 0
      requires sbrk.Some? ==> sbrk.value > base && forall u :: u in mem.owner ==> u < sbrk.value
      modifies this
      ensures Valid() && freep != 0 && p == (if CanGrow(nu, sbrk) then freep else 0)
      ensures p == 0 ==> mem == old(mem) && freep == old(freep)
      ensures p != 0 ==> Grew(old(mem), mem, sbrk.value, GrowUnits(nu)) && HasFit(mem, nu)
    {
      var n := if nu < NALLOC then NALLOC else nu;
      if n > 0x7FFF_FFFF / HEADER || sbrk.None? {
        return 0;
      }
      var up := sbrk.value;
      ghost var m := mem;
      GrowKeepsInv(m, base, up, n);
      GrowFacts(m, base, up, n);
      AddUnits(up, n);
      Free(up + 1);
      GrewThenFreed(m, mem, up, n, nu);
      p := freep;
    }

    /** The allocation branch of malloc: block p behind prevp is handed out, whole or its tail. */
    method Take(prevp: nat, p: nat, nunits: nat, ghost i: nat) returns (q: nat)
      requires Valid() && freep != 0 && 0 < i < |mem.list| && p == mem.list[i] && prevp == mem.list[i - 1]
      requires nunits > 0 && Fits(mem, i, nunits)
      modifies this
      ensures Valid() && freep != 0 && HandedOut(old(mem), mem, q, nunits) && mem.owner.Keys == old(mem).owner.Keys
    {
      PredecessorListed(mem, base, i);
      if size[p] == nunits {
        q := p;
        UnlinkFacts(mem, base, i, nunits);
        UnlinkKeepsInv(mem, base, i);
        TakeWhole(prevp, p, i);
      } else {
        q := p + size[p] - nunits;
        SplitFacts(mem, base, i, nunits, q);
        SplitKeepsInv(mem, base, i, nunits, q);
        TakeTail(prevp, p, nunits, q, i);
      }
    }

    /** The first call: the list is the base header alone. */
    method Start()
      requires Valid() && freep == 0
      modifies this
      ensures Valid() && freep != 0 && mem == Mem(map[base := base], map[base := 0], [base], {}, {}, map[])
    {
      next, size, freep := map[base := base], map[base := 0], base;
      mem := Mem(next, size, [base], {}, {}, map[]);
    }

    /** The search loop of malloc, once around the list: a block is handed out exactly if one fits. */
    method Round(nunits: nat) returns (found: bool, q: nat)
      requires Valid() && freep != 0 && nunits > 0
      modifies this
      ensures Valid() && freep != 0 && (found <==> HasFit(old(mem), nunits))
      ensures found ==> HandedOut(old(mem), mem, q, nunits) && mem.owner.Keys == old(mem).owner.Keys
      ensures !found ==> mem == old(mem) && freep == old(freep)
    {
      ghost var n := |mem.list|;
      ghost var f: nat :| f < n && mem.list[f] == freep;
      ghost var pi: nat, i: nat := f, After(n, f);
      AtBlock(mem, base, f);
      var prevp := freep;
      var p := next[prevp];
      assert Lap(n, f, i) == 0;
      while true
        invariant Synced() && mem == old(mem) && freep == old(freep)
        invariant Searching(mem, f, i, nunits) && pi < n && i == After(n, pi) && prevp == mem.list[pi] &&
                  p == mem.list[i]
        decreases n - Lap(n, f, i)
      {
        AtBlock(mem, base, i);
        if size[p] >= nunits {
          assert Fits(mem, i, nunits);
          q := Take(prevp, p, nunits, i);
          return true, q;
        }
        if p == freep {
          SearchEnds(mem, f, nunits);
          return false, 0;
        }
        SearchOn(mem, f, i, nunits);
        prevp, p := p, next[p];
        pi, i := i, After(n, i);
      }
    }

    /** What malloc does when it has been around the list: grow, and search again. */
    method Retry(nunits: nat, sbrk: Option<nat>) returns (r: nat)
      requires Valid() && freep != 0 && nunits > 0 && !HasFit(mem, nunits)
      requires sbrk.Some? ==> sbrk.value > base && forall u :: u in mem.owner ==> u < sbrk.value
      modifies this
      ensures Valid() && freep != 0 && (r == 0 <==> !CanGrow(nunits, sbrk))
      ensures r == 0 ==> mem == old(mem)
      ensures r != 0 ==> HandedOut(old(mem), mem, r - 1, nunits) && Supplied(old(mem), mem, nunits, sbrk)
    {
      var p := MoreCore(nunits, sbrk);
      if p == 0 {
        return 0;
      }
      ghost var m := mem;
      var _, q := Round(nunits);
      r := q + 1;
      assert HandedOut(old(mem), mem, r - 1, nunits) && Supplied(old(mem), mem, nunits, sbrk) by {
        Composed(old(mem), m, mem, q, nunits, sbrk);
      }
    }

    /** The search of malloc. It hands out a block, after growing the heap once if nothing fits, and
        fails only if nothing fits and the heap cannot grow. */
    method Search(nunits: nat, sbrk: Option<nat>) returns (r: nat)
      requires Valid() && freep != 0 && nunits > 0
      requires sbrk.Some? ==> sbrk.value > base && forall u :: u in mem.owner ==> u < sbrk.value
      modifies this
      ensures Valid() && freep != 0
      ensures r == 0 <==> !HasFit(old(mem), nunits) && !CanGrow(nunits, sbrk)
      ensures r == 0 ==> mem == old(mem)
      ensures r != 0 ==> HandedOut(old(mem), mem, r - 1, nunits) && Supplied(old(mem), mem, nunits, sbrk)
    {
      var found, q := Round(nunits);
      if found {
        return q + 1;
      }
      r := Retry(nunits, sbrk);
    }

    /** malloc. */
    method Malloc(nbytes: nat, sbrk: Option<nat>) returns (r: nat)
      requires Valid() && nbytes < UINT32_LIMIT
      requires sbrk.Some? ==> sbrk.value > base && forall u :: u in mem.owner ==> u < sbrk.value
      modifies this
      ensures Valid()
      ensures r == 0 <==> nbytes == 0 || (!HasFit(old(mem), Units(nbytes)) && !CanGrow(Units(nbytes), sbrk))
      ensures r == 0 ==> mem.live == old(mem).live && mem.owner == old(mem).owner
      ensures r != 0 ==> HandedOut(old(mem), mem, r - 1, Units(nbytes)) && Supplied(old(mem), mem, Units(nbytes), sbrk)
    {
      if nbytes == 0 {
        return 0;
      }
      var nunits := Units(nbytes);
      if freep == 0 {
        Start();
      }
      r := Search(nunits, sbrk);
    }
  }

  /** The units in use are those there were, plus one supply from sbrk if nothing fitted. */
  ghost predicate Supplied(m: Mem, m': Mem, n: nat, sbrk: Option<nat>)
  {
    m'.owner.Keys == if HasFit(m, n) || sbrk.None? then m.owner.Keys
      else m.owner.Keys + Span(sbrk.value, sbrk.value + GrowUnits(n))
  }

  lemma Composed(m0: Mem, m: Mem, m': Mem, q: nat, n: nat, sbrk: Option<nat>)
    requires HandedOut(m, m', q, n) && m'.owner.Keys == m.owner.Keys
    requires !HasFit(m0, n) && sbrk.Some? && Grew(m0, m, sbrk.value, GrowUnits(n))
    ensures HandedOut(m0, m', q, n) && Supplied(m0, m', n, sbrk)
  {
  }

  lemma PredecessorListed(m: Mem, base: nat, i: nat)
    requires Inv(m, base, 0, 0) && 0 < i < |m.list|
    ensures m.list[i - 1] in m.list && m.list[i - 1] in Without(m.list, i) && m.list[i - 1] >= base
  {
    assert Without(m.list, i)[i - 1] == m.list[i - 1];
  }

  lemma GrewThenFreed(m: Mem, m': Mem, up: nat, n: nat, nu: nat)
    requires Kept(Grow(m, up, n), m', Grow(m, up, n).live - {up}) && HasFit(m', n) && nu <= n && up !in m.live
    requires Grow(m, up, n).owner.Keys == m.owner.Keys + Span(up, up + n)
    ensures Grew(m, m', up, n) && HasFit(m', nu)
  {
    var i: nat :| 0 < i < |m'.list| && Fits(m', i, n);
    assert Fits(m', i, nu);
    assert Grow(m, up, n).live - {up} == m.live;
  }

  /** The heap has n more units, at `start`, and everything handed out is as it was. */
  ghost predicate Grew(m: Mem, m': Mem, start: nat, n: nat)
  {
    && m'.live == m.live && m'.owner.Keys == m.owner.Keys + Span(start, start + n)
    && forall a :: a in m.live && a in m.size ==> a in m'.size && m'.size[a] == m.size[a]
  }

  lemma GrowFacts(m: Mem, base: nat, a: nat, n: nat)
    requires Inv(m, base, 0, 0) && n > 0 && forall u :: u in m.owner ==> u < a
    ensures a !in m.live && Grow(m, a, n).owner.Keys == m.owner.Keys + Span(a, a + n)
  {
    assert a in m.blocks ==> Owns(m.size, m.owner, a) && a in m.owner;
  }

  /** Every unit obtained from sbrk lies in exactly one block, free or handed out, and no other unit
      does; so blocks handed out never overlap. */
  lemma UnitsPartitioned(m: Mem, base: nat, u: nat)
    requires Inv(m, base, 0, 0)
    ensures u in m.owner <==> exists b :: b in m.blocks && b <= u < End(m.size, b)
    ensures forall b, c :: b in m.blocks && c in m.blocks && b <= u < End(m.size, b) && c <= u < End(m.size, c) ==>
            b == c
    ensures forall b :: b in m.blocks <==> b in m.live || (b in m.list && b != base)
    ensures forall b :: b in m.live ==> b !in m.list
  {
    forall b | b in m.blocks && b <= u < End(m.size, b)
      ensures u in m.owner && m.owner[u] == b
    {
      assert Owns(m.size, m.owner, b);
    }
  }
}
