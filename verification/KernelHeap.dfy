/** kmalloc and kfree (heap.c): first fit on an address-ordered list, growing by whole pages, splitting
    and merging in place. */
module KernelHeap {
  import opened Common
  import opened Rings
  import opened Tiling
  import opened HeapBlocks

  const SIZE_MAX := 0xFFFF_FFFF

  /** The request rounded up to the alignment. */
  function Rounded(size: nat): nat
  {
    (size + 3) / 4 * 4
  }

  /** Pages for a payload and a header. */
  function PagesFor(payload: nat): (n: nat)
    ensures payload + HEADER <= n * PAGE < payload + HEADER + PAGE
  {
    (HEADER + payload + PAGE - 1) / PAGE
  }

  /** heap_grow accepts the size and the frame allocator has the pages. */
  predicate CanGrow(payload: nat, region: Option<nat>)
  {
    payload <= SIZE_MAX - HEADER - (PAGE - 1) && region.Some?
  }

  class Heap {
    var next: map<nat, nat>
    var size: map<nat, nat>
    var free: map<nat, bool>
    var head: nat
    var pages: nat
    ghost var mem: Mem

    ghost predicate Synced()
      reads this
    {
      mem.next == next && mem.size == size && mem.free == free
    }

    constructor ()
      ensures Synced() && HeapInv(mem, head) && pages == 0 && mem.blocks == {}
    {
      next, size, free, head, pages := map[], map[], map[], 0, 0;
      mem := Mem(map[], map[], map[], [], {}, map[], map[]);
    }

    /** The stores of a merge. */
    method Absorb(a: nat, b: nat, ghost j: nat)
      requires Synced() && Joins(mem, j) && a == mem.list[j] && b == mem.list[j + 1]
      modifies this`next, this`size, this`mem
      ensures Synced() && mem == Merge(old(mem), j)
    {
      size := size[a := size[a] + (HEADER + size[b])];
      next := next[a := next[b]];
      mem := Merge(mem, j);
    }

    /** merge_free_blocks. */
    method MergeFree()
      requires Synced() && Walkable(mem, head)
      modifies this`next, this`size, this`mem
      ensures Synced() && mem == MergeFrom(old(mem), 0) && Walkable(mem, head)
    {
      var current: nat := head;
      if current == 0 {
        return;
      }
      ghost var j: nat := 0;
      while next[current] != 0
        invariant Synced() && Walkable(mem, head) && j < |mem.list| && current == mem.list[j]
        invariant MergeFrom(old(mem), 0) == MergeFrom(mem, j)
        decreases |mem.list| - j
      {
        var follower := next[current];
        if free[current] && free[follower] && current + HEADER + size[current] == follower {
          WalkMerge(mem, head, j);
          Absorb(current, follower, j);
        } else {
          current, j := follower, j + 1;
        }
      }
    }

    ghost predicate Valid()
      reads this
    {
      Synced() && Inv(State())
    }

    /** kfree of a pointer that kmalloc returned and that is in use, or of null. */
    method Kfree(ptr: nat)
      requires Valid() && Enabled(State(), KfreeCall(ptr))
      modifies this
      ensures Valid() && State() == After(old(State()), KfreeCall(ptr))
    {
      FreeCall(State(), ptr);
      Release(ptr);
    }

    /** The stores of kfree. */
    method Release(ptr: nat)
      requires Synced() && (ptr != 0 ==> ptr >= HEADER && Walkable(mem.(free := mem.free[ptr - HEADER := true]), head))
      modifies this`next, this`size, this`free, this`mem
      ensures Synced() && mem == if ptr == 0 then old(mem) else Freed(old(mem), ptr - HEADER)
    {
      if ptr == 0 {
        return;
      }
      var b := ptr - HEADER;
      free := free[b := true];
      mem := mem.(free := mem.free[b := true]);
      MergeFree();
    }

    /** The walk of insert_block, from a head below b: the last block before b. */
    method FindPlace(b: nat) returns (current: nat)
      requires Synced() && Walkable(mem, head) && |mem.list| > 0 && mem.list[0] < b
      ensures var k := Place(mem.list, b, 0); k > 0 && current == mem.list[k - 1]
    {
      current := head;
      ghost var k: nat := 0;
      while next[current] != 0 && next[current] < b
        invariant k < |mem.list| && current == mem.list[k]
        invariant Place(mem.list, b, 0) == Place(mem.list, b, k + 1)
        decreases |mem.list| - k
      {
        current, k := next[current], k + 1;
      }
    }

    method Announce(b: nat, n: nat, ghost links: map<nat, nat>)
      requires mem.size == size && mem.free == free && next == links && n > HEADER
      requires links == PlacedLinks(mem, b)
      modifies this`size, this`free, this`mem
      ensures Synced() && mem == Placed(old(mem), b, n)
    {
      size, free := size[b := n - HEADER], free[b := true];
      mem := Placed(mem, b, n);
    }

    /** insert_block. */
    method InsertBlock(b: nat, n: nat)
      requires Synced() && Walkable(mem, head) && b > 0 && b !in mem.list && n > HEADER
      modifies this
      ensures Synced() && mem == Placed(old(mem), b, n) &&
              head == (if Place(old(mem).list, b, 0) == 0 then b else old(head))
      ensures pages == old(pages)
    {
      if head == 0 || b < head {
        next := next[b := head];
        head := b;
      } else {
        var current := FindPlace(b);
        next := next[b := next[current]][current := b];
      }
      Announce(b, n, next);
    }

    /** The first-fit search of kmalloc; 0 if nothing fits. */
    method FindFit(want: nat) returns (b: nat, ghost i: nat)
      requires Synced() && Walkable(mem, head)
      ensures i == FirstFit(mem, want, 0) && b == At(mem.list, i) && (b == 0 <==> i == |mem.list|)
    {
      b, i := head, 0;
      while b != 0
        invariant i <= |mem.list| && b == At(mem.list, i) && FirstFit(mem, want, 0) == FirstFit(mem, want, i)
        decreases |mem.list| - i
      {
        assert HasHeader(mem, mem.list[i]);
        if free[b] && size[b] >= want {
          return;
        }
        b, i := next[b], i + 1;
      }
    }

    method CutFront(a: nat, want: nat, ghost i: nat)
      requires Synced() && i < |mem.list| && a == mem.list[i] && HasHeader(mem, a) && a in next &&
               size[a] > want + HEADER
      modifies this`next, this`size, this`free, this`mem
      ensures Synced() && mem == Front(old(mem), i, want, a + HEADER + want)
    {
      var q := a + HEADER + want;
      mem := Front(mem, i, want, q);
      size := size[q := size[a] - want - HEADER][a := want];
      free := free[q := true];
      next := next[q := next[a]][a := q];
      free := free[a := false];
    }

    /** The end of kmalloc: split the block if the rest can be one, and hand it out. */
    method Take(a: nat, want: nat, ghost i: nat)
      requires Synced() && i < |mem.list| && a == mem.list[i] && HasHeader(mem, a) && a in next
      modifies this`next, this`size, this`free, this`mem
      ensures Synced() && mem == Taken(old(mem), i, want)
    {
      if size[a] > want + HEADER + 4 {
        CutFront(a, want, i);
      } else {
        free := free[a := false];
        mem := MarkUsed(mem, a);
      }
    }

    /** heap_grow, with the address the frame allocator returned, if any. */
    method HeapGrow(payload: nat, region: Option<nat>) returns (ok: bool)
      requires Synced() && Walkable(mem, head) && (region.Some? ==> region.value > 0 && region.value !in mem.list)
      modifies this
      ensures Synced() && Walkable(mem, head) && ok == CanGrow(payload, region)
      ensures State() == if ok then Grow(old(State()), payload, region.value) else old(State())
    {
      if payload > SIZE_MAX - HEADER - (PAGE - 1) {
        return false;
      }
      var count := PagesFor(payload);
      if region.None? {
        return false;
      }
      AddBlock(region.value, count * PAGE);
      pages := pages + count;
      return true;
    }

    method AddBlock(b: nat, n: nat)
      requires Synced() && Walkable(mem, head) && b > 0 && b !in mem.list && n > HEADER
      modifies this
      ensures Synced() && mem == MergeFrom(Placed(old(mem), b, n), 0) && head == PlacedHead(old(mem), old(head), b) &&
              pages == old(pages)
      ensures Walkable(mem, head)
    {
      PlacedWalk(mem, head, b, n);
      InsertBlock(b, n);
      MergeFree();
    }

    ghost function State(): HeapState
      reads this
    {
      HeapState(mem, head, pages)
    }

    /** A search of kmalloc, and the end of kmalloc if it finds a block. */
    method TryServe(want: nat) returns (r: nat)
      requires Synced() && Walkable(mem, head)
      modifies this
      ensures Synced() && (State(), r) == Serve(old(State()), want)
    {
      var b, i := FindFit(want);
      if b == 0 {
        return 0;
      }
      assert HasHeader(mem, mem.list[i]) && mem.list[i] in next;
      Take(b, want, i);
      return b + HEADER;
    }

    /** kmalloc of an already rounded request, on a heap that has been initialised. */
    method Allocate(want: nat, region: Option<nat>) returns (r: nat)
      requires Synced() && Walkable(mem, head) && (region.Some? ==> region.value > 0 && region.value !in mem.list)
      modifies this
      ensures Synced() && (State(), r) == Alloc(old(State()), want, region)
    {
      ServeFinds(State(), want);
      r := TryServe(want);
      if r == 0 {
        var ok := HeapGrow(want, region);
        if ok {
          r := TryServe(want);
        }
      }
    }

    /** kmalloc. `init` and `region` are what the frame allocator would return to heap_init and to the
        growth for this request. */
    method Kmalloc(request: nat, init: Option<nat>, region: Option<nat>) returns (r: nat)
      requires Valid() && Enabled(State(), KmallocCall(request, init, region))
      modifies this
      ensures Valid() && (State(), r) == Malloc(old(State()), request, init, region)
    {
      ghost var st' := Malloc(State(), request, init, region).0;
      CallKeepsInv(State(), KmallocCall(request, init, region), st');
      MallocReady(State(), request, init, region);
      r := Obtain(request, init, region);
    }

    /** The body of kmalloc. */
    method Obtain(request: nat, init: Option<nat>, region: Option<nat>) returns (r: nat)
      requires Synced() && Walkable(mem, head) && (init.Some? ==> init.value > 0 && init.value !in mem.list)
      requires region.Some? ==> region.value > 0 && region.value !in Initialised(State(), init).mem.list
      modifies this
      ensures Synced() && (State(), r) == Malloc(old(State()), request, init, region)
    {
      if request == 0 || request > SIZE_MAX - 3 {
        return 0;
      }
      if head == 0 {
        var _ := HeapGrow(1, init);
      }
      r := Allocate(Rounded(request), region);
    }
  }

  /** On a list that can be followed, the search fails exactly if no block fits. */
  lemma ServeFinds(st: HeapState, want: nat)
    requires Walkable(st.mem, st.head)
    ensures var i := FirstFit(st.mem, want, 0);
            if i < |st.mem.list| then Serve(st, want).1 != 0 else Serve(st, want) == (st, 0)
  {
  }

  // ---------------------------------------------------------------- the whole heap

  datatype HeapState = HeapState(mem: Mem, head: nat, pages: nat)

  /** The first free block from the i-th on with `want` bytes, or the length of the list. */
  function FirstFit(m: Mem, want: nat, i: nat): (k: nat)
    requires i <= |m.list|
    ensures i <= k <= |m.list| && (k < |m.list| ==> IsFit(m, m.list[k], want))
    ensures forall j :: i <= j < k ==> !IsFit(m, m.list[j], want)
    decreases |m.list| - i
  {
    if i == |m.list| || IsFit(m, m.list[i], want) then i else FirstFit(m, want, i + 1)
  }

  function PlacedHead(m: Mem, head: nat, b: nat): nat
  {
    if Place(m.list, b, 0) == 0 then b else head
  }

  /** `count` pages at b join the heap. */
  function GrowBy(st: HeapState, count: nat, b: nat): HeapState
    requires count > 0
  {
    HeapState(MergeFrom(Placed(st.mem, b, count * PAGE), 0), PlacedHead(st.mem, st.head, b), st.pages + count)
  }

  function Grow(st: HeapState, payload: nat, b: nat): HeapState
  {
    GrowBy(st, PagesFor(payload), b)
  }

  /** Hands out the first fit, if there is one. */
  function Serve(st: HeapState, want: nat): (HeapState, nat)
  {
    var i := FirstFit(st.mem, want, 0);
    if i < |st.mem.list| && HasHeader(st.mem, st.mem.list[i]) && st.mem.list[i] in st.mem.next
    then (st.(mem := Taken(st.mem, i, want)), st.mem.list[i] + HEADER) else (st, 0)
  }

  /** kmalloc: the first fit, or the first fit after growing. */
  function Alloc(st: HeapState, want: nat, region: Option<nat>): (HeapState, nat)
  {
    if FirstFit(st.mem, want, 0) < |st.mem.list| || !CanGrow(want, region) then Serve(st, want)
    else Serve(Grow(st, want, region.value), want)
  }

  /** heap_init on a heap without blocks. */
  function Initialised(st: HeapState, init: Option<nat>): HeapState
  {
    if st.head == 0 && CanGrow(1, init) then Grow(st, 1, init.value) else st
  }

  function Malloc(st: HeapState, request: nat, init: Option<nat>, region: Option<nat>): (HeapState, nat)
  {
    if request == 0 || request > SIZE_MAX - 3 then (st, 0) else Alloc(Initialised(st, init), Rounded(request), region)
  }

  // ---------------------------------------------------------------- the invariant

  /** The list is sound and no two free blocks touch. */
  ghost predicate HeapInv(m: Mem, head: nat)
  {
    Sound(m, head) && Coalesced(m, |m.list|)
  }

  /** kfree: block b is free, and everything that can be merged is. */
  function Freed(m: Mem, b: nat): Mem
  {
    MergeFrom(m.(free := m.free[b := true]), 0)
  }

  /** Block i is handed out, without its tail if that can be a block of its own. */
  function Taken(m: Mem, i: nat, want: nat): Mem
    requires i < |m.list| && HasHeader(m, m.list[i]) && m.list[i] in m.next
  {
    if m.size[m.list[i]] > want + HEADER + 4 then Front(m, i, want, m.list[i] + HEADER + want)
      else MarkUsed(m, m.list[i])
  }

  /** How many blocks from the k-th on come before b, counted from the start. */
  function Place(list: seq<nat>, b: nat, k: nat): (r: nat)
    requires k <= |list|
    ensures k <= r <= |list|
    ensures (k < r ==> list[r - 1] < b) && (r < |list| ==> list[r] >= b)
    decreases |list| - k
  {
    if k == |list| || list[k] >= b then k else Place(list, b, k + 1)
  }

  /** The links once b is in its place. */
  function PlacedLinks(m: Mem, b: nat): map<nat, nat>
  {
    var k := Place(m.list, b, 0);
    if k == 0 then m.next[b := At(m.list, 0)] else m.next[b := At(m.list, k)][m.list[k - 1] := b]
  }

  /** A fresh free block of n bytes at b in its place. */
  function Placed(m: Mem, b: nat, n: nat): Mem
    requires n >= HEADER
  {
    InsertFree(m, Place(m.list, b, 0), b, n, PlacedLinks(m, b))
  }

  lemma PlacedChain(m: Mem, head: nat, b: nat)
    requires Chained(m.next, head, m.list) && Distinct(m.list) && b !in m.list
    ensures Chained(PlacedLinks(m, b), PlacedHead(m, head, b), InsertedAt(m.list, Place(m.list, b, 0), b))
  {
    var k := Place(m.list, b, 0);
    if k == 0 {
      PushChain(m.next, head, m.list, b);
    } else {
      SplitChain(m.next, head, m.list, k - 1, b);
      assert Inserted(m.list, k - 1, b) == InsertedAt(m.list, k, b);
      assert m.next[m.list[k - 1]] == At(m.list, k);
    }
  }

  lemma PushChain(next: map<nat, nat>, head: nat, list: seq<nat>, b: nat)
    requires Chained(next, head, list) && b !in list
    ensures Chained(next[b := head], b, InsertedAt(list, 0, b))
  {
    var next', list' := next[b := head], InsertedAt(list, 0, b);
    forall i | 0 <= i < |list'|
      ensures list'[i] in next' && next'[list'[i]] == At(list', i + 1)
    {
      if i > 0 {
        assert next[list[i - 1]] == At(list, i);
      }
    }
  }

  lemma PlacedHeaders(m: Mem, b: nat, n: nat, m': Mem)
    requires n > HEADER && b > 0 && m' == Placed(m, b, n)
    requires forall i :: 0 <= i < |m.list| ==> m.list[i] != 0 && HasHeader(m, m.list[i])
    ensures forall i :: 0 <= i < |m'.list| ==> m'.list[i] != 0 && HasHeader(m', m'.list[i])
  {
    var k := Place(m.list, b, 0);
    forall i | 0 <= i < |m'.list|
      ensures m'.list[i] != 0 && HasHeader(m', m'.list[i])
    {
      if i < k {
        assert HasHeader(m, m.list[i]);
      } else if i > k {
        assert HasHeader(m, m.list[i - 1]);
      }
    }
  }

  lemma PlacedWalk(m: Mem, head: nat, b: nat, n: nat)
    requires Walkable(m, head) && b > 0 && b !in m.list && n > HEADER
    ensures Walkable(Placed(m, b, n), PlacedHead(m, head, b))
  {
    PlacedChain(m, head, b);
    PlacedHeaders(m, b, n, Placed(m, b, n));
  }

  lemma FreedFacts(m: Mem, head: nat, b: nat)
    requires HeapInv(m, head) && b in m.blocks
    ensures HeapInv(Freed(m, b), head) && UsedKept(m.(free := m.free[b := true]), Freed(m, b))
    ensures Freed(m, b).owner.Keys == m.owner.Keys
  {
    MarkSound(m, head, b, true);
    MergeAll(m.(free := m.free[b := true]), head, 0, 0);
  }

  // ---------------------------------------------------------------- merging everything

  predicate Joins(m: Mem, j: nat)
  {
    Mergeable(m, j) && HasHeader(m, m.list[j]) && HasHeader(m, m.list[j + 1]) && m.list[j + 1] in m.next
  }

  /** What merge_free_blocks does from the j-th block on. */
  function MergeFrom(m: Mem, j: nat): Mem
    decreases |m.list| - j
  {
    if j + 1 >= |m.list| then m
    else if Joins(m, j) then MergeFrom(Merge(m, j), j)
    else MergeFrom(m, j + 1)
  }

  /** The list can be followed from its head. */
  ghost predicate Walkable(m: Mem, head: nat)
  {
    Chained(m.next, head, m.list) && Distinct(m.list) && forall i :: 0 <= i < |m.list| ==>
      m.list[i] != 0 && HasHeader(m, m.list[i])
  }

  lemma SoundIsWalkable(m: Mem, head: nat)
    requires Sound(m, head)
    ensures Walkable(m, head)
  {
    AscendingIsDistinct(m.list);
    forall i | 0 <= i < |m.list|
      ensures m.list[i] != 0 && HasHeader(m, m.list[i])
    {
      ListedBlock(m, head, i);
    }
  }

  lemma WalkHeaders(m: Mem, j: nat, m': Mem)
    requires Joins(m, j) && m' == Merge(m, j) && Distinct(m.list)
    requires forall i :: 0 <= i < |m.list| ==> m.list[i] != 0 && HasHeader(m, m.list[i])
    ensures forall i :: 0 <= i < |m'.list| ==> m'.list[i] != 0 && HasHeader(m', m'.list[i])
  {
    forall i | 0 <= i < |m'.list|
      ensures m'.list[i] != 0 && HasHeader(m', m'.list[i])
    {
      assert HasHeader(m, m.list[if i <= j then i else i + 1]);
    }
  }

  lemma WalkChain(m: Mem, head: nat, j: nat, m': Mem)
    requires Joins(m, j) && m' == Merge(m, j) && Distinct(m.list) && Chained(m.next, head, m.list)
    ensures Chained(m'.next, head, m'.list) && Distinct(m'.list)
  {
    ChainRemove(m.next, head, m.list, j + 1);
    WithoutMembers(m.list, j + 1);
  }

  lemma WalkMerge(m: Mem, head: nat, j: nat)
    requires Walkable(m, head) && Mergeable(m, j)
    ensures Joins(m, j) && Walkable(Merge(m, j), head) && Merge(m, j).list[j] == m.list[j]
  {
    assert HasHeader(m, m.list[j]) && HasHeader(m, m.list[j + 1]);
    var m' := Merge(m, j);
    WalkHeaders(m, j, m');
    WalkChain(m, head, j, m');
  }

  lemma MergeFacts(m: Mem, head: nat, j: nat, n: nat)
    requires Sound(m, head) && Mergeable(m, j) && Coalesced(m, j)
    ensures Joins(m, j)
    ensures var m' := Merge(m, j);
            Sound(m', head) && Coalesced(m', j) && m'.owner.Keys == m.owner.Keys && UsedKept(m, m') &&
              (HasFit(m, n) ==> HasFit(m', n))
  {
    ListedBlock(m, head, j);
    ListedBlock(m, head, j + 1);
    MergeKeepsSound(m, head, j);
    MergeKeepsCoalesced(m, j);
    MergeKeepsUsers(m, j, n);
  }

  /** Merging leaves no two free blocks touching, over the same bytes, without touching a block in
      use; and a free block of n bytes, if there was one. */
  lemma {:induction false} MergeAll(m: Mem, head: nat, j: nat, n: nat)
    requires Sound(m, head) && Coalesced(m, j)
    ensures var m' := MergeFrom(m, j);
            && Sound(m', head) && Coalesced(m', |m'.list|) && m'.owner.Keys == m.owner.Keys
            && UsedKept(m, m') && (HasFit(m, n) ==> HasFit(m', n))
    decreases |m.list| - j
  {
    if j + 1 < |m.list| {
      ListedBlock(m, head, j);
      ListedBlock(m, head, j + 1);
      if Joins(m, j) {
        MergeFacts(m, head, j, n);
        MergeAll(Merge(m, j), head, j, n);
        UsedKeptTwice(m, Merge(m, j), MergeFrom(m, j));
      } else {
        MergeAll(m, head, j + 1, n);
      }
    }
  }

  // ---------------------------------------------------------------- release, growth, allocation

  lemma MarkSound(m: Mem, head: nat, b: nat, f: bool)
    requires Sound(m, head)
    ensures Sound(m.(free := m.free[b := f]), head)
  {
    var m' := m.(free := m.free[b := f]);
    forall c | c in m'.blocks
      ensures HasHeader(m', c)
    {
      assert HasHeader(m, c);
    }
  }

  function MarkUsed(m: Mem, b: nat): Mem
  {
    m.(free := m.free[b := false])
  }

  /** The first `want` bytes of block i are handed out and the rest is a free block. */
  function Front(m: Mem, i: nat, want: nat, q: nat): Mem
    requires i < |m.list| && HasHeader(m, m.list[i]) && m.list[i] in m.next
    requires m.size[m.list[i]] > want + HEADER && q == m.list[i] + HEADER + want
  {
    MarkUsed(Split(m, i, want, q), m.list[i])
  }

  /** After a split, the k-th block and the next are still not both free and touching. */
  lemma SplitPair(m: Mem, i: nat, want: nat, q: nat, m': Mem, k: nat)
    requires Distinct(m.list) && q !in m.list && i < |m.list| && HasHeader(m, m.list[i]) && m.list[i] in m.next &&
             m.free[m.list[i]]
    requires m.size[m.list[i]] > want + HEADER && q == m.list[i] + HEADER + want
    requires m' == Front(m, i, want, q)
    requires k + 1 < |m'.list| && !Mergeable(m, if k <= i then k else k - 1)
    ensures !Mergeable(m', k)
  {
    var a := m.list[i];
    assert m'.list[i] == a && m'.list[i + 1] == q && q != a;
    if k < i {
      assert m'.list[k] == m.list[k] && m'.list[k + 1] == m.list[k + 1] && m.list[k] != a && m.list[k] != q;
    } else if k == i + 1 {
      assert m'.list[k + 1] == m.list[i + 1] && m.list[i + 1] != a;
      assert End(m'.ext, q) == End(m.ext, a);
    } else if k > i + 1 {
      assert m'.list[k] == m.list[k - 1] && m'.list[k + 1] == m.list[k] && m.list[k - 1] != a && m.list[k] != a;
    }
  }

  lemma SplitCoalesced(m: Mem, i: nat, want: nat, q: nat, m': Mem)
    requires Distinct(m.list) && q !in m.list && i < |m.list| && HasHeader(m, m.list[i]) && m.list[i] in m.next &&
             m.free[m.list[i]]
    requires m.size[m.list[i]] > want + HEADER && q == m.list[i] + HEADER + want && Coalesced(m, |m.list|)
    requires m' == Front(m, i, want, q)
    ensures Coalesced(m', |m'.list|)
  {
    forall k | 0 <= k < |m'.list|
      ensures !Mergeable(m', k)
    {
      if k + 1 < |m'.list| {
        SplitPair(m, i, want, q, m', k);
      }
    }
  }

  lemma MarkCoalesced(m: Mem, i: nat)
    requires Coalesced(m, |m.list|) && i < |m.list|
    ensures Coalesced(m.(free := m.free[m.list[i] := false]), |m.list|)
  {
    var m' := m.(free := m.free[m.list[i] := false]);
    forall k | 0 <= k < |m'.list|
      ensures !Mergeable(m', k)
    {
      assert !Mergeable(m, k);
    }
  }

  lemma TakeWhole(m: Mem, head: nat, i: nat, m': Mem)
    requires Sound(m, head) && Coalesced(m, |m.list|) && i < |m.list| && IsFit(m, m.list[i], 0)
    requires m' == MarkUsed(m, m.list[i])
    ensures Sound(m', head) && Coalesced(m', |m'.list|) && UsedKept(m, m')
  {
    MarkSound(m, head, m.list[i], false);
    MarkCoalesced(m, i);
  }

  lemma FrontUsers(m: Mem, i: nat, want: nat, q: nat, m': Mem)
    requires i < |m.list| && HasHeader(m, m.list[i]) && m.list[i] in m.next && m.free[m.list[i]] &&
             m.list[i] in m.blocks && q !in m.blocks
    requires m.size[m.list[i]] > want + HEADER && q == m.list[i] + HEADER + want
    requires m' == Front(m, i, want, q)
    ensures UsedKept(m, m') && HandedOut(m', m.list[i], want)
  {
  }

  lemma TakeFront(m: Mem, head: nat, i: nat, want: nat, q: nat, m': Mem)
    requires Sound(m, head) && Coalesced(m, |m.list|) && i < |m.list| && HasHeader(m, m.list[i]) &&
             m.list[i] in m.next && m.free[m.list[i]]
    requires m.size[m.list[i]] > want + HEADER && q == m.list[i] + HEADER + want
    requires m' == Front(m, i, want, q)
    ensures Sound(m', head) && Coalesced(m', |m'.list|) && m'.owner.Keys == m.owner.Keys && q !in m.blocks
  {
    SplitKeepsSound(m, head, i, want, q);
    MarkSound(Split(m, i, want, q), head, m.list[i], false);
    AscendingIsDistinct(m.list);
    SplitCoalesced(m, i, want, q, m');
  }

  lemma NoFit(m: Mem, n: nat)
    requires Listed(m.list, m.blocks) && forall k :: 0 <= k < |m.list| ==> !IsFit(m, m.list[k], n)
    ensures !HasFit(m, n)
  {
    AscendingIsDistinct(m.list);
    forall b | b in m.blocks
      ensures !IsFit(m, b, n)
    {
      AllListed(m.list, m.blocks, b);
    }
  }

  // ---------------------------------------------------------------- every run

  ghost predicate Inv(st: HeapState)
  {
    HeapInv(st.mem, st.head)
  }

  /** The frames at b, enough for the payload, are new to the heap. */
  ghost predicate Fresh(m: Mem, payload: nat, b: nat)
  {
    b > 0 && forall u :: u in m.owner ==> !(b <= u < b + PagesFor(payload) * PAGE)
  }

  lemma OwnedStart(m: Mem, head: nat, b: nat)
    requires Sound(m, head) && b in m.list
    ensures b in m.owner
  {
    var i :| 0 <= i < |m.list| && m.list[i] == b;
    ListedBlock(m, head, i);
    assert Owns(m.ext, m.owner, b);
  }

  lemma PlaceFacts(m: Mem, head: nat, b: nat, n: nat)
    requires Sound(m, head) && b > 0 && n > 0 && forall u :: u in m.owner ==> !(b <= u < b + n)
    ensures b !in m.list && Belongs(m.list, Place(m.list, b, 0), b)
    ensures Chained(PlacedLinks(m, b), PlacedHead(m, head, b), InsertedAt(m.list, Place(m.list, b, 0), b))
  {
    forall i | 0 <= i < |m.list|
      ensures m.list[i] != b
    {
      OwnedStart(m, head, m.list[i]);
    }
    AscendingIsDistinct(m.list);
    PlacedChain(m, head, b);
  }

  lemma GrownSound(m: Mem, head: nat, b: nat, n: nat, m': Mem)
    requires Sound(m, head) && b > 0 && n > HEADER && forall u :: u in m.owner ==> !(b <= u < b + n)
    requires m' == MergeFrom(Placed(m, b, n), 0)
    ensures Sound(m', PlacedHead(m, head, b)) && Coalesced(m', |m'.list|) &&
            m'.owner.Keys == m.owner.Keys + Span(b, b + n)
    ensures UsedKept(m, m') && HasFit(m', n - HEADER)
  {
    PlaceFacts(m, head, b, n);
    GrowFacts(m, head, PlacedHead(m, head, b), Place(m.list, b, 0), b, n, PlacedLinks(m, b));
  }

  /** Growing keeps the heap sound, adds just the bytes of the pages, and leaves a block as large. */
  lemma GrowKeepsInv(st: HeapState, count: nat, b: nat, n: nat, st': HeapState)
    requires Inv(st) && b > 0 && count > 0 && n == count * PAGE && forall u :: u in st.mem.owner ==> !(b <= u < b + n)
    requires st' == GrowBy(st, count, b)
    ensures Inv(st') && UsedKept(st.mem, st'.mem) && HasFit(st'.mem, n - HEADER)
    ensures st'.mem.owner.Keys == st.mem.owner.Keys + Span(b, b + n)
  {
    GrownSound(st.mem, st.head, b, n, st'.mem);
  }

  lemma InsertUsers(m: Mem, k: nat, b: nat, n: nat, next: map<nat, nat>, m1: Mem)
    requires k <= |m.list| && n > HEADER && b !in m.blocks && m1 == InsertFree(m, k, b, n, next)
    ensures UsedKept(m, m1) && HasFit(m1, n - HEADER) && m1.owner.Keys == m.owner.Keys + Span(b, b + n)
  {
    assert b in m1.blocks && IsFit(m1, b, n - HEADER);
    assert m1.owner.Keys == m.owner.Keys + Span(b, b + n);
  }

  lemma GrowFacts(m: Mem, head: nat, head': nat, k: nat, b: nat, n: nat, next: map<nat, nat>)
    requires Sound(m, head) && Belongs(m.list, k, b) && b > 0 && n > HEADER
    requires (forall u :: u in m.owner ==> !(b <= u < b + n)) && Chained(next, head', InsertedAt(m.list, k, b))
    ensures var m' := MergeFrom(InsertFree(m, k, b, n, next), 0);
            && Sound(m', head') && Coalesced(m', |m'.list|) && m'.owner.Keys == m.owner.Keys + Span(b, b + n)
            && UsedKept(m, m') && HasFit(m', n - HEADER)
  {
    InsertKeepsSound(m, head, head', k, b, n, next);
    var m1 := InsertFree(m, k, b, n, next);
    InsertUsers(m, k, b, n, next, m1);
    MergeAll(m1, head', 0, n - HEADER);
    UsedKeptTwice(m, m1, MergeFrom(m1, 0));
  }

  lemma FitsLess(m: Mem, n: nat, n': nat)
    requires HasFit(m, n) && n' <= n
    ensures HasFit(m, n')
  {
    var b :| b in m.blocks && IsFit(m, b, n);
    assert IsFit(m, b, n');
  }

  lemma TailIsNew(m: Mem, head: nat, i: nat, q: nat)
    requires Sound(m, head) && i < |m.list| && m.list[i] < q < End(m.ext, m.list[i])
    ensures q !in m.blocks
  {
    ListedBlock(m, head, i);
    assert Owns(m.ext, m.owner, m.list[i]);
    assert q in m.owner && m.owner[q] == m.list[i];
    assert q in m.blocks ==> Owns(m.ext, m.owner, q);
  }

  /** Block i can be split for `want` bytes. */
  predicate Splits(m: Mem, i: nat, want: nat)
  {
    i < |m.list| && HasHeader(m, m.list[i]) && m.list[i] in m.next && m.size[m.list[i]] > want + HEADER + 4
  }

  lemma TakenWhole(m: Mem, head: nat, i: nat, want: nat, m': Mem)
    requires HeapInv(m, head) && i < |m.list| && HasHeader(m, m.list[i]) && m.list[i] in m.next && !Splits(m, i, want)
    requires IsFit(m, m.list[i], want) && m' == Taken(m, i, want)
    ensures HeapInv(m', head) && m'.owner.Keys == m.owner.Keys && UsedKept(m, m') && HandedOut(m', m.list[i], want)
  {
    ListedBlock(m, head, i);
    TakeWhole(m, head, i, m');
  }

  lemma TakenUsers(m: Mem, i: nat, want: nat, q: nat, m': Mem)
    requires Splits(m, i, want) && IsFit(m, m.list[i], want) && q == m.list[i] + HEADER + want && q !in m.blocks &&
             m.list[i] in m.blocks
    requires m' == Taken(m, i, want)
    ensures UsedKept(m, m') && HandedOut(m', m.list[i], want)
  {
    FrontUsers(m, i, want, q, m');
  }

  lemma TakenFront(m: Mem, head: nat, i: nat, want: nat, m': Mem)
    requires HeapInv(m, head) && Splits(m, i, want) && IsFit(m, m.list[i], want) && m' == Taken(m, i, want)
    ensures HeapInv(m', head) && m'.owner.Keys == m.owner.Keys && UsedKept(m, m') && HandedOut(m', m.list[i], want)
  {
    var q := m.list[i] + HEADER + want;
    TakenFrontInv(m, head, i, want, q, m');
    TakenUsers(m, i, want, q, m');
  }

  lemma TakenFrontInv(m: Mem, head: nat, i: nat, want: nat, q: nat, m': Mem)
    requires HeapInv(m, head) && Splits(m, i, want) && IsFit(m, m.list[i], want) && m' == Taken(m, i, want)
    requires q == m.list[i] + HEADER + want
    ensures HeapInv(m', head) && m'.owner.Keys == m.owner.Keys && q !in m.blocks && m.list[i] in m.blocks
  {
    TakeFront(m, head, i, want, q, m');
    ListedBlock(m, head, i);
  }

  /** The search succeeds exactly if something fits; the block handed out was free and is large
      enough, and those in use before are untouched. */
  lemma ServeKeepsInv(st: HeapState, want: nat, st': HeapState, r: nat)
    requires Inv(st) && (st', r) == Serve(st, want)
    ensures Inv(st') && UsedKept(st.mem, st'.mem) && (r == 0 <==> !HasFit(st.mem, want)) && (r == 0 ==> st' == st)
    ensures r != 0 ==> r > HEADER && IsFit(st.mem, r - HEADER, want) && HandedOut(st'.mem, r - HEADER, want)
    ensures st'.mem.owner.Keys == st.mem.owner.Keys && st'.pages == st.pages
  {
    var m := st.mem;
    var i := FirstFit(m, want, 0);
    if i < |m.list| {
      ListedBlock(m, st.head, i);
      assert HasFit(m, want);
      if Splits(m, i, want) {
        TakenFront(m, st.head, i, want, st'.mem);
      } else {
        TakenWhole(m, st.head, i, want, st'.mem);
      }
    } else {
      NoFit(m, want);
    }
  }

  /** The frames the allocator would give for a growth by this payload are new to the heap. */
  ghost predicate Supplied(m: Mem, payload: nat, region: Option<nat>)
  {
    region.Some? ==> Fresh(m, payload, region.value)
  }

  /** What one growth does. */
  lemma GrowStep(st: HeapState, payload: nat, region: Option<nat>, st': HeapState)
    requires Inv(st) && CanGrow(payload, region) && Supplied(st.mem, payload, region) &&
             st' == Grow(st, payload, region.value)
    ensures Inv(st') && UsedKept(st.mem, st'.mem) && HasFit(st'.mem, payload)
  {
    GrowKeepsInv(st, PagesFor(payload), region.value, PagesFor(payload) * PAGE, st');
    FitsLess(st'.mem, PagesFor(payload) * PAGE - HEADER, payload);
  }

  /** After a growth the search finds a block. */
  lemma GrowThenServe(st: HeapState, want: nat, region: Option<nat>, grown: HeapState, st': HeapState, r: nat)
    requires Inv(st) && CanGrow(want, region) && Supplied(st.mem, want, region)
    requires grown == Grow(st, want, region.value) && (st', r) == Serve(grown, want)
    ensures Inv(st') && UsedKept(st.mem, st'.mem) && r > HEADER && HandedOut(st'.mem, r - HEADER, want) &&
            !HandedOut(st.mem, r - HEADER, 0)
  {
    GrowStep(st, want, region, grown);
    ServeKeepsInv(grown, want, st', r);
    UsedKeptTwice(st.mem, grown.mem, st'.mem);
  }

  lemma FitIsFound(st: HeapState, want: nat)
    requires Inv(st)
    ensures HasFit(st.mem, want) <==> FirstFit(st.mem, want, 0) < |st.mem.list|
  {
    var (served, first) := Serve(st, want);
    ServeKeepsInv(st, want, served, first);
    SoundIsWalkable(st.mem, st.head);
    ServeFinds(st, want);
  }

  /** kmalloc of a rounded request fails exactly if nothing fits and the heap cannot grow. */
  lemma AllocKeepsInv(st: HeapState, want: nat, region: Option<nat>, st': HeapState, r: nat)
    requires Inv(st) && Supplied(st.mem, want, region) && (st', r) == Alloc(st, want, region)
    ensures Inv(st') && UsedKept(st.mem, st'.mem)
    ensures r == 0 <==> !HasFit(st.mem, want) && !CanGrow(want, region)
    ensures r != 0 ==> r > HEADER && HandedOut(st'.mem, r - HEADER, want) && !HandedOut(st.mem, r - HEADER, 0)
  {
    FitIsFound(st, want);
    if FirstFit(st.mem, want, 0) < |st.mem.list| || !CanGrow(want, region) {
      ServeKeepsInv(st, want, st', r);
    } else {
      GrowThenServe(st, want, region, Grow(st, want, region.value), st', r);
    }
  }

  datatype Call = KmallocCall(request: nat, init: Option<nat>, region: Option<nat>) | KfreeCall(ptr: nat)

  /** Frames handed to the heap are new to it; only a block in use, or null, is freed. */
  ghost predicate Enabled(st: HeapState, call: Call)
  {
    match call
    case KmallocCall(request, init, region) =>
      Supplied(st.mem, 1, init) && Supplied(Initialised(st, init).mem, Rounded(request), region)
    case KfreeCall(ptr) => ptr == 0 || (ptr > HEADER && HandedOut(st.mem, ptr - HEADER, 0))
  }

  function After(st: HeapState, call: Call): HeapState
  {
    match call
    case KmallocCall(request, init, region) => Malloc(st, request, init, region).0
    case KfreeCall(ptr) => if ptr < HEADER then st else st.(mem := Freed(st.mem, ptr - HEADER))
  }

  lemma InitKeepsInv(st: HeapState, init: Option<nat>)
    requires Inv(st) && Supplied(st.mem, 1, init)
    ensures Inv(Initialised(st, init)) && UsedKept(st.mem, Initialised(st, init).mem)
  {
    if st.head == 0 && CanGrow(1, init) {
      GrowStep(st, 1, init, Initialised(st, init));
    }
  }

  lemma CallKeepsInv(st: HeapState, call: Call, st': HeapState)
    requires Inv(st) && Enabled(st, call) && st' == After(st, call)
    ensures Inv(st')
  {
    match call
    case KmallocCall(request, init, region) =>
      InitKeepsInv(st, init);
      if 0 < request <= SIZE_MAX - 3 {
        var (after, r) := Alloc(Initialised(st, init), Rounded(request), region);
        AllocKeepsInv(Initialised(st, init), Rounded(request), region, after, r);
      }
    case KfreeCall(ptr) =>
      if ptr != 0 {
        FreedFacts(st.mem, st.head, ptr - HEADER);
      }
  }

  /** What kfree needs to walk the list. */
  lemma FreeReady(m: Mem, head: nat, b: nat)
    requires HeapInv(m, head) && b in m.blocks
    ensures Walkable(m.(free := m.free[b := true]), head)
  {
    MarkSound(m, head, b, true);
    SoundIsWalkable(m.(free := m.free[b := true]), head);
  }

  lemma FreeCall(st: HeapState, ptr: nat)
    requires Inv(st) && Enabled(st, KfreeCall(ptr))
    ensures ptr != 0 ==> ptr >= HEADER && Walkable(st.mem.(free := st.mem.free[ptr - HEADER := true]), st.head)
    ensures Inv(After(st, KfreeCall(ptr)))
    ensures After(st, KfreeCall(ptr)) == st.(mem := if ptr == 0 then st.mem else Freed(st.mem, ptr - HEADER))
  {
    FreeCallReady(st, ptr);
    FreeCallEffect(st, ptr);
    CallKeepsInv(st, KfreeCall(ptr), After(st, KfreeCall(ptr)));
  }

  lemma FreeCallReady(st: HeapState, ptr: nat)
    requires Inv(st) && Enabled(st, KfreeCall(ptr))
    ensures ptr != 0 ==> ptr >= HEADER && Walkable(st.mem.(free := st.mem.free[ptr - HEADER := true]), st.head)
  {
    if ptr != 0 {
      FreeReady(st.mem, st.head, ptr - HEADER);
    }
  }

  lemma FreeCallEffect(st: HeapState, ptr: nat)
    requires ptr == 0 || ptr > HEADER
    ensures After(st, KfreeCall(ptr)) == st.(mem := if ptr == 0 then st.mem else Freed(st.mem, ptr - HEADER))
  {
  }

  /** What kmalloc needs to walk the list and to add to it. */
  lemma MallocReady(st: HeapState, request: nat, init: Option<nat>, region: Option<nat>)
    requires Inv(st) && Enabled(st, KmallocCall(request, init, region))
    ensures Walkable(st.mem, st.head) && (init.Some? ==> init.value > 0 && init.value !in st.mem.list)
    ensures region.Some? ==> region.value > 0 && region.value !in Initialised(st, init).mem.list
  {
    SoundIsWalkable(st.mem, st.head);
    InitKeepsInv(st, init);
    NewRegion(st, 1, init);
    NewRegion(Initialised(st, init), Rounded(request), region);
  }

  lemma NewRegion(st: HeapState, payload: nat, region: Option<nat>)
    requires Inv(st) && Supplied(st.mem, payload, region)
    ensures region.Some? ==> region.value > 0 && region.value !in st.mem.list
  {
    assert PagesFor(payload) * PAGE > 0;
    if region.Some? && region.value in st.mem.list {
      OwnedStart(st.mem, st.head, region.value);
    }
  }

  function EmptyHeap(): HeapState
  {
    HeapState(Mem(map[], map[], map[], [], {}, map[], map[]), 0, 0)
  }

  ghost predicate IsRun(calls: seq<Call>, states: seq<HeapState>)
  {
    && |states| == |calls| + 1 && states[0] == EmptyHeap()
    && forall i :: 0 <= i < |calls| ==> Enabled(states[i], calls[i]) && states[i + 1] == After(states[i], calls[i])
  }

  /** In every state of every run of kmalloc and kfree the blocks are in address order, share out
      exactly the bytes obtained, and no two free ones touch. */
  lemma {:induction false} HeapIsSound(calls: seq<Call>, states: seq<HeapState>, i: nat)
    requires IsRun(calls, states) && i <= |calls|
    ensures Inv(states[i])
  {
    if i > 0 {
      HeapIsSound(calls, states, i - 1);
      CallKeepsInv(states[i - 1], calls[i - 1], states[i]);
    }
  }

  // ---------------------------------------------------------------- the memory is what was granted

  /** The pages a growth for this payload takes. */
  function Pages(payload: nat, region: Option<nat>): set<nat>
  {
    if CanGrow(payload, region) then Span(region.value, region.value + PagesFor(payload) * PAGE) else {}
  }

  /** What heap_init takes. */
  function InitTakes(st: HeapState, init: Option<nat>): set<nat>
  {
    if st.head == 0 then Pages(1, init) else {}
  }

  /** What the growth in kmalloc takes. */
  function AllocTakes(st: HeapState, want: nat, region: Option<nat>): set<nat>
  {
    if FirstFit(st.mem, want, 0) < |st.mem.list| then {} else Pages(want, region)
  }

  /** The bytes a call obtains from the frame allocator. */
  function Takes(st: HeapState, call: Call): set<nat>
  {
    match call
    case KmallocCall(request, init, region) =>
      if request == 0 || request > SIZE_MAX - 3 then {}
      else InitTakes(st, init) + AllocTakes(Initialised(st, init), Rounded(request), region)
    case KfreeCall(_) => {}
  }

  lemma GrowKeys(st: HeapState, payload: nat, region: Option<nat>, st': HeapState)
    requires Inv(st) && CanGrow(payload, region) && Supplied(st.mem, payload, region) &&
             st' == Grow(st, payload, region.value)
    ensures Inv(st') && st'.mem.owner.Keys == st.mem.owner.Keys + Pages(payload, region)
  {
    GrowKeepsInv(st, PagesFor(payload), region.value, PagesFor(payload) * PAGE, st');
  }

  lemma InitKeys(st: HeapState, init: Option<nat>)
    requires Inv(st) && Supplied(st.mem, 1, init)
    ensures Initialised(st, init).mem.owner.Keys == st.mem.owner.Keys + InitTakes(st, init)
  {
    if st.head == 0 && CanGrow(1, init) {
      GrowKeys(st, 1, init, Initialised(st, init));
    }
  }

  lemma AllocKeys(st: HeapState, want: nat, region: Option<nat>)
    requires Inv(st) && Supplied(st.mem, want, region)
    ensures Alloc(st, want, region).0.mem.owner.Keys == st.mem.owner.Keys + AllocTakes(st, want, region)
  {
    if FirstFit(st.mem, want, 0) < |st.mem.list| || !CanGrow(want, region) {
      ServeKeepsInv(st, want, Serve(st, want).0, Serve(st, want).1);
    } else {
      var grown := Grow(st, want, region.value);
      GrowKeys(st, want, region, grown);
      ServeKeepsInv(grown, want, Serve(grown, want).0, Serve(grown, want).1);
    }
  }

  lemma MallocKeys(st: HeapState, want: nat, init: Option<nat>, region: Option<nat>, st1: HeapState)
    requires Inv(st) && Supplied(st.mem, 1, init) && st1 == Initialised(st, init) && Inv(st1) &&
             Supplied(st1.mem, want, region)
    ensures Alloc(st1, want,
            region).0.mem.owner.Keys == st.mem.owner.Keys + (InitTakes(st, init) + AllocTakes(st1, want, region))
  {
    InitKeys(st, init);
    AllocKeys(st1, want, region);
  }

  lemma CallKeys(st: HeapState, call: Call)
    requires Inv(st) && Enabled(st, call)
    ensures After(st, call).mem.owner.Keys == st.mem.owner.Keys + Takes(st, call)
  {
    match call
    case KmallocCall(request, init, region) =>
      if 0 < request <= SIZE_MAX - 3 {
        InitKeepsInv(st, init);
        MallocKeys(st, Rounded(request), init, region, Initialised(st, init));
      }
    case KfreeCall(ptr) =>
      if ptr != 0 {
        FreedFacts(st.mem, st.head, ptr - HEADER);
      }
  }

  /** The bytes granted by the first i calls. */
  ghost function Granted(calls: seq<Call>, states: seq<HeapState>, i: nat): set<nat>
    requires i <= |calls| <= |states|
  {
    if i == 0 then {} else Granted(calls, states, i - 1) + Takes(states[i - 1], calls[i - 1])
  }

  lemma StepKeys(calls: seq<Call>, states: seq<HeapState>, i: nat)
    requires IsRun(calls, states) && 0 < i <= |calls|
    ensures states[i].mem.owner.Keys == states[i - 1].mem.owner.Keys + Takes(states[i - 1], calls[i - 1])
  {
    HeapIsSound(calls, states, i - 1);
    CallKeys(states[i - 1], calls[i - 1]);
  }

  lemma {:induction false} KeysAreGranted(calls: seq<Call>, states: seq<HeapState>, i: nat)
    requires IsRun(calls, states) && i <= |calls|
    ensures states[i].mem.owner.Keys == Granted(calls, states, i)
  {
    if i > 0 {
      KeysAreGranted(calls, states, i - 1);
      StepKeys(calls, states, i);
    }
  }

  /** In every state of every run a byte lies in a block exactly if the frame allocator granted it:
      splitting, inserting and merging never cover other memory and never lose any. */
  lemma BlocksAreTheGrants(calls: seq<Call>, states: seq<HeapState>, i: nat, u: nat)
    requires IsRun(calls, states) && i <= |calls|
    ensures var m := states[i].mem;
            u in Granted(calls, states, i) <==> exists j :: 0 <= j < |m.list| && m.list[j] <= u < End(m.ext, m.list[j])
  {
    HeapIsSound(calls, states, i);
    KeysAreGranted(calls, states, i);
    ByteIsOwned(states[i].mem, states[i].head, u);
  }

  // ---------------------------------------------------------------- the bytes add up

  function Extent(ext: map<nat, nat>, b: nat): nat
  {
    if b in ext then ext[b] else 0
  }

  /** Header and payload bytes of the listed blocks. */
  function Total(ext: map<nat, nat>, list: seq<nat>): nat
  {
    if list == [] then 0 else Extent(ext, list[0]) + Total(ext, list[1..])
  }

  lemma {:induction false} TotalConcat(ext: map<nat, nat>, a: seq<nat>, b: seq<nat>)
    ensures Total(ext, a + b) == Total(ext, a) + Total(ext, b)
  {
    if a == [] {
      assert a + b == b;
    } else {
      TotalConcat(ext, a[1..], b);
      assert (a + b)[1..] == a[1..] + b;
    }
  }

  lemma {:induction false} TotalFrame(ext: map<nat, nat>, ext': map<nat, nat>, list: seq<nat>)
    requires forall i :: 0 <= i < |list| ==> Extent(ext', list[i]) == Extent(ext, list[i])
    ensures Total(ext', list) == Total(ext, list)
  {
    if list != [] {
      TotalFrame(ext, ext', list[1..]);
    }
  }

  /** One element more. */
  lemma TotalInsert(ext: map<nat, nat>, a: seq<nat>, b: nat, c: seq<nat>)
    ensures Total(ext, a + [b] + c) == Total(ext, a) + Extent(ext, b) + Total(ext, c)
  {
    TotalConcat(ext, a + [b], c);
    TotalConcat(ext, a, [b]);
    assert [b][1..] == [];
  }

  lemma MergeTotal(m: Mem, j: nat)
    requires Joins(m, j) && Distinct(m.list)
    ensures Total(Merge(m, j).ext, Merge(m, j).list) == Total(m.ext, m.list)
  {
    var a, b, m' := m.list[j], m.list[j + 1], Merge(m, j);
    var front, back := m.list[..j], m.list[j + 2..];
    assert m.list == front + [a] + ([b] + back);
    assert m'.list == front + [a] + back;
    TotalInsert(m.ext, front, a, [b] + back);
    TotalConcat(m.ext, [b], back);
    assert [b][1..] == [];
    TotalInsert(m'.ext, front, a, back);
    TotalFrame(m.ext, m'.ext, front);
    TotalFrame(m.ext, m'.ext, back);
  }

  lemma {:induction false} MergeFromTotal(m: Mem, head: nat, j: nat)
    requires Walkable(m, head)
    ensures Total(MergeFrom(m, j).ext, MergeFrom(m, j).list) == Total(m.ext, m.list)
    decreases |m.list| - j
  {
    if j + 1 < |m.list| {
      if Joins(m, j) {
        MergeTotal(m, j);
        WalkMerge(m, head, j);
        MergeFromTotal(Merge(m, j), head, j);
      } else {
        MergeFromTotal(m, head, j + 1);
      }
    }
  }

  /** A new element b of extent n. */
  lemma TotalAdded(ext: map<nat, nat>, list: seq<nat>, k: nat, b: nat, n: nat)
    requires b !in list && k <= |list|
    ensures Total(ext[b := n], InsertedAt(list, k, b)) == Total(ext, list) + n
  {
    var front, back := list[..k], list[k..];
    assert list == front + back;
    TotalConcat(ext, front, back);
    TotalInsert(ext[b := n], front, b, back);
    TotalFrame(ext, ext[b := n], front);
    TotalFrame(ext, ext[b := n], back);
  }

  lemma PlacedTotal(m: Mem, b: nat, n: nat)
    requires b !in m.list && n > HEADER
    ensures Total(Placed(m, b, n).ext, Placed(m, b, n).list) == Total(m.ext, m.list) + n
  {
    TotalAdded(m.ext, m.list, Place(m.list, b, 0), b, n);
  }

  lemma FrontTotal(m: Mem, i: nat, want: nat, q: nat, m': Mem)
    requires Distinct(m.list) && i < |m.list| && HasHeader(m, m.list[i]) && m.list[i] in m.next && q !in m.list
    requires m.size[m.list[i]] > want + HEADER && q == m.list[i] + HEADER + want && m' == Front(m, i, want, q)
    ensures Total(m'.ext, m'.list) == Total(m.ext, m.list)
  {
    var a, front, back := m.list[i], m.list[..i], m.list[i + 1..];
    assert m.list == front + [a] + back;
    assert m'.list == front + [a] + ([q] + back);
    TotalInsert(m.ext, front, a, back);
    TotalInsert(m'.ext, front, a, [q] + back);
    TotalConcat(m'.ext, [q], back);
    assert [q][1..] == [];
    TotalFrame(m.ext, m'.ext, front);
    TotalFrame(m.ext, m'.ext, back);
  }

  /** The blocks' bytes are those of the pages. */
  ghost predicate Counted(st: HeapState)
  {
    Total(st.mem.ext, st.mem.list) == st.pages * PAGE
  }

  lemma GrowCounts(st: HeapState, payload: nat, b: nat)
    requires Inv(st) && Counted(st) && Fresh(st.mem, payload, b)
    ensures Counted(Grow(st, payload, b))
  {
    var n := PagesFor(payload) * PAGE;
    PlaceFacts(st.mem, st.head, b, n);
    PlacedTotal(st.mem, b, n);
    SoundIsWalkable(st.mem, st.head);
    PlacedWalk(st.mem, st.head, b, n);
    MergeFromTotal(Placed(st.mem, b, n), PlacedHead(st.mem, st.head, b), 0);
  }

  lemma SplitIsNew(m: Mem, head: nat, i: nat, want: nat, q: nat)
    requires Sound(m, head) && i < |m.list| && Splits(m, i, want) && q == m.list[i] + HEADER + want
    ensures Distinct(m.list) && q !in m.list
  {
    ListedBlock(m, head, i);
    TailIsNew(m, head, i, q);
    AscendingIsDistinct(m.list);
  }

  lemma TakenTotal(m: Mem, i: nat, want: nat, q: nat)
    requires i < |m.list| && HasHeader(m, m.list[i]) && m.list[i] in m.next && q == m.list[i] + HEADER + want
    requires Splits(m, i, want) ==> Distinct(m.list) && q !in m.list
    ensures Total(Taken(m, i, want).ext, Taken(m, i, want).list) == Total(m.ext, m.list)
  {
    if Splits(m, i, want) {
      FrontTotal(m, i, want, q, Front(m, i, want, q));
    }
  }

  lemma ServeCounts(st: HeapState, want: nat)
    requires Inv(st) && Counted(st)
    ensures Counted(Serve(st, want).0)
  {
    var m := st.mem;
    var i := FirstFit(m, want, 0);
    if i < |m.list| && HasHeader(m, m.list[i]) && m.list[i] in m.next {
      var q := m.list[i] + HEADER + want;
      if Splits(m, i, want) {
        SplitIsNew(m, st.head, i, want, q);
      }
      TakenTotal(m, i, want, q);
    }
  }

  lemma AllocCounts(st: HeapState, want: nat, region: Option<nat>)
    requires Inv(st) && Counted(st) && Supplied(st.mem, want, region)
    ensures Counted(Alloc(st, want, region).0)
  {
    if FirstFit(st.mem, want, 0) < |st.mem.list| || !CanGrow(want, region) {
      ServeCounts(st, want);
    } else {
      GrowCounts(st, want, region.value);
      GrowStep(st, want, region, Grow(st, want, region.value));
      ServeCounts(Grow(st, want, region.value), want);
    }
  }

  lemma FreeCounts(st: HeapState, b: nat)
    requires Inv(st) && Counted(st) && b in st.mem.blocks
    ensures Counted(st.(mem := Freed(st.mem, b)))
  {
    MarkSound(st.mem, st.head, b, true);
    var m1 := st.mem.(free := st.mem.free[b := true]);
    SoundIsWalkable(m1, st.head);
    MergeFromTotal(m1, st.head, 0);
  }

  lemma InitCounts(st: HeapState, init: Option<nat>)
    requires Inv(st) && Counted(st) && Supplied(st.mem, 1, init)
    ensures Counted(Initialised(st, init))
  {
    if st.head == 0 && CanGrow(1, init) {
      GrowCounts(st, 1, init.value);
    }
  }

  lemma CallCounts(st: HeapState, call: Call)
    requires Inv(st) && Enabled(st, call) && Counted(st)
    ensures Counted(After(st, call))
  {
    match call
    case KmallocCall(request, init, region) =>
      InitKeepsInv(st, init);
      InitCounts(st, init);
      if 0 < request <= SIZE_MAX - 3 {
        AllocCounts(Initialised(st, init), Rounded(request), region);
      }
    case KfreeCall(ptr) =>
      if ptr != 0 {
        FreeCounts(st, ptr - HEADER);
      }
  }

  /** In every state of every run, headers and payloads add up to the pages obtained. */
  lemma {:induction false} BytesAreThePages(calls: seq<Call>, states: seq<HeapState>, i: nat)
    requires IsRun(calls, states) && i <= |calls|
    ensures Total(states[i].mem.ext, states[i].mem.list) == states[i].pages * PAGE
  {
    if i > 0 {
      HeapIsSound(calls, states, i - 1);
      BytesAreThePages(calls, states, i - 1);
      CallCounts(states[i - 1], calls[i - 1]);
    }
  }

  /** Block b is in use and has at least n bytes. */
  ghost predicate HandedOut(m: Mem, b: nat, n: nat)
  {
    b in m.blocks && b in m.free && !m.free[b] && b in m.size && m.size[b] >= n
  }
}
