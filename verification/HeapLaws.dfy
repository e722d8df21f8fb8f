/** What kmalloc and kfree give their callers, in bytes (heap.c): a block of at least the size asked for,
    aligned, not in use before; failure exactly when no free block is large enough and the heap cannot
    grow; and memory that has been freed can be had again. */
module HeapLaws {
  import opened Common
  import opened Tiling
  import opened HeapBlocks
  import opened KernelHeap

  const ALIGNMENT := 4

  /** Block b is in use, with so many bytes or more. */
  ghost predicate InUse(m: Mem, b: nat, bytes: nat)
  {
    b in m.blocks && b in m.free && !m.free[b] && b in m.size && m.size[b] >= bytes
  }

  /** Some free block has so many bytes. */
  ghost predicate HasRoom(m: Mem, bytes: nat)
  {
    exists b :: b in m.blocks && b in m.free && m.free[b] && b in m.size && m.size[b] >= bytes
  }

  // ---------------------------------------------------------------- alignment

  /** Blocks lie at aligned addresses and have aligned sizes. */
  ghost predicate Aligned(m: Mem)
  {
    forall b :: b in m.blocks && b in m.size ==> b % ALIGNMENT == 0 && m.size[b] % ALIGNMENT == 0
  }

  lemma MergeAligned(m: Mem, j: nat)
    requires Aligned(m) && j + 1 < |m.list| && HasHeader(m, m.list[j]) && HasHeader(m, m.list[j + 1])
    requires m.list[j + 1] in m.next && m.list[j] in m.blocks && m.list[j + 1] in m.blocks
    ensures Aligned(Merge(m, j))
  {
  }

  lemma {:induction false} MergeFromAligned(m: Mem, head: nat, j: nat)
    requires Sound(m, head) && Aligned(m)
    ensures Aligned(MergeFrom(m, j))
    decreases |m.list| - j
  {
    if j + 1 < |m.list| {
      if Joins(m, j) {
        ListedBlock(m, head, j);
        ListedBlock(m, head, j + 1);
        MergeAligned(m, j);
        MergeKeepsSound(m, head, j);
        MergeFromAligned(Merge(m, j), head, j);
      } else {
        MergeFromAligned(m, head, j + 1);
      }
    }
  }

  lemma TakenAligned(m: Mem, i: nat, want: nat)
    requires Aligned(m) && i < |m.list| && HasHeader(m, m.list[i]) && m.list[i] in m.next && m.list[i] in m.blocks
    requires want % ALIGNMENT == 0
    ensures Aligned(Taken(m, i, want))
  {
  }

  lemma PlacedAligned(m: Mem, b: nat, n: nat)
    requires Aligned(m) && b % ALIGNMENT == 0 && n % ALIGNMENT == 0 && n >= HEADER
    ensures Aligned(Placed(m, b, n))
  {
  }

  lemma GrownAligned(st: HeapState, payload: nat, region: Option<nat>)
    requires Inv(st) && Aligned(st.mem) && CanGrow(payload, region) && Supplied(st.mem, payload, region)
    requires region.value % ALIGNMENT == 0
    ensures Aligned(Grow(st, payload, region.value).mem)
  {
    var b, n := region.value, PagesFor(payload) * PAGE;
    PlacedAligned(st.mem, b, n);
    PlaceFacts(st.mem, st.head, b, n);
    InsertKeepsSound(st.mem, st.head, PlacedHead(st.mem, st.head, b), Place(st.mem.list, b, 0), b, n,
      PlacedLinks(st.mem, b));
    MergeFromAligned(Placed(st.mem, b, n), PlacedHead(st.mem, st.head, b), 0);
  }

  lemma ServedAligned(st: HeapState, want: nat)
    requires Inv(st) && Aligned(st.mem) && want % ALIGNMENT == 0
    ensures Aligned(Serve(st, want).0.mem)
  {
    var i := FirstFit(st.mem, want, 0);
    if i < |st.mem.list| {
      ListedBlock(st.mem, st.head, i);
      TakenAligned(st.mem, i, want);
    }
  }

  // ---------------------------------------------------------------- what a request is rounded to

  /** The least aligned number that is large enough. */
  lemma RoundedUp(request: nat)
    ensures request <= Rounded(request) < request + ALIGNMENT && Rounded(request) % ALIGNMENT == 0
  {
  }

  /** Among aligned blocks the rounding makes no difference. */
  lemma RoundedFits(m: Mem, request: nat)
    requires Aligned(m)
    ensures HasFit(m, Rounded(request)) <==> HasRoom(m, request)
  {
    RoundedUp(request);
    if HasRoom(m, request) {
      var b :| b in m.blocks && b in m.free && m.free[b] && b in m.size && m.size[b] >= request;
      assert IsFit(m, b, Rounded(request));
    }
    if HasFit(m, Rounded(request)) {
      var b :| b in m.blocks && IsFit(m, b, Rounded(request));
      assert m.size[b] >= request;
    }
  }

  // ---------------------------------------------------------------- kmalloc

  /** heap_init on an empty heap makes room for one page less a header, and no more. */
  lemma InitRoom(st: HeapState, init: Option<nat>, bytes: nat)
    requires Inv(st) && Supplied(st.mem, 1, init) && st.head == 0
    ensures HasRoom(Initialised(st, init).mem, bytes) <==> init.Some? && bytes <= PAGE - HEADER
  {
    EmptyWithoutHead(st.mem);
    if init.Some? {
      var m := Initialised(st, init).mem;
      assert PagesFor(1) == 1;
      GrowKeepsInv(st, 1, init.value, PAGE, Initialised(st, init));
      forall b | b in m.blocks
        ensures b in m.size && m.size[b] <= PAGE - HEADER
      {
        OnePageBlock(m, init.value, b);
      }
      var b :| b in m.blocks && IsFit(m, b, PAGE - HEADER);
      assert m.free[b] && m.size[b] == PAGE - HEADER;
    }
  }

  lemma EmptyWithoutHead(m: Mem)
    requires Sound(m, 0)
    ensures m.blocks == {} && m.owner == map[]
  {
    assert m.list == [];
    assert m.owner.Keys == {};
  }

  lemma OnePageBlock(m: Mem, start: nat, b: nat)
    requires Headed(m) && Tiled(m.ext, m.owner, m.blocks) && m.owner.Keys == Span(start, start + PAGE) && b in m.blocks
    ensures b in m.size && m.size[b] <= PAGE - HEADER
  {
    assert HasHeader(m, b) && Owns(m.ext, m.owner, b);
    assert b in m.owner.Keys && End(m.ext, b) - 1 in m.owner.Keys;
  }

  /** There is a free block of that size, or memory for one. */
  ghost predicate Obtainable(st: HeapState, request: nat, init: Option<nat>, region: Option<nat>)
  {
    || HasRoom(st.mem, request)
    || (st.head == 0 && init.Some? && request <= PAGE - HEADER)
    || (region.Some? && request <= SIZE_MAX - HEADER - (PAGE - 1))
  }

  lemma RoomAfterInit(st: HeapState, init: Option<nat>, request: nat)
    requires Inv(st) && Supplied(st.mem, 1, init)
    ensures HasRoom(Initialised(st, init).mem, request) <==>
            HasRoom(st.mem, request) || (st.head == 0 && init.Some? && request <= PAGE - HEADER)
  {
    if st.head == 0 {
      InitRoom(st, init, request);
      EmptyWithoutHead(st.mem);
    }
  }

  lemma GrowthRounded(request: nat, region: Option<nat>)
    ensures CanGrow(Rounded(request), region) <==> region.Some? && request <= SIZE_MAX - HEADER - (PAGE - 1)
  {
    RoundedUp(request);
  }

  lemma InitAligned(st: HeapState, init: Option<nat>)
    requires Inv(st) && Supplied(st.mem, 1, init) && Aligned(st.mem) && (init.Some? ==> init.value % ALIGNMENT == 0)
    ensures Aligned(Initialised(st, init).mem)
  {
    if st.head == 0 && init.Some? {
      GrownAligned(st, 1, init);
    }
  }

  lemma AllocAligned(st: HeapState, want: nat, region: Option<nat>)
    requires Inv(st) && Supplied(st.mem, want, region) && Aligned(st.mem) && want % ALIGNMENT == 0
    requires region.Some? ==> region.value % ALIGNMENT == 0
    ensures Aligned(Alloc(st, want, region).0.mem)
  {
    if FirstFit(st.mem, want, 0) < |st.mem.list| || !CanGrow(want, region) {
      ServedAligned(st, want);
    } else {
      GrownAligned(st, want, region);
      GrowStep(st, want, region, Grow(st, want, region.value));
      ServedAligned(Grow(st, want, region.value), want);
    }
  }

  /** The regions are aligned, as pages are. */
  predicate AlignedRegions(init: Option<nat>, region: Option<nat>)
  {
    (init.Some? ==> init.value % ALIGNMENT == 0) && (region.Some? ==> region.value % ALIGNMENT == 0)
  }

  lemma MallocAligned(st: HeapState, request: nat, init: Option<nat>, region: Option<nat>)
    requires Inv(st) && Enabled(st, KmallocCall(request, init, region)) && Aligned(st.mem) &&
             AlignedRegions(init, region)
    ensures Aligned(Malloc(st, request, init, region).0.mem)
  {
    if 0 < request <= SIZE_MAX - 3 {
      InitKeepsInv(st, init);
      InitAligned(st, init);
      RoundedUp(request);
      AllocAligned(Initialised(st, init), Rounded(request), region);
    }
  }

  /** kmalloc fails exactly for 0, for a request too large to round, and if no free block has that many
      bytes and none can be made. */
  lemma MallocFailsIff(st: HeapState, request: nat, init: Option<nat>, region: Option<nat>)
    requires Inv(st) && Enabled(st, KmallocCall(request, init, region)) && Aligned(st.mem) &&
             AlignedRegions(init, region)
    ensures Malloc(st, request, init, region).1 == 0 <==>
            request == 0 || request > SIZE_MAX - 3 || !Obtainable(st, request, init, region)
  {
    if 0 < request <= SIZE_MAX - 3 {
      var st1 := Initialised(st, init);
      var (st', r) := Alloc(st1, Rounded(request), region);
      InitKeepsInv(st, init);
      InitAligned(st, init);
      AllocKeepsInv(st1, Rounded(request), region, st', r);
      RoundedFits(st1.mem, request);
      RoomAfterInit(st, init, request);
      GrowthRounded(request, region);
    }
  }

  /** What kmalloc hands out has the bytes asked for, was not in use and is aligned; what was in use before
      keeps its place and size. */
  lemma MallocGives(st: HeapState, request: nat, init: Option<nat>, region: Option<nat>, st': HeapState, r: nat)
    requires Inv(st) && Enabled(st, KmallocCall(request, init, region)) && (st', r) == Malloc(st, request, init, region)
    requires r != 0
    ensures r > HEADER && InUse(st'.mem, r - HEADER, request) && !InUse(st.mem, r - HEADER, 0)
    ensures UsedKept(st.mem, st'.mem) && (Aligned(st.mem) && AlignedRegions(init, region) ==> r % ALIGNMENT == 0)
  {
    GivesBlock(st, request, init, region, st', r);
    if Aligned(st.mem) && AlignedRegions(init, region) {
      MallocAligned(st, request, init, region);
      AlignedBlock(st'.mem, r, request);
    }
  }

  lemma GivesBlock(st: HeapState, request: nat, init: Option<nat>, region: Option<nat>, st': HeapState, r: nat)
    requires Inv(st) && Enabled(st, KmallocCall(request, init, region)) && (st', r) == Malloc(st, request, init, region)
    requires r != 0
    ensures r > HEADER && InUse(st'.mem, r - HEADER, request) && !InUse(st.mem, r - HEADER, 0)
    ensures UsedKept(st.mem, st'.mem)
  {
    RoundedUp(request);
    InitKeepsInv(st, init);
    AllocGives(st.mem, Initialised(st, init), request, Rounded(request), region, st', r);
  }

  lemma AlignedBlock(m: Mem, r: nat, bytes: nat)
    requires Aligned(m) && r > HEADER && InUse(m, r - HEADER, bytes)
    ensures r % ALIGNMENT == 0
  {
  }

  lemma AllocGives(m: Mem, st: HeapState, request: nat, want: nat, region: Option<nat>, st': HeapState, r: nat)
    requires Inv(st) && UsedKept(m, st.mem) && Supplied(st.mem, want, region) && request <= want
    requires (st', r) == Alloc(st, want, region) && r != 0
    ensures r > HEADER && InUse(st'.mem, r - HEADER, request) && !InUse(m, r - HEADER, 0) && UsedKept(m, st'.mem)
  {
    AllocKeepsInv(st, want, region, st', r);
    WasInUse(m, st.mem, r - HEADER);
    UsedKeptTwice(m, st.mem, st'.mem);
  }

  lemma WasInUse(m: Mem, m': Mem, b: nat)
    requires UsedKept(m, m')
    ensures InUse(m, b, 0) ==> HandedOut(m', b, 0)
  {
  }

  lemma TakenTight(m: Mem, i: nat, want: nat)
    requires i < |m.list| && HasHeader(m, m.list[i]) && m.list[i] in m.next
    ensures m.list[i] in Taken(m, i, want).size && Taken(m, i, want).size[m.list[i]] <= want + HEADER + 4
  {
  }

  lemma ServeTight(st: HeapState, want: nat)
    ensures var (st', r) := Serve(st, want);
            r != 0 ==> r >= HEADER && r - HEADER in st'.mem.size && st'.mem.size[r - HEADER] <= want + HEADER + 4
  {
    var i := FirstFit(st.mem, want, 0);
    if i < |st.mem.list| && HasHeader(st.mem, st.mem.list[i]) && st.mem.list[i] in st.mem.next {
      TakenTight(st.mem, i, want);
    }
  }

  /** kmalloc keeps back what can be a block of its own: it hands out less than a header and eight bytes
      more than was asked for. */
  lemma MallocIsTight(st: HeapState, request: nat, init: Option<nat>, region: Option<nat>)
    ensures var (st', r) := Malloc(st, request, init, region);
            r != 0 ==> r >= HEADER && r - HEADER in st'.mem.size && st'.mem.size[r - HEADER] < request + HEADER + 8
  {
    var st1, want := Initialised(st, init), Rounded(request);
    RoundedUp(request);
    ServeTight(st1, want);
    if CanGrow(want, region) {
      ServeTight(Grow(st1, want, region.value), want);
    }
  }

  // ---------------------------------------------------------------- kfree

  /** Merging changes no mark. */
  lemma {:induction false} MergeKeepsMarks(m: Mem, j: nat)
    ensures MergeFrom(m, j).free == m.free
    decreases |m.list| - j
  {
    if j + 1 < |m.list| {
      if Joins(m, j) {
        MergeKeepsMarks(Merge(m, j), j);
      } else {
        MergeKeepsMarks(m, j + 1);
      }
    }
  }

  /** kfree: the block is no longer in use and some free block is at least as large; every other block in use keeps
      its place and size. */
  lemma FreeGives(st: HeapState, ptr: nat, c: nat)
    requires Inv(st) && ptr > HEADER && InUse(st.mem, ptr - HEADER, 0)
    ensures var m, m' := st.mem, After(st, KfreeCall(ptr)).mem;
            && Inv(After(st, KfreeCall(ptr))) && !InUse(m', ptr - HEADER, 0) && HasRoom(m', m.size[ptr - HEADER])
            && (c != ptr - HEADER && InUse(m, c, 0) ==> InUse(m', c, 0) && m'.size[c] == m.size[c])
  {
    var b, m := ptr - HEADER, st.mem;
    FreedFacts(m, st.head, b);
    MergeKeepsMarks(m.(free := m.free[b := true]), 0);
    FreedRoom(m, st.head, b);
  }

  lemma FreedRoom(m: Mem, head: nat, b: nat)
    requires HeapInv(m, head) && b in m.blocks && b in m.size
    ensures HasRoom(Freed(m, b), m.size[b])
  {
    var m1 := m.(free := m.free[b := true]);
    assert IsFit(m1, b, m.size[b]);
    MarkSound(m, head, b, true);
    MergeAll(m1, head, 0, m.size[b]);
    var fit :| fit in Freed(m, b).blocks && IsFit(Freed(m, b), fit, m.size[b]);
  }

  lemma FreeAligned(st: HeapState, ptr: nat)
    requires Inv(st) && Enabled(st, KfreeCall(ptr)) && Aligned(st.mem)
    ensures Aligned(After(st, KfreeCall(ptr)).mem)
  {
    if ptr != 0 {
      FreedAligned(st.mem, st.head, ptr - HEADER);
    }
  }

  lemma FreedAligned(m: Mem, head: nat, b: nat)
    requires HeapInv(m, head) && Aligned(m) && b in m.blocks
    ensures Aligned(Freed(m, b))
  {
    MarkSound(m, head, b, true);
    MergeFromAligned(m.(free := m.free[b := true]), head, 0);
  }

  /** Memory that has been freed can be had again without growing. */
  lemma FreedCanBeHad(st: HeapState, ptr: nat, request: nat)
    requires Inv(st) && Aligned(st.mem) && ptr > HEADER && InUse(st.mem, ptr - HEADER, request) &&
             0 < request <= SIZE_MAX - 3
    ensures Malloc(After(st, KfreeCall(ptr)), request, None, None).1 != 0
  {
    FreeGives(st, ptr, 0);
    FreeAligned(st, ptr);
    var m' := After(st, KfreeCall(ptr)).mem;
    var b :| b in m'.blocks && b in m'.free && m'.free[b] && b in m'.size && m'.size[b] >= st.mem.size[ptr - HEADER];
    assert HasRoom(m', request);
    MallocFailsIff(After(st, KfreeCall(ptr)), request, None, None);
  }

  /** In every run whose regions are pages, all blocks are aligned. */
  lemma {:induction false} RunIsAligned(calls: seq<Call>, states: seq<HeapState>, i: nat)
    requires IsRun(calls, states) && i <= |calls|
    requires forall k :: 0 <= k < |calls| && calls[k].KmallocCall? ==> AlignedRegions(calls[k].init, calls[k].region)
    ensures Aligned(states[i].mem)
  {
    if i > 0 {
      RunIsAligned(calls, states, i - 1);
      HeapIsSound(calls, states, i - 1);
      match calls[i - 1]
      case KmallocCall(request, init, region) => MallocAligned(states[i - 1], request, init, region);
      case KfreeCall(ptr) => FreeAligned(states[i - 1], ptr);
    }
  }
}
