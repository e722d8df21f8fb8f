/** paging.c as it runs: page tables, page_ref[] and frames changed in place, entry by entry, with
    frames taken from and given back to the physical memory manager. Each method is proved to
    perform one step of the state machine in module Paging. */
module AddressSpaces {
  import opened Common
  import opened Paging
  import Pmm

  /** No frame appears twice in one table. */
  ghost predicate DistinctFrames(ptes: seq<Pte>)
  {
    forall i: nat, j: nat, f: nat :: MapsFrame(ptes, i, f) && MapsFrame(ptes, j, f) ==> i == j
  }

  lemma SpaceIsDistinct(m: Mem, s: nat)
    requires Permissions(m) && s in m.spaces
    ensures DistinctFrames(m.spaces[s].ptes)
  {
    var ptes := m.spaces[s].ptes;
    forall i: nat, j: nat, f: nat | MapsFrame(ptes, i, f) && MapsFrame(ptes, j, f)
      ensures i == j
    {
      assert Maps(m, s, i, f) && Maps(m, s, j, f);
    }
  }

  /** Visiting one more entry adds its frame, which was not met before. */
  lemma NextEntry(ptes: seq<Pte>, i: nat)
    requires i < |ptes| && DistinctFrames(ptes)
    ensures forall f: nat :: HasFrame(ptes[..i + 1], f) <==> HasFrame(ptes[..i], f) || MapsFrame(ptes, i, f)
    ensures ptes[i].Mapped() ==> !HasFrame(ptes[..i], ptes[i].frame)
  {
    forall f: nat
      ensures HasFrame(ptes[..i + 1], f) <==> HasFrame(ptes[..i], f) || MapsFrame(ptes, i, f)
    {
      if HasFrame(ptes[..i], f) {
        var j: nat :| j < i && MapsFrame(ptes[..i], j, f);
        assert MapsFrame(ptes[..i + 1], j, f);
      }
      if MapsFrame(ptes, i, f) {
        assert MapsFrame(ptes[..i + 1], i, f);
      }
      if HasFrame(ptes[..i + 1], f) {
        var j: nat :| j < i + 1 && MapsFrame(ptes[..i + 1], j, f);
        assert j < i ==> MapsFrame(ptes[..i], j, f);
      }
    }
    if ptes[i].Mapped() && HasFrame(ptes[..i], ptes[i].frame) {
      var j: nat :| j < i && MapsFrame(ptes[..i], j, ptes[i].frame);
      assert MapsFrame(ptes, j, ptes[i].frame) && MapsFrame(ptes, i, ptes[i].frame);
    }
  }

  lemma FrameManaged(m: Mem, all: set<nat>, s: nat, i: nat)
    requires Inv(m, all) && s in m.spaces && i < SLOTS
    ensures m.spaces[s].ptes[i].Mapped() ==> m.spaces[s].ptes[i].frame in all
  {
    if m.spaces[s].ptes[i].Mapped() {
      assert Maps(m, s, i, m.spaces[s].ptes[i].frame);
      assert IsMapped(m, m.spaces[s].ptes[i].frame);
    }
  }

  lemma TablesManaged(m: Mem, all: set<nat>, s: nat)
    requires Inv(m, all) && s in m.spaces
    ensures m.spaces[s].Tables() <= all
  {
    assert forall f :: f in m.spaces[s].Tables() ==> IsTable(m, f);
  }

  class PagingSystem {
    const pmm: Pmm.FrameAllocator
    const pageRef: array<nat>
    const ram: array<Page>
    var spaces: map<nat, Space>
    var active: nat
    ghost var kernel: set<nat>

    ghost function Free(): set<nat>
      reads pmm.bitmap
    {
      set f: nat | f < pmm.bitmap.Length && !pmm.bitmap[f]
    }

    ghost function State(): Mem
      reads this, pageRef, ram, pmm.bitmap
    {
      Mem(spaces, active, pageRef[..], ram[..], Free(), kernel)
    }

    ghost predicate Valid(all: set<nat>)
      reads this, pageRef, ram, pmm, pmm.bitmap
    {
      && pageRef.Length == FRAME_COUNT && ram.Length == FRAME_COUNT
      && pmm.Valid()
      && (forall f :: f in all ==> 0 < f < pmm.bitmap.Length)
      && Inv(State(), all)
    }

    /** pmm_alloc_block. */
    method AllocBlock() returns (f: nat)
      requires pmm.Valid()
      modifies pmm`usedBlocks, pmm.bitmap
      ensures pmm.Valid()
      ensures f == 0 ==> Free() == old(Free())
      ensures f != 0 ==> f in old(Free()) && Free() == old(Free()) - {f}
    {
      f := pmm.AllocBlocks(1);
    }

    /** pmm_free_block. */
    method FreeBlock(f: nat)
      requires pmm.Valid() && 0 < f < pmm.bitmap.Length
      modifies pmm`usedBlocks, pmm.bitmap
      ensures pmm.Valid()
      ensures Free() == old(Free()) + {f}
    {
      pmm.FreeBlocks(f * Pmm.BLOCK_SIZE, 1);
    }

    /** paging_install: no user space yet; the allocator's free frames become user memory. */
    constructor (frames: Pmm.FrameAllocator, ghost kernelFrames: set<nat>)
      requires frames.Valid()
      requires forall f :: f in kernelFrames ==> 0 < f < frames.bitmap.Length && frames.bitmap[f]
      ensures pmm == frames && kernel == kernelFrames && active == KERNEL && spaces == map[]
      ensures Valid(Free() + kernelFrames)
    {
      pmm := frames;
      pageRef := new nat[FRAME_COUNT](_ => 0);
      ram := new Page[FRAME_COUNT](_ => ZeroPage());
      spaces := map[];
      active := KERNEL;
      kernel := kernelFrames;
      new;
      var m := State();
      assert forall f: nat :: !IsMapped(m, f) && !IsTable(m, f);
    }

    /** paging_cow_clone_table over slots lo..hi. */
    method CloneTable(src: seq<Pte>, dst: seq<Pte>, lo: nat, hi: nat) returns (src': seq<Pte>, dst': seq<Pte>)
      requires lo <= hi <= |src| == |dst| && DistinctFrames(src) && pageRef.Length == FRAME_COUNT
      modifies pageRef
      ensures |src'| == |dst'| == |src|
      ensures forall i :: 0 <= i < |src| ==> src'[i] == if lo <= i < hi then ParentPte(src[i]) else src[i]
      ensures forall i :: 0 <= i < |src| ==>
        dst'[i] == if lo <= i < hi && src[i].Mapped() then ParentPte(src[i]) else dst[i]
      ensures forall f :: 0 <= f < FRAME_COUNT ==> pageRef[f] == Bumped(old(pageRef[f]), src, lo, hi, f)
    {
      src', dst' := src, dst;
      for i := lo to hi
        invariant |src'| == |dst'| == |src|
        invariant forall j :: 0 <= j < |src| ==> src'[j] == if lo <= j < i then ParentPte(src[j]) else src[j]
        invariant forall j :: 0 <= j < |src| ==>
          dst'[j] == if lo <= j < i && src[j].Mapped() then ParentPte(src[j]) else dst[j]
        invariant forall f :: 0 <= f < FRAME_COUNT ==> pageRef[f] == Bumped(old(pageRef[f]), src, lo, i, f)
      {
        NextEntry(src, i);
        var p := src'[i];
        if p.Mapped() {
          if !p.shared {
            src' := src'[i := p.(rw := false)];
          }
          dst' := dst'[i := src'[i]];
          if p.frame < FRAME_COUNT {
            NotBefore(src, lo, i);
            pageRef[p.frame] := (pageRef[p.frame] + 1) % REF_LIMIT;
          }
        }
      }
    }
  
    /** Both tables of a space. */
    method CloneTables(src: seq<Pte>) returns (src': seq<Pte>, dst': seq<Pte>)
      requires |src| == SLOTS && DistinctFrames(src) && pageRef.Length == FRAME_COUNT
      modifies pageRef
      ensures src' == ParentPtes(src) && dst' == ChildPtes(src)
      ensures pageRef[..] == BumpRefs(old(pageRef[..]), src)
    {
      var src1, dst1 := CloneTable(src, FreshPtes(), 0, TABLE_ENTRIES);
      SameFrames(src, src1);
      src', dst' := CloneTable(src1, dst1, TABLE_ENTRIES, SLOTS);
      BumpedTwice(old(pageRef[..]), src, src1);
      assert pageRef[..] == BumpRefs(old(pageRef[..]), src);
    }

    /** The three pmm_alloc_block calls of paging_create_user_address_space, with their clean-up. */
    method AllocTables() returns (t: Option<TableFrames>)
      requires pmm.Valid()
      modifies pmm`usedBlocks, pmm.bitmap
      ensures pmm.Valid()
      ensures t.None? ==> Free() == old(Free())
      ensures t.Some? ==> t.value.DistinctIn(old(Free())) && Free() == old(Free()) - t.value.Frames()
    {
      var d := AllocBlock();
      var f := AllocBlock();
      var e := AllocBlock();
      if d == 0 || f == 0 || e == 0 {
        if d != 0 {
          FreeBlock(d);
        }
        if f != 0 {
          FreeBlock(f);
        }
        if e != 0 {
          FreeBlock(e);
        }
        return None;
      }
      return Some(TableFrames(d, f, e));
    }

    /** paging_create_user_address_space; `id` is the address kmalloc returned, 0 when it failed. */
    method CreateUserAddressSpace(id: nat, ghost all: set<nat>) returns (ok: bool, ghost t: Option<TableFrames>)
      requires Valid(all) && id !in spaces
      modifies this`spaces, pmm`usedBlocks, pmm.bitmap
      ensures Valid(all)
      ensures t.Some? ==> id != 0 && t.value.DistinctIn(old(Free()))
      ensures ok == t.Some? && State() == Create(old(State()), id, t)
    {
      if id == 0 {
        return false, None;
      }
      var tables := AllocTables();
      if tables.None? {
        return false, None;
      }
      CreateKeepsInv(old(State()), all, id, tables.value);
      spaces := spaces[id := Space(tables.value.directory, tables.value.firstTable, tables.value.extTable,
        FreshPtes())];
      return true, tables;
    }

    /** paging_clone_address_space. */
    method CloneAddressSpace(parent: nat, id: nat, ghost all: set<nat>) returns (ok: bool, ghost t: Option<TableFrames>)
      requires Valid(all) && parent in spaces && id !in spaces
      modifies this`spaces, pageRef, pmm`usedBlocks, pmm.bitmap
      ensures Valid(all)
      ensures t.Some? ==> id != 0 && t.value.DistinctIn(old(Free()))
      ensures ok == t.Some? && State() == Clone(old(State()), parent, id, t)
    {
      if id == 0 {
        return false, None;
      }
      var tables := AllocTables();
      if tables.None? {
        return false, None;
      }
      ghost var m := old(State());
      SpaceIsDistinct(m, parent);
      CloneKeepsInv(m, all, parent, id, tables.value);
      var src, dst := CloneTables(spaces[parent].ptes);
      spaces := spaces[parent := spaces[parent].(ptes := src)]
                      [id := Space(tables.value.directory, tables.value.firstTable, tables.value.extTable, dst)];
      return true, tables;
    }

    /** paging_map_user_page. */
    method MapUserPage(s: nat, vaddr: nat, ghost all: set<nat>) returns (ok: bool, ghost f: Option<nat>)
      requires Valid(all)
      modifies this`spaces, ram, pmm`usedBlocks, pmm.bitmap
      ensures Valid(all)
      ensures f.Some? ==> f.value in old(Free())
      ensures State() == if s in old(spaces) && UserSlot(vaddr).Some?
                         then MapPage(old(State()), s, UserSlot(vaddr).value, f) else old(State())
      ensures ok <==> s in spaces && UserSlot(vaddr).Some? && spaces[s].ptes[UserSlot(vaddr).value].Mapped()
    {
      f := None;
      var slot := UserSlot(vaddr);
      if s !in spaces || slot.None? {
        return false, None;
      }
      var i := slot.value;
      if spaces[s].ptes[i].Mapped() {
        return true, None;
      }
      ok, f := InstallZeroPage(s, i, false, all);
    }

    /** paging_share_page. */
    method ShareUserPage(vaddr: nat, ghost all: set<nat>) returns (ok: bool, ghost f: Option<nat>)
      requires Valid(all)
      modifies this`spaces, ram, pmm`usedBlocks, pmm.bitmap
      ensures Valid(all)
      ensures f.Some? ==> f.value in old(Free())
      ensures State() == if active in old(spaces) && vaddr < LOW_TOP
                         then SharePage(old(State()), active, vaddr / PAGE_SIZE, f) else old(State())
      ensures ok <==> active in spaces && vaddr < LOW_TOP &&
                      spaces[active].ptes[vaddr / PAGE_SIZE].Mapped() && spaces[active].ptes[vaddr / PAGE_SIZE].shared
    {
      f := None;
      if active !in spaces || vaddr >= LOW_TOP {
        return false, None;
      }
      var i := vaddr / PAGE_SIZE;
      if spaces[active].ptes[i].Mapped() {
        return spaces[active].ptes[i].shared, None;
      }
      ok, f := InstallZeroPage(active, i, true, all);
    }

    /** The common tail of the two: allocate, zero and enter a frame. */
    method InstallZeroPage(s: nat, i: nat, shared: bool, ghost all: set<nat>) returns (ok: bool, ghost f: Option<nat>)
      requires Valid(all) && s in spaces && i < SLOTS && !spaces[s].ptes[i].Mapped()
      modifies this`spaces, ram, pmm`usedBlocks, pmm.bitmap
      ensures Valid(all)
      ensures ok == f.Some?
      ensures f.Some? ==> f.value in old(Free()) && State() == Install(old(State()), s, i, f.value, shared)
      ensures f.None? ==> State() == old(State())
    {
      var frame := AllocBlock();
      if frame == 0 {
        return false, None;
      }
      InstallKeepsInv(old(State()), all, s, i, frame, shared);
      ram[frame] := ZeroPage();
      spaces := spaces[s := spaces[s].(ptes := spaces[s].ptes[i := Pte(true, true, true, shared, frame)])];
      assert State() == Install(old(State()), s, i, frame, shared);
      return true, Some(frame);
    }

    /** cow_ref_release followed by pmm_free_block when the last reference went. */
    method ReleaseFrame(f: nat)
      requires pageRef.Length == FRAME_COUNT && pmm.Valid() && 0 < f < pmm.bitmap.Length
      modifies pageRef, pmm`usedBlocks, pmm.bitmap
      ensures pmm.Valid()
      ensures pageRef[..] == if old(pageRef[f]) > 0 then old(pageRef[..])[f := old(pageRef[f]) - 1]
              else old(pageRef[..])
      ensures Free() == if old(pageRef[f]) > 0 then old(Free()) else old(Free()) + {f}
    {
      if f < FRAME_COUNT && pageRef[f] > 0 {
        pageRef[f] := pageRef[f] - 1;
      } else {
        FreeBlock(f);
      }
    }

    /** What the raw updates below rely on. */
    ghost predicate Usable(s: nat)
      reads this, pageRef, ram, pmm, pmm.bitmap
    {
      && pageRef.Length == FRAME_COUNT && ram.Length == FRAME_COUNT
      && pmm.Valid() && pmm.bitmap.Length <= FRAME_COUNT
      && s in spaces && |spaces[s].ptes| == SLOTS
      && (forall i: nat :: i < SLOTS && spaces[s].ptes[i].Mapped() ==> 0 < spaces[s].ptes[i].frame < pmm.bitmap.Length)
      && (forall f :: f in spaces[s].Tables() ==> 0 < f < pmm.bitmap.Length)
      && DistinctFrames(spaces[s].ptes)
    }

    lemma ValidSpaceIsUsable(s: nat, all: set<nat>)
      requires Valid(all) && s in spaces
      ensures Usable(s)
    {
      var m := State();
      SpaceIsDistinct(m, s);
      TablesManaged(m, all, s);
      forall i: nat | i < SLOTS
        ensures spaces[s].ptes[i].Mapped() ==> spaces[s].ptes[i].frame in all
      {
        FrameManaged(m, all, s, i);
      }
    }

    /** paging_unmap_user_page. */
    method UnmapUserPage(s: nat, vaddr: nat, ghost all: set<nat>)
      requires Valid(all)
      modifies this`spaces, pageRef, pmm`usedBlocks, pmm.bitmap
      ensures Valid(all)
      ensures State() == if s in old(spaces) && UserSlot(vaddr).Some?
                         then Unmap(old(State()), s, UserSlot(vaddr).value) else old(State())
    {
      var slot := UserSlot(vaddr);
      if s !in spaces || slot.None? {
        return;
      }
      UnmapKeepsInv(State(), all, s, slot.value);
      ValidSpaceIsUsable(s, all);
      ClearEntry(s, slot.value);
    }

    method ClearEntry(s: nat, i: nat)
      requires Usable(s) && i < SLOTS
      modifies this`spaces, pageRef, pmm`usedBlocks, pmm.bitmap
      ensures pmm.Valid()
      ensures State() == Unmap(old(State()), s, i)
    {
      var p := spaces[s].ptes[i];
      if !p.Mapped() {
        return;
      }
      ReleaseFrame(p.frame);
      spaces := spaces[s := spaces[s].(ptes := spaces[s].ptes[i := Pte(false, false, false, false, 0)])];
    }

    /** paging_destroy_user_address_space. */
    method DestroyUserAddressSpace(s: nat, ghost all: set<nat>)
      requires Valid(all) && s in spaces
      modifies this`spaces, this`active, pageRef, pmm`usedBlocks, pmm.bitmap
      ensures Valid(all)
      ensures State() == Destroy(old(State()), s)
    {
      DestroyKeepsInv(State(), all, s);
      ValidSpaceIsUsable(s, all);
      TearDown(s);
    }

    method TearDown(s: nat)
      requires Usable(s)
      modifies this`spaces, this`active, pageRef, pmm`usedBlocks, pmm.bitmap
      ensures pmm.Valid()
      ensures State() == Destroy(old(State()), s)
    {
      var space := spaces[s];
      assert space.firstTable in space.Tables() && space.extTable in space.Tables() &&
        space.directory in space.Tables();
      if s == active {
        active := KERNEL;
      }
      ReleaseTable(space.ptes);
      FreeBlock(space.firstTable);
      FreeBlock(space.extTable);
      FreeBlock(space.directory);
      spaces := spaces - {s};
      assert Free() == old(Free()) + space.Tables() + SoleFrames(old(pageRef[..]), space.ptes);
    }

    /** The entry loop of paging_destroy_user_address_space. */
    method ReleaseTable(ptes: seq<Pte>)
      requires pageRef.Length == FRAME_COUNT && pmm.Valid() && DistinctFrames(ptes) && pmm.bitmap.Length <= FRAME_COUNT
      requires forall i: nat :: i < |ptes| && ptes[i].Mapped() ==> 0 < ptes[i].frame < pmm.bitmap.Length
      modifies pageRef, pmm`usedBlocks, pmm.bitmap
      ensures pmm.Valid()
      ensures pageRef[..] == DropRefs(old(pageRef[..]), ptes)
      ensures Free() == old(Free()) + SoleFrames(old(pageRef[..]), ptes)
    {
      ghost var refs := pageRef[..];
      assert DropRefs(refs, ptes[..0]) == refs;
      for i := 0 to |ptes|
        invariant pmm.Valid()
        invariant pageRef[..] == DropRefs(refs, ptes[..i])
        invariant Free() == old(Free()) + SoleFrames(refs, ptes[..i])
      {
        NextEntry(ptes, i);
        var p := ptes[i];
        if p.Mapped() {
          ReleaseFrame(p.frame);
        }
        assert pageRef[..] == DropRefs(refs, ptes[..i + 1]);
        assert Free() == old(Free()) + SoleFrames(refs, ptes[..i + 1]);
      }
      assert ptes[..|ptes|] == ptes;
    }

    /** paging_try_cow for a fault at `vaddr` in the active space. */
    method ResolveCow(vaddr: nat, ghost all: set<nat>) returns (handled: bool, ghost f: Option<nat>)
      requires Valid(all)
      modifies this`spaces, pageRef, ram, pmm`usedBlocks, pmm.bitmap
      ensures Valid(all)
      ensures f.Some? ==> f.value in old(Free())
      ensures active !in old(spaces) || UserSlot(vaddr).None? ==> !handled && State() == old(State())
      ensures active in old(spaces) && UserSlot(vaddr).Some? ==>
        CowOutcome(old(State()), active, UserSlot(vaddr).value, f, handled, State())
    {
      f := None;
      var slot := UserSlot(vaddr);
      if active !in spaces || slot.None? {
        return false, None;
      }
      ValidSpaceIsUsable(active, all);
      ghost var m := State();
      handled, f := MakeWritable(slot.value);
      if handled {
        CowKeepsInv(m, all, active, slot.value, f);
      }
    }

    method MakeWritable(i: nat) returns (handled: bool, ghost f: Option<nat>)
      requires Usable(active) && i < SLOTS
      modifies this`spaces, pageRef, ram, pmm`usedBlocks, pmm.bitmap
      ensures pmm.Valid()
      ensures f.Some? ==> f.value in old(Free())
      ensures CowOutcome(old(State()), active, i, f, handled, State())
    {
      f := None;
      var p := spaces[active].ptes[i];
      if !p.Mapped() || p.rw {
        return false, None;
      }
      if pageRef[p.frame] > 0 {
        var copy := AllocBlock();
        if copy == 0 {
          return false, None;
        }
        ram[copy] := ram[p.frame];
        pageRef[p.frame] := pageRef[p.frame] - 1;
        f := Some(copy);
        p := p.(frame := copy);
      }
      p := p.(rw := true);
      spaces := spaces[active := spaces[active].(ptes := spaces[active].ptes[i := p])];
      handled := true;
    }
  }

  /** What paging_try_cow did, in terms of the state machine. */
  ghost predicate CowOutcome(m: Mem, s: nat, i: nat, f: Option<nat>, handled: bool, m': Mem)
  {
    && s in m.spaces && i < |m.spaces[s].ptes| && |m.pageRef| == |m.ram| == FRAME_COUNT
    && (m.spaces[s].ptes[i].Mapped() ==> m.spaces[s].ptes[i].frame < FRAME_COUNT)
    && (f.Some? ==> f.value < FRAME_COUNT)
    && handled == TryCow(m, s, i, f).Some?
    && m' == if handled then TryCow(m, s, i, f).value else m
  }

  lemma CowKeepsInv(m: Mem, all: set<nat>, s: nat, i: nat, f: Option<nat>)
    requires Inv(m, all) && s in m.spaces && i < SLOTS && (f.Some? ==> f.value in m.free)
    requires m.spaces[s].ptes[i].Mapped() ==> m.spaces[s].ptes[i].frame < FRAME_COUNT
    requires TryCow(m, s, i, f).Some?
    ensures Inv(TryCow(m, s, i, f).value, all)
  {
    if m.pageRef[m.spaces[s].ptes[i].frame] > 0 {
      CowCopyKeepsInv(m, all, s, i, f.value);
    } else {
      RegrantKeepsInv(m, all, s, i);
    }
  }

  /** Write-protecting entries does not change which frames they map. */
  lemma SameFrames(a: seq<Pte>, b: seq<Pte>)
    requires |a| == |b| && DistinctFrames(a)
    requires forall i :: 0 <= i < |a| ==> a[i].Mapped() == b[i].Mapped() && a[i].frame == b[i].frame
    ensures DistinctFrames(b)
    ensures forall n: nat, f: nat :: n <= |a| ==> (HasFrame(a[..n], f) <==> HasFrame(b[..n], f))
  {
    assert forall i: nat, f: nat :: MapsFrame(a, i, f) <==> MapsFrame(b, i, f);
    forall n: nat, f: nat | n <= |a|
      ensures HasFrame(a[..n], f) <==> HasFrame(b[..n], f)
    {
      assert forall i: nat :: MapsFrame(a[..n], i, f) <==> MapsFrame(b[..n], i, f);
    }
  }

  /** Visiting first_table and then ext_table bumps each frame of the space once. */
  lemma BumpedTwice(refs: seq<nat>, src: seq<Pte>, src1: seq<Pte>)
    requires |src| == |src1| == SLOTS
    requires forall n: nat, f: nat :: n <= SLOTS ==> (HasFrame(src[..n], f) <==> HasFrame(src1[..n], f))
    ensures forall f :: 0 <= f < |refs| ==>
      Bumped(Bumped(refs[f], src, 0, TABLE_ENTRIES, f), src1, TABLE_ENTRIES, SLOTS, f) == BumpRefs(refs, src)[f]
  {
    assert src[..SLOTS] == src && src[..0] == [];
    forall f: nat
      ensures HasFrame(src[..TABLE_ENTRIES], f) ==> HasFrame(src, f)
      ensures !HasFrame(src[..0], f)
    {
      if HasFrame(src[..TABLE_ENTRIES], f) {
        var i: nat :| i < TABLE_ENTRIES && MapsFrame(src[..TABLE_ENTRIES], i, f);
        assert MapsFrame(src, i, f);
      }
    }
  }

  /** A share count after the entries lo..hi of a table have been visited. */
  function Bumped(count: nat, src: seq<Pte>, lo: nat, hi: nat, f: nat): nat
    requires lo <= hi <= |src|
  {
    if HasFrame(src[..hi], f) && !HasFrame(src[..lo], f) then (count + 1) % REF_LIMIT else count
  }

  lemma NotBefore(ptes: seq<Pte>, lo: nat, i: nat)
    requires lo <= i < |ptes| && DistinctFrames(ptes) && ptes[i].Mapped()
    ensures !HasFrame(ptes[..lo], ptes[i].frame)
  {
    if HasFrame(ptes[..lo], ptes[i].frame) {
      var j: nat :| j < lo && MapsFrame(ptes[..lo], j, ptes[i].frame);
      assert MapsFrame(ptes, j, ptes[i].frame) && MapsFrame(ptes, i, ptes[i].frame);
    }
  }
}
