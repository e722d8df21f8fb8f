/** Copy-on-write paging (paging.c) as a state machine over page tables, the share counts
    page_ref[] and the frames of the physical memory manager. */
module Paging {
  import opened Common

  const FRAME_COUNT := 8192
  const TABLE_ENTRIES := 1024
  const SLOTS := 2048
  const REF_LIMIT := 0x1_0000
  const LOW_TOP := 0x40_0000
  const USER_EXT_BASE := 0x200_0000
  const USER_EXT_TOP := 0x240_0000
  const PAGE_SIZE := 4096
  const KERNEL: nat := 0

  type Page = p: seq<Byte> | |p| == PAGE_SIZE witness seq(PAGE_SIZE, _ => 0)

  function ZeroPage(): (p: Page)
    ensures forall k :: 0 <= k < PAGE_SIZE ==> p[k] == 0
  {
    seq(PAGE_SIZE, _ => 0)
  }

  datatype Pte = Pte(present: bool, rw: bool, user: bool, shared: bool, frame: nat)
  {
    predicate Mapped()
    {
      present && user
    }
  }

  /** address_space_t: the frames holding its three tables, and its user page-table entries.
      Slots 0..1023 are first_table (0-4 MB), slots 1024..2047 are ext_table (32-36 MB). */
  datatype Space = Space(directory: nat, firstTable: nat, extTable: nat, ptes: seq<Pte>)
  {
    function Tables(): set<nat>
    {
      {directory, firstTable, extTable}
    }
  }

  /** The three frames paging_create_user_address_space obtains. */
  datatype TableFrames = TableFrames(directory: nat, firstTable: nat, extTable: nat)
  {
    function Frames(): set<nat>
    {
      {directory, firstTable, extTable}
    }

    predicate DistinctIn(free: set<nat>)
    {
      && directory in free && firstTable in free && extTable in free
      && directory != firstTable && directory != extTable && firstTable != extTable
    }
  }

  /** `free` are the frames the physical memory manager can hand out, `kernel` those it has given
      to the rest of the kernel (heap, stacks). Space 0 is kernel_space, which has no user pages. */
  datatype Mem = Mem(spaces: map<nat, Space>, active: nat, pageRef: seq<nat>, ram: seq<Page>,
                     free: set<nat>, kernel: set<nat>)

  // ---------------------------------------------------------------- operations

  /** user_pte: the slot of the entry backing a user virtual address. */
  function UserSlot(vaddr: nat): (r: Option<nat>)
    ensures r.Some? ==> r.value < SLOTS
  {
    if vaddr < LOW_TOP then Some(vaddr / PAGE_SIZE)
    else if USER_EXT_BASE <= vaddr < USER_EXT_TOP then
      Some(TABLE_ENTRIES + (vaddr - USER_EXT_BASE) / PAGE_SIZE)
    else None
  }

  /** The user addresses are the first 4 MB and the mmap window, and two of them have the same slot exactly
      if they lie in the same page. */
  lemma SlotsArePages(v: nat, w: nat)
    ensures UserSlot(v).Some? <==> v < 1024 * PAGE_SIZE || USER_EXT_BASE <= v < USER_EXT_BASE + 1024 * PAGE_SIZE
    ensures UserSlot(v).Some? && UserSlot(w).Some? ==> (UserSlot(v) == UserSlot(w) <==> v / PAGE_SIZE == w / PAGE_SIZE)
  {
  }

  /** A fresh space: the kernel's identity map below 4 MB, nothing in the mmap window. */
  function FreshPtes(): (p: seq<Pte>)
    ensures |p| == SLOTS && forall i :: 0 <= i < SLOTS ==> !p[i].Mapped()
  {
    seq(SLOTS, (i: nat) => if i < TABLE_ENTRIES then Pte(true, true, false, false, i)
                    else Pte(false, false, false, false, 0))
  }

  function SetPte(m: Mem, s: nat, i: nat, pte: Pte): Mem
    requires s in m.spaces && i < |m.spaces[s].ptes|
  {
    m.(spaces := m.spaces[s := m.spaces[s].(ptes := m.spaces[s].ptes[i := pte])])
  }

  /** paging_create_user_address_space. `t` is what the allocator returned; on failure every
      block already obtained is given back, so nothing changes. */
  function Create(m: Mem, id: nat, t: Option<TableFrames>): Mem
  {
    if t.None? then m
    else
      Mem(m.spaces[id := Space(t.value.directory, t.value.firstTable, t.value.extTable, FreshPtes())],
          m.active, m.pageRef, m.ram, m.free - t.value.Frames(), m.kernel)
  }

  /** The parent's entry after paging_cow_clone_table has visited it. */
  function ParentPte(p: Pte): Pte
  {
    if p.Mapped() && !p.shared then p.(rw := false) else p
  }

  predicate MapsFrame(ptes: seq<Pte>, i: nat, f: nat)
  {
    i < |ptes| && ptes[i].Mapped() && ptes[i].frame == f
  }

  predicate HasFrame(ptes: seq<Pte>, f: nat)
  {
    exists i: nat :: i < |ptes| && MapsFrame(ptes, i, f)
  }

  function ParentPtes(src: seq<Pte>): (r: seq<Pte>)
    ensures |r| == |src| && forall i :: 0 <= i < |r| ==> r[i] == ParentPte(src[i])
  {
    seq(|src|, i requires 0 <= i < |src| => ParentPte(src[i]))
  }

  function ChildPtes(src: seq<Pte>): (r: seq<Pte>)
    requires |src| == SLOTS
    ensures |r| == SLOTS
    ensures forall i :: 0 <= i < SLOTS ==> r[i] == if src[i].Mapped() then ParentPte(src[i]) else FreshPtes()[i]
  {
    seq(SLOTS, i requires 0 <= i < SLOTS => if src[i].Mapped() then ParentPte(src[i]) else FreshPtes()[i])
  }

  /** cow_ref_inc on every frame the table maps; the counters are 16 bits wide. */
  function BumpRefs(refs: seq<nat>, ptes: seq<Pte>): (r: seq<nat>)
    ensures |r| == |refs|
    ensures forall f :: 0 <= f < |r| ==> r[f] == if HasFrame(ptes, f) then (refs[f] + 1) % REF_LIMIT else refs[f]
  {
    seq(|refs|, f requires 0 <= f < |refs| => if HasFrame(ptes, f) then (refs[f] + 1) % REF_LIMIT else refs[f])
  }

  /** cow_ref_release on every frame the table maps. */
  function DropRefs(refs: seq<nat>, ptes: seq<Pte>): (r: seq<nat>)
    ensures |r| == |refs|
    ensures forall f :: 0 <= f < |r| ==> r[f] == if HasFrame(ptes, f) && refs[f] > 0 then refs[f] - 1 else refs[f]
  {
    seq(|refs|, f requires 0 <= f < |refs| => if HasFrame(ptes, f) && refs[f] > 0 then refs[f] - 1 else refs[f])
  }

  /** paging_clone_address_space. */
  function Clone(m: Mem, parent: nat, id: nat, t: Option<TableFrames>): Mem
    requires parent in m.spaces && |m.spaces[parent].ptes| == SLOTS
  {
    if t.None? then m
    else
      Mem(m.spaces[parent := m.spaces[parent].(ptes := ParentPtes(m.spaces[parent].ptes))]
                  [id := Space(t.value.directory, t.value.firstTable, t.value.extTable,
                               ChildPtes(m.spaces[parent].ptes))],
          m.active, BumpRefs(m.pageRef, m.spaces[parent].ptes), m.ram, m.free - t.value.Frames(), m.kernel)
  }

  /** The frames whose last user entry lies in this table. */
  function SoleFrames(refs: seq<nat>, ptes: seq<Pte>): set<nat>
  {
    set f: nat | f < |refs| && HasFrame(ptes, f) && refs[f] == 0
  }

  /** paging_destroy_user_address_space. */
  function Destroy(m: Mem, s: nat): Mem
    requires s in m.spaces
  {
    Mem(m.spaces - {s}, if m.active == s then KERNEL else m.active, DropRefs(m.pageRef, m.spaces[s].ptes), m.ram,
        m.free + m.spaces[s].Tables() + SoleFrames(m.pageRef, m.spaces[s].ptes), m.kernel)
  }

  /** The tail shared by paging_map_user_page and paging_share_page: a zeroed frame goes in. */
  function Install(m: Mem, s: nat, i: nat, f: nat, shared: bool): Mem
    requires s in m.spaces && i < |m.spaces[s].ptes| && f < |m.ram|
  {
    Mem(SetPte(m, s, i, Pte(true, true, true, shared, f)).spaces, m.active, m.pageRef,
        m.ram[f := ZeroPage()], m.free - {f}, m.kernel)
  }

  /** paging_map_user_page. */
  function MapPage(m: Mem, s: nat, i: nat, f: Option<nat>): Mem
    requires s in m.spaces && i < |m.spaces[s].ptes| && (f.Some? ==> f.value < |m.ram|)
  {
    if m.spaces[s].ptes[i].Mapped() || f.None? then m else Install(m, s, i, f.value, false)
  }

  /** paging_share_page, on the active space and the low table. */
  function SharePage(m: Mem, s: nat, i: nat, f: Option<nat>): Mem
    requires s in m.spaces && i < |m.spaces[s].ptes| && (f.Some? ==> f.value < |m.ram|)
  {
    if m.spaces[s].ptes[i].Mapped() || f.None? then m else Install(m, s, i, f.value, true)
  }

  /** paging_unmap_user_page: cow_ref_release decides whether the frame goes back. */
  function Unmap(m: Mem, s: nat, i: nat): Mem
    requires s in m.spaces && i < |m.spaces[s].ptes| && |m.pageRef| == FRAME_COUNT
  {
    var p := m.spaces[s].ptes[i];
    if !p.Mapped() then m
    else
      var spaces := SetPte(m, s, i, Pte(false, false, false, false, 0)).spaces;
      if p.frame < FRAME_COUNT && m.pageRef[p.frame] > 0 then
        m.(spaces := spaces, pageRef := m.pageRef[p.frame := m.pageRef[p.frame] - 1])
      else m.(spaces := spaces, free := m.free + {p.frame})
  }

  /** paging_try_cow: `None` is "not handled". `f` is the allocator's answer, asked for only when
      the frame is shared. */
  function TryCow(m: Mem, s: nat, i: nat, f: Option<nat>): (r: Option<Mem>)
    requires s in m.spaces && i < |m.spaces[s].ptes| && |m.pageRef| == |m.ram| == FRAME_COUNT
    requires m.spaces[s].ptes[i].Mapped() ==> m.spaces[s].ptes[i].frame < FRAME_COUNT
    requires f.Some? ==> f.value < FRAME_COUNT
  {
    var p := m.spaces[s].ptes[i];
    if !p.Mapped() || p.rw then None
    else if m.pageRef[p.frame] > 0 then
      if f.None? then None
      else
        Some(Mem(SetPte(m, s, i, p.(frame := f.value, rw := true)).spaces, m.active,
                 m.pageRef[p.frame := m.pageRef[p.frame] - 1],
                 m.ram[f.value := m.ram[p.frame]], m.free - {f.value}, m.kernel))
    else Some(SetPte(m, s, i, p.(rw := true)))
  }

  /** page_fault_handler for a user write: copy-on-write first, then demand mapping (`demand` says
      whether the address lies in the stack, the heap or a reserved mmap page). `None` kills the
      program. */
  function WriteFault(m: Mem, s: nat, i: nat, demand: bool, f: Option<nat>): (r: Option<Mem>)
    requires s in m.spaces && i < |m.spaces[s].ptes| && |m.pageRef| == |m.ram| == FRAME_COUNT
    requires m.spaces[s].ptes[i].Mapped() ==> m.spaces[s].ptes[i].frame < FRAME_COUNT
    requires f.Some? ==> f.value < FRAME_COUNT
  {
    if TryCow(m, s, i, f).Some? then TryCow(m, s, i, f)
    else if demand && !m.spaces[s].ptes[i].Mapped() && f.Some? then Some(MapPage(m, s, i, f))
    else None
  }

  /** A user store: the processor writes through a writable user entry, and otherwise faults and,
      if the fault is resolved, retries. The flag says whether the store was performed. */
  function Store(m: Mem, s: nat, i: nat, off: nat, b: Byte, demand: bool, f: Option<nat>): (r: (bool, Mem))
    requires s in m.spaces && i < |m.spaces[s].ptes| && |m.pageRef| == |m.ram| == FRAME_COUNT
    requires m.spaces[s].ptes[i].Mapped() ==> m.spaces[s].ptes[i].frame < FRAME_COUNT
    requires f.Some? ==> f.value < FRAME_COUNT
    requires off < PAGE_SIZE
  {
    if m.spaces[s].ptes[i].Mapped() && m.spaces[s].ptes[i].rw then
      (true, Poke(m, m.spaces[s].ptes[i].frame, off, b))
    else match WriteFault(m, s, i, demand, f)
      case None => (false, m)
      case Some(m') => (true, Poke(m', m'.spaces[s].ptes[i].frame, off, b))
  }

  function Poke(m: Mem, f: nat, off: nat, b: Byte): Mem
    requires f < |m.ram| && off < PAGE_SIZE
  {
    m.(ram := m.ram[f := m.ram[f][off := b]])
  }

  // ---------------------------------------------------------------- the invariant

  predicate Maps(m: Mem, s: nat, i: nat, f: nat)
  {
    s in m.spaces && MapsFrame(m.spaces[s].ptes, i, f)
  }

  /** The user page-table entries, over all live spaces, that map frame `f`. */
  ghost function Mappers(m: Mem, f: nat): set<(nat, nat)>
  {
    set s, i: nat | s in m.spaces && i < |m.spaces[s].ptes| && Maps(m, s, i, f) :: (s, i)
  }

  ghost predicate IsMapped(m: Mem, f: nat)
  {
    exists s: nat, i: nat :: Maps(m, s, i, f)
  }

  ghost predicate IsTable(m: Mem, f: nat)
  {
    exists s :: s in m.spaces && f in m.spaces[s].Tables()
  }

  ghost predicate Shape(m: Mem)
  {
    && |m.pageRef| == |m.ram| == FRAME_COUNT
    && (m.active == KERNEL || m.active in m.spaces)
    && KERNEL !in m.spaces
    && forall s :: s in m.spaces ==> |m.spaces[s].ptes| == SLOTS
  }

  /** Frame accounting: each frame of `all` is free, held by the kernel, a page table of one
      space, or mapped by user entries -- exactly one of the four. */
  ghost predicate Accounting(m: Mem, all: set<nat>)
  {
    && (forall f :: f in all ==> 0 < f < FRAME_COUNT)
    && (forall f: nat :: f in all <==> f in m.free || f in m.kernel || IsTable(m, f) || IsMapped(m, f))
    && m.free !! m.kernel
    && (forall f: nat :: IsTable(m, f) ==> f !in m.free && f !in m.kernel)
    && (forall f: nat :: IsMapped(m, f) ==> f !in m.free && f !in m.kernel && !IsTable(m, f))
    && (forall s :: s in m.spaces ==> |m.spaces[s].Tables()| == 3)
    && (forall s, s' :: s in m.spaces && s' in m.spaces && s != s' ==>
          m.spaces[s].Tables() !! m.spaces[s'].Tables())
  }

  /** page_ref[f] + 1 user entries map f; an unmapped frame has count 0. */
  ghost predicate Counted(m: Mem)
    requires |m.pageRef| == FRAME_COUNT
  {
    forall f: nat :: f < FRAME_COUNT ==>
      m.pageRef[f] == if IsMapped(m, f) then |Mappers(m, f)| - 1 else 0
  }

  /** What two user entries for one frame must have in common: they sit at the same slot, are
      both shared or both private, and if private and writable are one and the same entry. A
      shared entry is writable. */
  predicate Compatible(s: nat, i: nat, p: Pte, s': nat, i': nat, p': Pte)
  {
    && i == i'
    && p.shared == p'.shared
    && (p.shared ==> p.rw)
    && (p.rw && !p.shared ==> s == s')
  }

  ghost predicate Permissions(m: Mem)
  {
    forall s: nat, i: nat, s': nat, i': nat, f: nat :: Maps(m, s, i, f) && Maps(m, s', i', f) ==>
      Compatible(s, i, m.spaces[s].ptes[i], s', i', m.spaces[s'].ptes[i'])
  }

  ghost predicate Inv(m: Mem, all: set<nat>)
  {
    Shape(m) && Accounting(m, all) && Counted(m) && Permissions(m)
  }

  // ---------------------------------------------------------------- each operation keeps it

  lemma SingleMapper(m: Mem, s: nat, i: nat, f: nat)
    requires Maps(m, s, i, f)
    requires forall s': nat, i': nat :: Maps(m, s', i', f) ==> s' == s && i' == i
    ensures |Mappers(m, f)| == 1
  {
    assert Mappers(m, f) == {(s, i)};
  }

  lemma MappersAgree(m: Mem, m': Mem, f: nat)
    requires forall s: nat, i: nat :: Maps(m, s, i, f) <==> Maps(m', s, i, f)
    ensures Mappers(m, f) == Mappers(m', f)
    ensures IsMapped(m, f) == IsMapped(m', f)
  {
  }

  /** The entries of `m'` are those of `m`, except that (s, i) is now `pte`. */
  lemma PteUpdated(m: Mem, m': Mem, s: nat, i: nat, pte: Pte)
    requires s in m.spaces && i < |m.spaces[s].ptes| && m'.spaces == SetPte(m, s, i, pte).spaces
    ensures forall s': nat, i': nat, g: nat :: Maps(m', s', i', g) <==>
              if s' == s && i' == i then pte.Mapped() && pte.frame == g else Maps(m, s', i', g)
    ensures forall g: nat :: IsTable(m', g) <==> IsTable(m, g)
  {
    assert forall s': nat :: s' in m.spaces ==> m'.spaces[s'].Tables() == m.spaces[s'].Tables();
  }

  lemma InstallKeepsInv(m: Mem, all: set<nat>, s: nat, i: nat, f: nat, shared: bool)
    requires Inv(m, all) && s in m.spaces && i < SLOTS && f in m.free && !m.spaces[s].ptes[i].Mapped()
    ensures Inv(Install(m, s, i, f, shared), all)
  {
    var m' := Install(m, s, i, f, shared);
    PteUpdated(m, m', s, i, Pte(true, true, true, shared, f));
    assert Maps(m', s, i, f);
    assert !IsMapped(m, f);
    forall g: nat
      ensures IsMapped(m', g) <==> g == f || IsMapped(m, g)
      ensures g < FRAME_COUNT ==> m'.pageRef[g] == if IsMapped(m', g) then |Mappers(m', g)| - 1 else 0
    {
      if g == f {
        SingleMapper(m', s, i, f);
      } else {
        MappersAgree(m, m', g);
      }
    }
  }

  /** Taking one entry away leaves one mapper fewer, and none exactly when it was the last. */
  lemma RemoveMapper(m: Mem, m': Mem, s: nat, i: nat, f: nat)
    requires Maps(m, s, i, f)
    requires forall s': nat, i': nat :: Maps(m', s', i', f) <==> Maps(m, s', i', f) && !(s' == s && i' == i)
    ensures |Mappers(m', f)| == |Mappers(m, f)| - 1
    ensures IsMapped(m', f) <==> |Mappers(m, f)| > 1
  {
    assert Mappers(m', f) == Mappers(m, f) - {(s, i)};
    if |Mappers(m', f)| > 0 {
      var x :| x in Mappers(m', f);
      assert Maps(m', x.0, x.1, f);
    } else {
      assert forall s': nat, i': nat :: Maps(m', s', i', f) ==> (s', i') in Mappers(m', f);
    }
  }

  lemma FewerEntriesKeepPermissions(m: Mem, m': Mem)
    requires Permissions(m)
    requires forall s: nat, i: nat, f: nat :: Maps(m', s, i, f) ==>
               Maps(m, s, i, f) && m'.spaces[s].ptes[i] == m.spaces[s].ptes[i]
    ensures Permissions(m')
  {
  }

  /** Where frames other than `f` keep their mappers and counts, only `f` needs counting again. */
  lemma CountedExcept(m: Mem, m': Mem, f: nat)
    requires |m.pageRef| == |m'.pageRef| == FRAME_COUNT && Counted(m)
    requires forall g: nat :: g < FRAME_COUNT && g != f ==> m'.pageRef[g] == m.pageRef[g]
    requires forall s: nat, i: nat, g: nat :: g != f ==> (Maps(m', s, i, g) <==> Maps(m, s, i, g))
    requires f < FRAME_COUNT ==> m'.pageRef[f] == if IsMapped(m', f) then |Mappers(m', f)| - 1 else 0
    ensures Counted(m')
    ensures forall g: nat :: g != f ==> (IsMapped(m', g) <==> IsMapped(m, g))
  {
    forall g: nat | g != f
      ensures Mappers(m, g) == Mappers(m', g) && IsMapped(m, g) == IsMapped(m', g)
    {
      MappersAgree(m, m', g);
    }
  }

  /** Accounting needs only which frames are mapped, which hold tables and which are free. */
  lemma AccountingMoves(m: Mem, m': Mem, all: set<nat>, f: nat)
    requires Accounting(m, all) && m'.kernel == m.kernel
    requires m'.spaces.Keys == m.spaces.Keys
    requires forall s :: s in m.spaces ==> m'.spaces[s].Tables() == m.spaces[s].Tables()
    requires forall g: nat :: g != f ==> (IsMapped(m', g) <==> IsMapped(m, g))
    requires (f in m.free || IsMapped(m, f)) && (f in m'.free <==> !IsMapped(m', f))
    requires forall g :: g != f ==> (g in m'.free <==> g in m.free)
    ensures Accounting(m', all)
  {
    assert forall g: nat :: IsTable(m', g) <==> IsTable(m, g);
  }

  lemma UnmapCounts(m: Mem, s: nat, i: nat)
    requires Shape(m) && Counted(m) && s in m.spaces && i < SLOTS
    requires m.spaces[s].ptes[i].Mapped() && m.spaces[s].ptes[i].frame < FRAME_COUNT
    ensures Counted(Unmap(m, s, i))
    ensures forall g: nat :: IsMapped(Unmap(m, s, i), g) <==>
              IsMapped(m, g) && (g == m.spaces[s].ptes[i].frame ==> m.pageRef[g] > 0)
  {
    var f := m.spaces[s].ptes[i].frame;
    var m' := Unmap(m, s, i);
    PteUpdated(m, m', s, i, Pte(false, false, false, false, 0));
    assert Maps(m, s, i, f);
    RemoveMapper(m, m', s, i, f);
    CountedExcept(m, m', f);
  }

  lemma UnmapPermissions(m: Mem, s: nat, i: nat)
    requires Shape(m) && Permissions(m) && s in m.spaces && i < SLOTS && m.spaces[s].ptes[i].Mapped()
    ensures Permissions(Unmap(m, s, i))
  {
    PteUpdated(m, Unmap(m, s, i), s, i, Pte(false, false, false, false, 0));
    FewerEntriesKeepPermissions(m, Unmap(m, s, i));
  }

  lemma Combine(m: Mem, all: set<nat>)
    requires Shape(m) && Accounting(m, all) && Counted(m) && Permissions(m)
    ensures Inv(m, all)
  {
  }

  lemma UnmapAccounting(m: Mem, all: set<nat>, s: nat, i: nat)
    requires Inv(m, all) && s in m.spaces && i < SLOTS && m.spaces[s].ptes[i].Mapped()
    ensures Accounting(Unmap(m, s, i), all)
  {
    var f := m.spaces[s].ptes[i].frame;
    assert Maps(m, s, i, f);
    assert IsMapped(m, f);
    UnmapCounts(m, s, i);
    UnmapKeepsTables(m, s, i);
    AccountingMoves(m, Unmap(m, s, i), all, f);
  }

  lemma UnmapKeepsTables(m: Mem, s: nat, i: nat)
    requires s in m.spaces && i < |m.spaces[s].ptes| && |m.pageRef| == FRAME_COUNT
    ensures Unmap(m, s, i).spaces.Keys == m.spaces.Keys
    ensures forall s' :: s' in m.spaces ==> Unmap(m, s, i).spaces[s'].Tables() == m.spaces[s'].Tables()
  {
  }

  lemma UnmapKeepsInv(m: Mem, all: set<nat>, s: nat, i: nat)
    requires Inv(m, all) && s in m.spaces && i < SLOTS
    ensures Inv(Unmap(m, s, i), all)
  {
    var p := m.spaces[s].ptes[i];
    if p.Mapped() {
      assert Maps(m, s, i, p.frame);
      assert IsMapped(m, p.frame);
      UnmapCounts(m, s, i);
      UnmapPermissions(m, s, i);
      UnmapAccounting(m, all, s, i);
      Combine(Unmap(m, s, i), all);
    }
  }

  lemma RamIsIrrelevant(m: Mem, ram: seq<Page>, all: set<nat>)
    requires Inv(m, all) && |ram| == FRAME_COUNT
    ensures Inv(m.(ram := ram), all)
  {
    var m' := m.(ram := ram);
    assert forall s: nat, i: nat, g: nat :: Maps(m', s, i, g) <==> Maps(m, s, i, g);
    forall g: nat
      ensures Mappers(m, g) == Mappers(m', g) && IsMapped(m, g) == IsMapped(m', g)
    {
      MappersAgree(m, m', g);
    }
    assert forall g: nat :: IsTable(m', g) <==> IsTable(m, g);
    Combine(m', all);
  }

  /** A fault on a shared frame is an unmap followed by a fresh mapping, with the old page's bytes. */
  lemma CowIsUnmapThenInstall(m: Mem, s: nat, i: nat, f: nat)
    requires Shape(m) && s in m.spaces && i < SLOTS && f < FRAME_COUNT
    requires m.spaces[s].ptes[i] == Pte(true, false, true, false, m.spaces[s].ptes[i].frame)
    requires m.spaces[s].ptes[i].frame < FRAME_COUNT && m.pageRef[m.spaces[s].ptes[i].frame] > 0
    ensures TryCow(m, s, i, Some(f)) ==
            Some(Install(Unmap(m, s, i), s, i, f, false).(ram := m.ram[f := m.ram[m.spaces[s].ptes[i].frame]]))
  {
    var p := m.spaces[s].ptes[i];
    var zero := Pte(false, false, false, false, 0);
    var q := Pte(true, true, true, false, f);
    assert m.spaces[s].ptes[i := zero][i := q] == m.spaces[s].ptes[i := q];
    assert SetPte(Unmap(m, s, i), s, i, q).spaces == SetPte(m, s, i, q).spaces;
  }

  lemma CowCopyKeepsInv(m: Mem, all: set<nat>, s: nat, i: nat, f: nat)
    requires Inv(m, all) && s in m.spaces && i < SLOTS && f in m.free
    requires m.spaces[s].ptes[i].Mapped() && !m.spaces[s].ptes[i].rw && m.spaces[s].ptes[i].frame < FRAME_COUNT
    requires m.pageRef[m.spaces[s].ptes[i].frame] > 0
    ensures TryCow(m, s, i, Some(f)).Some? && Inv(TryCow(m, s, i, Some(f)).value, all)
  {
    var p := m.spaces[s].ptes[i];
    assert Maps(m, s, i, p.frame);
    CowIsUnmapThenInstall(m, s, i, f);
    var u := Unmap(m, s, i);
    UnmapKeepsInv(m, all, s, i);
    InstallKeepsInv(u, all, s, i, f, false);
    RamIsIrrelevant(Install(u, s, i, f, false), m.ram[f := m.ram[p.frame]], all);
  }

  lemma SoleMapper(m: Mem, s: nat, i: nat, f: nat)
    requires Shape(m) && Counted(m) && Maps(m, s, i, f) && f < FRAME_COUNT && m.pageRef[f] == 0
    ensures forall s': nat, i': nat :: Maps(m, s', i', f) ==> s' == s && i' == i
  {
    assert (s, i) in Mappers(m, f);
    forall s': nat, i': nat | Maps(m, s', i', f)
      ensures s' == s && i' == i
    {
      assert (s', i') in Mappers(m, f);
      if (s', i') != (s, i) {
        assert {(s, i), (s', i')} <= Mappers(m, f);
        SubsetSize({(s, i), (s', i')}, Mappers(m, f));
      }
    }
  }

  lemma SubsetSize<T>(a: set<T>, b: set<T>)
    requires a <= b
    ensures |a| <= |b|
  {
    assert b == a + (b - a);
  }

  lemma RegrantKeepsInv(m: Mem, all: set<nat>, s: nat, i: nat)
    requires Inv(m, all) && s in m.spaces && i < SLOTS
    requires m.spaces[s].ptes[i].Mapped() && m.spaces[s].ptes[i].frame < FRAME_COUNT
    requires m.pageRef[m.spaces[s].ptes[i].frame] == 0
    ensures Inv(SetPte(m, s, i, m.spaces[s].ptes[i].(rw := true)), all)
  {
    var p := m.spaces[s].ptes[i];
    var m' := SetPte(m, s, i, p.(rw := true));
    assert Maps(m, s, i, p.frame);
    PteUpdated(m, m', s, i, p.(rw := true));
    SoleMapper(m, s, i, p.frame);
    MappersAgree(m, m', p.frame);
    CountedExcept(m, m', p.frame);
    AccountingMoves(m, m', all, p.frame);
    RegrantPermissions(m, m', s, i);
    Combine(m', all);
  }

  lemma RegrantPermissions(m: Mem, m': Mem, s: nat, i: nat)
    requires Shape(m) && Permissions(m) && s in m.spaces && i < SLOTS && m.spaces[s].ptes[i].Mapped()
    requires m' == SetPte(m, s, i, m.spaces[s].ptes[i].(rw := true))
    requires forall s': nat, i': nat :: Maps(m, s', i', m.spaces[s].ptes[i].frame) ==> s' == s && i' == i
    ensures Permissions(m')
  {
    PteUpdated(m, m', s, i, m.spaces[s].ptes[i].(rw := true));
  }

  lemma {:induction false} DirectoriesDistinct(spaces: map<nat, Space>, keys: set<nat>) returns (dirs: set<nat>)
    requires keys <= spaces.Keys
    requires forall s, s' :: s in spaces && s' in spaces && s != s' ==> spaces[s].Tables() !! spaces[s'].Tables()
    ensures |dirs| == |keys|
    ensures forall f :: f in dirs ==> exists s :: s in keys && spaces[s].directory == f
  {
    dirs := {};
    if keys != {} {
      var k :| k in keys;
      var rest := DirectoriesDistinct(spaces, keys - {k});
      assert spaces[k].directory in spaces[k].Tables();
      assert forall s :: s in spaces ==> spaces[s].directory in spaces[s].Tables();
      assert spaces[k].directory !in rest;
      dirs := rest + {spaces[k].directory};
    }
  }

  function Below(n: nat): set<nat>
  {
    if n == 0 then {} else Below(n - 1) + {n - 1}
  }

  lemma {:induction false} BelowSize(n: nat)
    ensures |Below(n)| == n
    ensures forall f: nat :: f in Below(n) <==> f < n
  {
    if n > 0 {
      BelowSize(n - 1);
    }
  }

  /** Each space has a page directory in a frame of its own. */
  lemma SpacesAreFew(m: Mem, all: set<nat>)
    requires Accounting(m, all)
    ensures |m.spaces| < FRAME_COUNT
  {
    var dirs := DirectoriesDistinct(m.spaces, m.spaces.Keys);
    forall f | f in dirs
      ensures f in all
    {
      var s :| s in m.spaces.Keys && m.spaces[s].directory == f;
      assert f in m.spaces[s].Tables();
      assert IsTable(m, f);
    }
    BelowSize(FRAME_COUNT);
    SubsetSize(dirs + {0}, Below(FRAME_COUNT));
  }

  /** No frame has more mappers than there are spaces, so the 16-bit counter cannot wrap. */
  lemma RefsAreFew(m: Mem, f: nat)
    requires Permissions(m)
    ensures |Mappers(m, f)| <= |m.spaces|
  {
    if IsMapped(m, f) {
      var s: nat, i: nat :| Maps(m, s, i, f);
      PairsSize(m.spaces.Keys, i);
      SubsetSize(Mappers(m, f), Pairs(m.spaces.Keys, i));
    } else {
      assert Mappers(m, f) == {};
    }
  }

  function Pairs(keys: set<nat>, i: nat): set<(nat, nat)>
  {
    set s | s in keys :: (s, i)
  }

  lemma {:induction false} PairsSize(keys: set<nat>, i: nat)
    ensures |Pairs(keys, i)| == |keys|
  {
    if keys == {} {
      assert Pairs(keys, i) == {};
    } else {
      var k :| k in keys;
      PairsSize(keys - {k}, i);
      assert Pairs(keys, i) == Pairs(keys - {k}, i) + {(k, i)};
    }
  }

  lemma CreateKeepsInv(m: Mem, all: set<nat>, id: nat, t: TableFrames)
    requires Inv(m, all) && id !in m.spaces && id != KERNEL && t.DistinctIn(m.free)
    ensures Inv(Create(m, id, Some(t)), all)
  {
    var m' := Create(m, id, Some(t));
    assert forall s: nat, i: nat, g: nat :: Maps(m', s, i, g) <==> Maps(m, s, i, g);
    forall g: nat
      ensures Mappers(m, g) == Mappers(m', g) && IsMapped(m, g) == IsMapped(m', g)
    {
      MappersAgree(m, m', g);
    }
    NewTables(m, m', all, id, t);
    Combine(m', all);
  }

  lemma NewTables(m: Mem, m': Mem, all: set<nat>, id: nat, t: TableFrames)
    requires Accounting(m, all) && id !in m.spaces && t.DistinctIn(m.free)
    requires m'.kernel == m.kernel && m'.free == m.free - t.Frames() && m'.spaces.Keys == m.spaces.Keys + {id}
    requires m'.spaces[id].Tables() == t.Frames()
    requires forall s :: s in m.spaces ==> m'.spaces[s].Tables() == m.spaces[s].Tables()
    requires forall g: nat :: IsMapped(m', g) <==> IsMapped(m, g)
    ensures Accounting(m', all)
  {
    forall g: nat
      ensures IsTable(m', g) <==> IsTable(m, g) || g in t.Frames()
    {
      assert g in t.Frames() ==> id in m'.spaces && g in m'.spaces[id].Tables();
      if IsTable(m, g) {
        var s :| s in m.spaces && g in m.spaces[s].Tables();
        assert s in m'.spaces && g in m'.spaces[s].Tables();
      }
    }
    assert t.Frames() <= m.free;
    forall s | s in m.spaces
      ensures m.spaces[s].Tables() !! m.free
    {
      assert forall f :: f in m.spaces[s].Tables() ==> IsTable(m, f);
    }
    AccountingWithTables(m, m', all, id, t);
  }

  lemma AccountingWithTables(m: Mem, m': Mem, all: set<nat>, id: nat, t: TableFrames)
    requires Accounting(m, all) && id !in m.spaces && t.Frames() <= m.free && |t.Frames()| == 3
    requires m'.kernel == m.kernel && m'.free == m.free - t.Frames() && m'.spaces.Keys == m.spaces.Keys + {id}
    requires m'.spaces[id].Tables() == t.Frames()
    requires forall s :: s in m.spaces ==> m'.spaces[s].Tables() == m.spaces[s].Tables()
    requires forall s :: s in m.spaces ==> m.spaces[s].Tables() !! m.free
    requires forall g: nat :: IsMapped(m', g) <==> IsMapped(m, g)
    requires forall g: nat :: IsTable(m', g) <==> IsTable(m, g) || g in t.Frames()
    ensures Accounting(m', all)
  {
  }

  lemma KernelTakeKeepsInv(m: Mem, all: set<nat>, f: nat)
    requires Inv(m, all) && f in m.free
    ensures Inv(m.(free := m.free - {f}, kernel := m.kernel + {f}), all)
  {
    KernelMoveKeepsInv(m, m.(free := m.free - {f}, kernel := m.kernel + {f}), all);
  }

  lemma KernelGiveKeepsInv(m: Mem, all: set<nat>, f: nat)
    requires Inv(m, all) && f in m.kernel
    ensures Inv(m.(free := m.free + {f}, kernel := m.kernel - {f}), all)
  {
    KernelMoveKeepsInv(m, m.(free := m.free + {f}, kernel := m.kernel - {f}), all);
  }

  lemma KernelMoveKeepsInv(m: Mem, m': Mem, all: set<nat>)
    requires Inv(m, all) && m' == m.(free := m'.free, kernel := m'.kernel)
    requires m'.free + m'.kernel == m.free + m.kernel && m'.free !! m'.kernel
    ensures Inv(m', all)
  {
    assert forall s: nat, i: nat, g: nat :: Maps(m', s, i, g) <==> Maps(m, s, i, g);
    forall g: nat
      ensures Mappers(m, g) == Mappers(m', g) && IsMapped(m, g) == IsMapped(m', g)
    {
      MappersAgree(m, m', g);
    }
    assert forall g: nat :: IsTable(m', g) <==> IsTable(m, g);
    assert forall g :: g in m'.free || g in m'.kernel <==> g in m'.free + m'.kernel;
    assert forall g :: g in m.free || g in m.kernel <==> g in m.free + m.kernel;
    Combine(m', all);
  }

  // ---------------------------------------------------------------- fork

  lemma CloneEntries(m: Mem, parent: nat, id: nat, t: TableFrames)
    requires Shape(m) && parent in m.spaces && id !in m.spaces
    ensures var m' := Clone(m, parent, id, Some(t));
            && (forall s: nat, i: nat, g: nat :: s != id ==> (Maps(m', s, i, g) <==> Maps(m, s, i, g)))
            && (forall i: nat, g: nat :: Maps(m', id, i, g) <==> Maps(m, parent, i, g))
            && (forall g: nat :: IsMapped(m', g) <==> IsMapped(m, g))
  {
    var m' := Clone(m, parent, id, Some(t));
    forall g: nat
      ensures IsMapped(m', g) <==> IsMapped(m, g)
    {
      if IsMapped(m, g) {
        var s: nat, i: nat :| Maps(m, s, i, g);
        assert Maps(m', s, i, g);
      }
      if IsMapped(m', g) {
        var s: nat, i: nat :| Maps(m', s, i, g);
        assert Maps(m, if s == id then parent else s, i, g);
      }
    }
  }

  lemma CloneCounts(m: Mem, all: set<nat>, parent: nat, id: nat, t: TableFrames)
    requires Inv(m, all) && parent in m.spaces && id !in m.spaces
    ensures Counted(Clone(m, parent, id, Some(t)))
  {
    var m' := Clone(m, parent, id, Some(t));
    CloneEntries(m, parent, id, t);
    SpacesAreFew(m, all);
    forall g: nat | g < FRAME_COUNT
      ensures m'.pageRef[g] == if IsMapped(m', g) then |Mappers(m', g)| - 1 else 0
    {
      CloneCountsFrame(m, m', parent, id, t, g);
    }
  }

  lemma CloneCountsFrame(m: Mem, m': Mem, parent: nat, id: nat, t: TableFrames, g: nat)
    requires Shape(m) && Counted(m) && Permissions(m) && parent in m.spaces && id !in m.spaces && g < FRAME_COUNT
    requires |m.spaces| < FRAME_COUNT && m' == Clone(m, parent, id, Some(t))
    ensures m'.pageRef[g] == if IsMapped(m', g) then |Mappers(m', g)| - 1 else 0
  {
    CloneEntries(m, parent, id, t);
    var src := m.spaces[parent].ptes;
    if HasFrame(src, g) {
      var i: nat :| i < |src| && MapsFrame(src, i, g);
      assert Maps(m, parent, i, g);
      RefsAreFew(m, g);
      AddMapper(m, m', id, i, g);
    } else {
      assert forall i: nat :: Maps(m, parent, i, g) ==> i < |src| && MapsFrame(src, i, g);
      MappersAgree(m, m', g);
    }
  }

  lemma AddMapper(m: Mem, m': Mem, id: nat, i: nat, g: nat)
    requires id !in m.spaces
    requires forall s: nat, j: nat :: Maps(m', s, j, g) <==> Maps(m, s, j, g) || (s == id && j == i)
    ensures |Mappers(m', g)| == |Mappers(m, g)| + 1
    ensures IsMapped(m', g)
  {
    assert Maps(m', id, i, g);
    assert Mappers(m', g) == Mappers(m, g) + {(id, i)};
  }

  lemma ClonePermissions(m: Mem, parent: nat, id: nat, t: TableFrames)
    requires Shape(m) && Permissions(m) && parent in m.spaces && id !in m.spaces
    ensures Permissions(Clone(m, parent, id, Some(t)))
  {
    var m' := Clone(m, parent, id, Some(t));
    CloneEntries(m, parent, id, t);
    forall s: nat, i: nat, s': nat, i': nat, f: nat | Maps(m', s, i, f) && Maps(m', s', i', f)
      ensures Compatible(s, i, m'.spaces[s].ptes[i], s', i', m'.spaces[s'].ptes[i'])
    {
      var o := if s == id then parent else s;
      var o' := if s' == id then parent else s';
      assert Maps(m, o, i, f) && Maps(m, o', i', f);
      assert m'.spaces[s].ptes[i] == if o == parent then ParentPte(m.spaces[o].ptes[i]) else m.spaces[o].ptes[i];
      assert m'.spaces[s'].ptes[i'] == if o' == parent then ParentPte(m.spaces[o'].ptes[i']) else m.spaces[o'].ptes[i'];
    }
  }

  lemma CloneAccounting(m: Mem, all: set<nat>, parent: nat, id: nat, t: TableFrames)
    requires Shape(m) && Accounting(m, all) && parent in m.spaces && id !in m.spaces && t.DistinctIn(m.free)
    ensures Accounting(Clone(m, parent, id, Some(t)), all)
  {
    var m' := Clone(m, parent, id, Some(t));
    CloneEntries(m, parent, id, t);
    assert m'.spaces.Keys == m.spaces.Keys + {id};
    NewTables(m, m', all, id, t);
  }

  lemma CloneKeepsInv(m: Mem, all: set<nat>, parent: nat, id: nat, t: TableFrames)
    requires Inv(m, all) && parent in m.spaces && id !in m.spaces && id != KERNEL && t.DistinctIn(m.free)
    ensures Inv(Clone(m, parent, id, Some(t)), all)
  {
    CloneCounts(m, all, parent, id, t);
    ClonePermissions(m, parent, id, t);
    CloneAccounting(m, all, parent, id, t);
    Combine(Clone(m, parent, id, Some(t)), all);
  }

  // ---------------------------------------------------------------- exit

  lemma DestroyEntries(m: Mem, s: nat)
    requires s in m.spaces
    ensures forall s': nat, i: nat, g: nat :: Maps(Destroy(m, s), s', i, g) <==> s' != s && Maps(m, s', i, g)
    ensures forall g: nat :: HasFrame(m.spaces[s].ptes, g) <==> exists i: nat :: Maps(m, s, i, g)
  {
    var ptes := m.spaces[s].ptes;
    forall g: nat
      ensures HasFrame(ptes, g) <==> exists i: nat :: Maps(m, s, i, g)
    {
      if HasFrame(ptes, g) {
        var i: nat :| i < |ptes| && MapsFrame(ptes, i, g);
        assert Maps(m, s, i, g);
      }
      if i: nat :| Maps(m, s, i, g) {
        assert i < |ptes| && MapsFrame(ptes, i, g);
      }
    }
  }

  lemma DestroyCountsFrame(m: Mem, s: nat, g: nat)
    requires Shape(m) && Counted(m) && Permissions(m) && s in m.spaces && g < FRAME_COUNT
    ensures var m' := Destroy(m, s); m'.pageRef[g] == if IsMapped(m', g) then |Mappers(m', g)| - 1 else 0
    ensures IsMapped(Destroy(m, s), g) <==> IsMapped(m, g) && g !in SoleFrames(m.pageRef, m.spaces[s].ptes)
  {
    var m' := Destroy(m, s);
    DestroyEntries(m, s);
    if HasFrame(m.spaces[s].ptes, g) {
      var i: nat :| Maps(m, s, i, g);
      RemoveMapper(m, m', s, i, g);
    } else {
      MappersAgree(m, m', g);
    }
  }

  lemma DestroyAccounting(m: Mem, all: set<nat>, s: nat)
    requires Shape(m) && Accounting(m, all) && s in m.spaces
    requires forall g: nat :: g < FRAME_COUNT ==>
      (IsMapped(Destroy(m, s), g) <==> IsMapped(m, g) && g !in SoleFrames(m.pageRef, m.spaces[s].ptes))
    ensures Accounting(Destroy(m, s), all)
  {
    var m' := Destroy(m, s);
    var sole := SoleFrames(m.pageRef, m.spaces[s].ptes);
    forall g: nat
      ensures IsMapped(m', g) <==> IsMapped(m, g) && g !in sole
      ensures g in sole ==> IsMapped(m, g)
    {
      DestroyMapped(m, s, g);
    }
    forall g: nat
      ensures IsTable(m', g) <==> IsTable(m, g) && g !in m.spaces[s].Tables()
    {
      DestroyTables(m, s, g);
    }
    AccountingWithout(m, m', all, s, sole);
  }

  lemma DestroyMapped(m: Mem, s: nat, g: nat)
    requires s in m.spaces
    ensures IsMapped(Destroy(m, s), g) ==> IsMapped(m, g)
    ensures g in SoleFrames(m.pageRef, m.spaces[s].ptes) ==> IsMapped(m, g)
  {
    var m' := Destroy(m, s);
    DestroyEntries(m, s);
    if IsMapped(m', g) {
      var s': nat, i: nat :| Maps(m', s', i, g);
      assert Maps(m, s', i, g);
    }
  }

  lemma DestroyTables(m: Mem, s: nat, g: nat)
    requires s in m.spaces
    requires forall s' :: s' in m.spaces && s' != s ==> m.spaces[s].Tables() !! m.spaces[s'].Tables()
    ensures IsTable(Destroy(m, s), g) <==> IsTable(m, g) && g !in m.spaces[s].Tables()
  {
    var m' := Destroy(m, s);
    if IsTable(m, g) {
      var s' :| s' in m.spaces && g in m.spaces[s'].Tables();
      assert s' != s ==> s' in m'.spaces && g in m'.spaces[s'].Tables();
    }
    if IsTable(m', g) {
      var s' :| s' in m'.spaces && g in m'.spaces[s'].Tables();
      assert s' in m.spaces && g in m.spaces[s'].Tables();
    }
  }

  lemma AccountingWithout(m: Mem, m': Mem, all: set<nat>, s: nat, sole: set<nat>)
    requires Accounting(m, all) && s in m.spaces && m'.spaces == m.spaces - {s} && m'.kernel == m.kernel
    requires m'.free == m.free + m.spaces[s].Tables() + sole
    requires forall g: nat :: IsTable(m', g) <==> IsTable(m, g) && g !in m.spaces[s].Tables()
    requires forall g: nat :: IsMapped(m', g) <==> IsMapped(m, g) && g !in sole
    requires forall g: nat :: g in sole ==> IsMapped(m, g)
    ensures Accounting(m', all)
  {
    assert forall g :: g in m.spaces[s].Tables() ==> IsTable(m, g);
  }

  lemma DestroyKeepsInv(m: Mem, all: set<nat>, s: nat)
    requires Inv(m, all) && s in m.spaces
    ensures Inv(Destroy(m, s), all)
  {
    var m' := Destroy(m, s);
    DestroyEntries(m, s);
    forall g: nat | g < FRAME_COUNT
      ensures m'.pageRef[g] == if IsMapped(m', g) then |Mappers(m', g)| - 1 else 0
      ensures IsMapped(m', g) <==> IsMapped(m, g) && g !in SoleFrames(m.pageRef, m.spaces[s].ptes)
    {
      DestroyCountsFrame(m, s, g);
    }
    DestroyAccounting(m, all, s);
    FewerEntriesKeepPermissions(m, m');
    Combine(m', all);
  }
}
