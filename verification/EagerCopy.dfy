/** Copy-on-write paging refines eager copying: a machine with no frames, no share counts and no
    write protection, in which fork copies every page, shows each program the same bytes. */
module EagerCopy {
  import opened Common
  import opened Paging

  /** A page of the eager machine. Pages with the same alias mirror each other's writes. */
  datatype EagerPage = EagerPage(bytes: Page, alias: Option<nat>)

  type Pages = map<nat, EagerPage>
  type Eager = map<nat, Pages>

  // ---------------------------------------------------------------- the eager machine

  function EagerZero(e: Eager, s: nat, i: nat, alias: Option<nat>): Eager
    requires s in e
  {
    var pages: Pages := e[s][i := EagerPage(ZeroPage(), alias)];
    if i in e[s] then e else e[s := pages]
  }

  predicate Mirrors(e: Eager, s: nat, i: nat, s': nat, i': nat)
    requires s in e && i in e[s] && s' in e && i' in e[s']
  {
    (s == s' && i == i') || (e[s][i].alias.Some? && e[s'][i'].alias == e[s][i].alias)
  }

  function EagerWrite(e: Eager, s: nat, i: nat, off: nat, b: Byte): Eager
    requires s in e && i in e[s] && off < PAGE_SIZE
  {
    map s' | s' in e :: WrittenPages(e, s, i, off, b, s')
  }

  function WrittenPages(e: Eager, s: nat, i: nat, off: nat, b: Byte, s': nat): Pages
    requires s in e && i in e[s] && off < PAGE_SIZE && s' in e
  {
    map i' | i' in e[s'] ::
      if Mirrors(e, s, i, s', i') then EagerPage(e[s'][i'].bytes[off := b], e[s'][i'].alias) else e[s'][i']
  }

  // ---------------------------------------------------------------- operations

  datatype Op =
    | Create(id: nat, tables: Option<TableFrames>)
    | Fork(parent: nat, id: nat, tables: Option<TableFrames>)
    | Destroy(space: nat)
    | Activate(space: nat)
    | MapUser(space: nat, vaddr: nat, frame: Option<nat>)
    | UnmapUser(space: nat, vaddr: nat)
    | Share(vaddr: nat, frame: Option<nat>)
    | Read(vaddr: nat, demand: bool, frame: Option<nat>)
    | Write(vaddr: nat, b: Byte, demand: bool, frame: Option<nat>)
    | KernelStore(space: nat, vaddr: nat, b: Byte)
    | KernelTake(f: nat)
    | KernelGive(f: nat)

  /** A store by the kernel through this entry is harmless: the page is shared on purpose, its frame has
      no other mapper, or the byte is there already. */
  predicate Harmless(m: Mem, s: nat, i: nat, off: nat, b: Byte)
    requires s in m.spaces && i < |m.spaces[s].ptes| && off < PAGE_SIZE
  {
    var p := m.spaces[s].ptes[i];
    p.frame < |m.pageRef| && p.frame < |m.ram| && (p.shared || m.pageRef[p.frame] == 0 || m.ram[p.frame][off] == b)
  }

  /** What the callers promise: frames handed out were free, a new space has a new address, and a
      kernel store is harmless. */
  predicate Enabled(m: Mem, op: Op)
  {
    match op
    case Create(id, t) => id != KERNEL && id !in m.spaces && (t.Some? ==> t.value.DistinctIn(m.free))
    case Fork(_, id, t) => id != KERNEL && id !in m.spaces && (t.Some? ==> t.value.DistinctIn(m.free))
    case MapUser(_, _, f) => f.Some? ==> f.value in m.free
    case Share(_, f) => f.Some? ==> f.value in m.free
    case Read(_, _, f) => f.Some? ==> f.value in m.free
    case Write(_, _, _, f) => f.Some? ==> f.value in m.free
    case KernelStore(s, v, b) =>
      var slot := UserSlot(v);
      (s in m.spaces && slot.Some? && slot.value < |m.spaces[s].ptes| && m.spaces[s].ptes[slot.value].Mapped()) ==>
        Harmless(m, s, slot.value, v % PAGE_SIZE, b)
    case KernelTake(f) => f in m.free
    case KernelGive(f) => f in m.kernel
    case _ => true
  }

  /** The entry of an address is present and the user's. */
  predicate Present(m: Mem, s: nat, v: nat)
    requires s in m.spaces
  {
    var slot := UserSlot(v);
    && slot.Some? && slot.value < |m.spaces[s].ptes|
    && m.spaces[s].ptes[slot.value].present && m.spaces[s].ptes[slot.value].user
  }

  /** The address may be written at once: its entry is writable, or its frame has no other mapper, or
      there is a frame to copy it to. */
  predicate MayStore(m: Mem, s: nat, v: nat, f: Option<nat>)
    requires s in m.spaces && Present(m, s, v)
  {
    var p := m.spaces[s].ptes[UserSlot(v).value];
    p.rw || f.Some? || (p.frame < |m.pageRef| && m.pageRef[p.frame] == 0)
  }

  /** When each operation is to succeed, in terms of entries, share counts and the allocator's answer. */
  predicate Succeeds(m: Mem, op: Op)
  {
    match op
    case Create(_, t) => t.Some?
    case Fork(parent, _, t) => parent in m.spaces && t.Some?
    case Destroy(s) => s in m.spaces
    case Activate(s) => s in m.spaces || s == KERNEL
    case MapUser(s, v, f) => s in m.spaces && UserSlot(v).Some? && (Present(m, s, v) || f.Some?)
    case UnmapUser(s, v) => s in m.spaces && UserSlot(v).Some?
    case Share(v, f) =>
      && m.active in m.spaces && v < LOW_TOP
      && (if Present(m, m.active, v) then m.spaces[m.active].ptes[UserSlot(v).value].shared else f.Some?)
    case Read(v, demand, f) =>
      && m.active in m.spaces && UserSlot(v).Some?
      && (Present(m, m.active, v) || (demand && f.Some?))
    case Write(v, _, demand, f) =>
      && m.active in m.spaces && UserSlot(v).Some?
      && (if Present(m, m.active, v) then MayStore(m, m.active, v, f) else demand && f.Some?)
    case KernelStore(s, v, _) => s in m.spaces && Present(m, s, v)
    case KernelTake(_) => true
    case KernelGive(_) => true
  }

  /** One operation of the kernel, with the result its caller sees. */
  ghost function Step(m: Mem, all: set<nat>, op: Op): (r: (bool, Mem))
    requires Inv(m, all) && Enabled(m, op)
  {
    match op
    case Create(id, t) => (t.Some?, Paging.Create(m, id, t))
    case Fork(p, id, t) => if p in m.spaces then (t.Some?, Clone(m, p, id, t)) else (false, m)
    case Destroy(s) => if s in m.spaces then (true, Paging.Destroy(m, s)) else (false, m)
    case Activate(s) => if s in m.spaces || s == KERNEL then (true, m.(active := s)) else (false, m)
    case MapUser(s, v, f) =>
      if s in m.spaces && UserSlot(v).Some? then
        var i := UserSlot(v).value;
        (m.spaces[s].ptes[i].Mapped() || f.Some?, MapPage(m, s, i, f))
      else (false, m)
    case UnmapUser(s, v) =>
      if s in m.spaces && UserSlot(v).Some? then (true, Unmap(m, s, UserSlot(v).value)) else (false, m)
    case Share(v, f) =>
      if m.active in m.spaces && v < LOW_TOP then
        var p := m.spaces[m.active].ptes[v / PAGE_SIZE];
        (if p.Mapped() then p.shared else f.Some?, SharePage(m, m.active, v / PAGE_SIZE, f))
      else (false, m)
    case Read(v, demand, f) =>
      if m.active in m.spaces && UserSlot(v).Some? then
        var i := UserSlot(v).value;
        if m.spaces[m.active].ptes[i].Mapped() then (true, m)
        else if demand then (f.Some?, MapPage(m, m.active, i, f)) else (false, m)
      else (false, m)
    case Write(v, b, demand, f) =>
      if m.active in m.spaces && UserSlot(v).Some? then
        FrameInRange(m, all, m.active, UserSlot(v).value);
        Store(m, m.active, UserSlot(v).value, v % PAGE_SIZE, b, demand, f)
      else (false, m)
    case KernelStore(s, v, b) =>
      if s in m.spaces && UserSlot(v).Some? && m.spaces[s].ptes[UserSlot(v).value].Mapped() then
        (true, Poke(m, m.spaces[s].ptes[UserSlot(v).value].frame, v % PAGE_SIZE, b))
      else (false, m)
    case KernelTake(f) => (true, m.(free := m.free - {f}, kernel := m.kernel + {f}))
    case KernelGive(f) => (true, m.(free := m.free + {f}, kernel := m.kernel - {f}))
  }

  /** Each operation succeeds exactly when it is to; above all, a write to a page that a fork has left
      read-only succeeds whenever no copy is needed or a frame for it is free. */
  lemma StepSucceedsIff(m: Mem, all: set<nat>, op: Op)
    requires Inv(m, all) && Enabled(m, op)
    ensures Step(m, all, op).0 <==> Succeeds(m, op)
  {
    if op.Write? && m.active in m.spaces && UserSlot(op.vaddr).Some? {
      FrameInRange(m, all, m.active, UserSlot(op.vaddr).value);
      StoreSucceedsIff(m, m.active, op.vaddr, op.b, op.demand, op.frame);
    }
  }

  lemma StoreSucceedsIff(m: Mem, s: nat, v: nat, b: Byte, demand: bool, f: Option<nat>)
    requires Shape(m) && s in m.spaces && UserSlot(v).Some? && (f.Some? ==> f.value < FRAME_COUNT)
    requires Present(m, s, v) ==> m.spaces[s].ptes[UserSlot(v).value].frame < FRAME_COUNT
    ensures Store(m, s, UserSlot(v).value, v % PAGE_SIZE, b, demand, f).0 <==>
            if Present(m, s, v) then MayStore(m, s, v, f) else demand && f.Some?
  {
  }

  lemma FrameInRange(m: Mem, all: set<nat>, s: nat, i: nat)
    requires Inv(m, all) && s in m.spaces && i < SLOTS
    ensures m.spaces[s].ptes[i].Mapped() ==> m.spaces[s].ptes[i].frame < FRAME_COUNT
  {
    if m.spaces[s].ptes[i].Mapped() {
      assert Maps(m, s, i, m.spaces[s].ptes[i].frame);
      assert IsMapped(m, m.spaces[s].ptes[i].frame);
    }
  }

  /** The same operation on the eager machine, given which space is active and whether the call
      succeeds. */
  function EagerStep(e: Eager, active: nat, op: Op, ok: bool): (r: Eager)
  {
    if !ok then e
    else
      match op
      case Create(id, _) => e[id := map[]]
      case Fork(p, id, _) => if p in e then e[id := e[p]] else e
      case Destroy(s) => e - {s}
      case MapUser(s, v, _) =>
        if s in e && UserSlot(v).Some? then EagerZero(e, s, UserSlot(v).value, None) else e
      case UnmapUser(s, v) =>
        if s in e && UserSlot(v).Some? then e[s := e[s] - {UserSlot(v).value}] else e
      case Share(v, f) =>
        if active in e then EagerZero(e, active, v / PAGE_SIZE, f) else e
      case Read(v, _, _) =>
        if active in e && UserSlot(v).Some? then EagerZero(e, active, UserSlot(v).value, None) else e
      case Write(v, b, _, _) =>
        if active in e && UserSlot(v).Some? then
          var z := EagerZero(e, active, UserSlot(v).value, None);
          EagerWrite(z, active, UserSlot(v).value, v % PAGE_SIZE, b)
        else e
      case KernelStore(s, v, b) =>
        if s in e && UserSlot(v).Some? && UserSlot(v).value in e[s] then
          EagerWrite(e, s, UserSlot(v).value, v % PAGE_SIZE, b)
        else e
      case _ => e
  }

  // ---------------------------------------------------------------- the abstraction

  function PageOf(ram: seq<Page>, p: Pte): EagerPage
  {
    EagerPage(if p.frame < |ram| then ram[p.frame] else ZeroPage(), if p.shared then Some(p.frame) else None)
  }

  function PagesOf(ram: seq<Page>, ptes: seq<Pte>): Pages
  {
    map i: nat | i < |ptes| && ptes[i].Mapped() :: PageOf(ram, ptes[i])
  }

  /** What each space can see. */
  function Visible(m: Mem): Eager
  {
    map s | s in m.spaces :: PagesOf(m.ram, m.spaces[s].ptes)
  }

  lemma CreateRefines(m: Mem, id: nat, t: TableFrames)
    ensures Visible(Paging.Create(m, id, Some(t))) == Visible(m)[id := map[]]
  {
    assert PagesOf(m.ram, FreshPtes()) == map[];
  }

  /** Sharing every page read-only looks exactly like copying every page. */
  lemma ForkRefines(m: Mem, parent: nat, id: nat, t: TableFrames)
    requires parent in m.spaces && |m.spaces[parent].ptes| == SLOTS && id !in m.spaces
    ensures Visible(Clone(m, parent, id, Some(t))) == Visible(m)[id := Visible(m)[parent]]
  {
    var src := m.spaces[parent].ptes;
    SamePages(m.ram, ParentPtes(src), src);
    SamePages(m.ram, ChildPtes(src), src);
  }

  /** Entries that differ in write protection only show the same pages. */
  lemma SamePages(ram: seq<Page>, a: seq<Pte>, b: seq<Pte>)
    requires |a| == |b| && forall i :: 0 <= i < |a| ==> (a[i].Mapped() <==> b[i].Mapped())
    requires forall i :: 0 <= i < |a| && a[i].Mapped() ==> a[i].frame == b[i].frame && a[i].shared == b[i].shared
    ensures PagesOf(ram, a) == PagesOf(ram, b)
  {
    assert PagesOf(ram, a).Keys == PagesOf(ram, b).Keys;
  }

  lemma DestroyRefines(m: Mem, s: nat)
    requires s in m.spaces
    ensures Visible(Paging.Destroy(m, s)) == Visible(m) - {s}
  {
  }

  lemma UnmapRefines(m: Mem, s: nat, i: nat)
    requires s in m.spaces && i < |m.spaces[s].ptes| && |m.pageRef| == FRAME_COUNT
    ensures Visible(Unmap(m, s, i)) == Visible(m)[s := Visible(m)[s] - {i}]
  {
    var ptes := m.spaces[s].ptes;
    if ptes[i].Mapped() {
      assert PagesOf(m.ram, ptes[i := Pte(false, false, false, false, 0)]) == PagesOf(m.ram, ptes) - {i};
    } else {
      assert PagesOf(m.ram, ptes) - {i} == PagesOf(m.ram, ptes);
    }
  }

  /** Writing a frame that no entry maps is invisible. */
  lemma UnmappedFrameInvisible(m: Mem, f: nat, page: Page)
    requires f < |m.ram| && !IsMapped(m, f)
    ensures forall s :: s in m.spaces ==>
            PagesOf(m.ram[f := page], m.spaces[s].ptes) == PagesOf(m.ram, m.spaces[s].ptes)
  {
    forall s | s in m.spaces
      ensures PagesOf(m.ram[f := page], m.spaces[s].ptes) == PagesOf(m.ram, m.spaces[s].ptes)
    {
      var ptes := m.spaces[s].ptes;
      forall i: nat | i < |ptes| && ptes[i].Mapped()
        ensures PageOf(m.ram[f := page], ptes[i]) == PageOf(m.ram, ptes[i])
      {
        assert Maps(m, s, i, ptes[i].frame);
      }
    }
  }

  lemma InstallRefines(m: Mem, all: set<nat>, s: nat, i: nat, f: nat, shared: bool)
    requires Inv(m, all) && s in m.spaces && i < SLOTS && f in m.free && !m.spaces[s].ptes[i].Mapped()
    ensures Visible(Install(m, s, i, f, shared)) ==
            EagerZero(Visible(m), s, i, if shared then Some(f) else None)
  {
    var m' := Install(m, s, i, f, shared);
    UnmappedFrameInvisible(m, f, ZeroPage());
    var ptes := m.spaces[s].ptes;
    var q := Pte(true, true, true, shared, f);
    EntryShows(m'.ram, ptes, i, q);
  }

  lemma EntryShows(ram: seq<Page>, ptes: seq<Pte>, i: nat, q: Pte)
    requires i < |ptes| && q.Mapped()
    ensures PagesOf(ram, ptes[i := q]) == PagesOf(ram, ptes)[i := PageOf(ram, q)]
  {
  }

  /** A free frame is the alias of no page. */
  lemma TokenIsFresh(m: Mem, all: set<nat>, f: nat)
    requires Inv(m, all) && f in m.free
    ensures forall s: nat, i: nat :: s in Visible(m) && i in Visible(m)[s] ==> Visible(m)[s][i].alias != Some(f)
  {
    forall s: nat, i: nat | s in Visible(m) && i in Visible(m)[s]
      ensures Visible(m)[s][i].alias != Some(f)
    {
      assert Maps(m, s, i, m.spaces[s].ptes[i].frame);
      assert IsMapped(m, m.spaces[s].ptes[i].frame);
    }
  }

  /** A page newly marked shared is aliased by no other page, so only forks make aliases. */
  lemma SharedPageStartsAlone(m: Mem, all: set<nat>, s: nat, i: nat, f: nat, s': nat, i': nat)
    requires Inv(m, all) && s in m.spaces && i < SLOTS && f in m.free && !m.spaces[s].ptes[i].Mapped()
    requires s' in Visible(m) && i' in Visible(m)[s']
    ensures var e := EagerZero(Visible(m), s, i, Some(f));
            i in e[s] && s' in e && i' in e[s'] && !Mirrors(e, s, i, s', i')
  {
    TokenIsFresh(m, all, f);
  }

  /** Resolving a copy-on-write fault changes nothing any space can see. */
  lemma CowIsInvisible(m: Mem, all: set<nat>, s: nat, i: nat, f: Option<nat>)
    requires Inv(m, all) && s in m.spaces && i < SLOTS && (f.Some? ==> f.value in m.free)
    requires m.spaces[s].ptes[i].Mapped() ==> m.spaces[s].ptes[i].frame < FRAME_COUNT
    ensures TryCow(m, s, i, f).Some? ==> Visible(TryCow(m, s, i, f).value) == Visible(m)
  {
    var p := m.spaces[s].ptes[i];
    if TryCow(m, s, i, f).Some? {
      if m.pageRef[p.frame] > 0 {
        assert !IsMapped(m, f.value);
        CopyIsInvisible(m, s, i, f.value);
      } else {
        SamePages(m.ram, m.spaces[s].ptes[i := p.(rw := true)], m.spaces[s].ptes);
      }
    }
  }

  lemma CopyIsInvisible(m: Mem, s: nat, i: nat, f: nat)
    requires Shape(m) && s in m.spaces && i < SLOTS && f < FRAME_COUNT && !IsMapped(m, f)
    requires m.spaces[s].ptes[i].Mapped() && !m.spaces[s].ptes[i].rw && !m.spaces[s].ptes[i].shared
    requires m.spaces[s].ptes[i].frame < FRAME_COUNT && m.pageRef[m.spaces[s].ptes[i].frame] > 0
    ensures Visible(TryCow(m, s, i, Some(f)).value) == Visible(m)
  {
    var p, ptes := m.spaces[s].ptes[i], m.spaces[s].ptes;
    var ram := m.ram[f := m.ram[p.frame]];
    var q := p.(frame := f, rw := true);
    UnmappedFrameInvisible(m, f, m.ram[p.frame]);
    assert PageOf(ram, q) == PageOf(m.ram, p);
    assert PagesOf(ram, ptes[i := q]) == PagesOf(m.ram, ptes);
  }

  /** Whoever maps the frame of this entry aliases its page. */
  ghost predicate OnlyAliases(m: Mem, s: nat, i: nat)
    requires s in m.spaces && i < |m.spaces[s].ptes|
  {
    var p := m.spaces[s].ptes[i];
    forall s': nat, i': nat :: Maps(m, s', i', p.frame) ==>
      (s' == s && i' == i) || (p.shared && m.spaces[s'].ptes[i'].shared)
  }

  /** A store then reaches its own page, and for a shared page exactly the pages that alias it. */
  lemma StoreReaches(m: Mem, s: nat, i: nat, f: nat, off: nat, b: Byte)
    requires Shape(m) && s in m.spaces && i < SLOTS && off < PAGE_SIZE && f < FRAME_COUNT
    requires m.spaces[s].ptes[i].Mapped() && m.spaces[s].ptes[i].frame == f && OnlyAliases(m, s, i)
    ensures Visible(Poke(m, f, off, b)) == EagerWrite(Visible(m), s, i, off, b)
  {
    forall s': nat | s' in m.spaces
      ensures PagesOf(Poke(m, f, off, b).ram, m.spaces[s'].ptes) == WrittenPages(Visible(m), s, i, off, b, s')
    {
      StoreReachesSpace(m, s, i, f, off, b, s');
    }
  }

  lemma StoreReachesSpace(m: Mem, s: nat, i: nat, f: nat, off: nat, b: Byte, s': nat)
    requires Shape(m) && s in m.spaces && i < SLOTS && off < PAGE_SIZE && f < FRAME_COUNT && s' in m.spaces
    requires m.spaces[s].ptes[i].Mapped() && m.spaces[s].ptes[i].frame == f && OnlyAliases(m, s, i)
    ensures PagesOf(Poke(m, f, off, b).ram, m.spaces[s'].ptes) == WrittenPages(Visible(m), s, i, off, b, s')
  {
    var e := Visible(m);
    var pages, written := PagesOf(Poke(m, f, off, b).ram, m.spaces[s'].ptes), WrittenPages(e, s, i, off, b, s');
    assert pages.Keys == e[s'].Keys == written.Keys;
    forall i': nat | i' in pages
      ensures pages[i'] == written[i']
    {
      StoreReachesPage(m, s, i, s', i', off, b);
    }
  }

  lemma StoreReachesPage(m: Mem, s: nat, i: nat, s': nat, i': nat, off: nat, b: Byte)
    requires Shape(m) && off < PAGE_SIZE
    requires s in m.spaces && i < SLOTS && m.spaces[s].ptes[i].Mapped() && OnlyAliases(m, s, i)
    requires m.spaces[s].ptes[i].frame < FRAME_COUNT
    requires s' in m.spaces && i' in Visible(m)[s']
    ensures PageOf(Poke(m, m.spaces[s].ptes[i].frame, off, b).ram, m.spaces[s'].ptes[i']) ==
            if Mirrors(Visible(m), s, i, s', i')
            then EagerPage(Visible(m)[s'][i'].bytes[off := b], Visible(m)[s'][i'].alias)
            else Visible(m)[s'][i']
  {
    assert Maps(m, s', i', m.spaces[s'].ptes[i'].frame);
  }

  /** A store through a writable entry reaches its own page, and for a shared page exactly the
      pages that alias it. */
  lemma PokeRefines(m: Mem, all: set<nat>, s: nat, i: nat, off: nat, b: Byte)
    requires Inv(m, all) && s in m.spaces && i < SLOTS && off < PAGE_SIZE
    requires m.spaces[s].ptes[i].Mapped() && m.spaces[s].ptes[i].rw && m.spaces[s].ptes[i].frame < FRAME_COUNT
    ensures Visible(Poke(m, m.spaces[s].ptes[i].frame, off, b)) == EagerWrite(Visible(m), s, i, off, b)
  {
    WritableAliases(m, s, i);
    StoreReaches(m, s, i, m.spaces[s].ptes[i].frame, off, b);
  }

  lemma WritableAliases(m: Mem, s: nat, i: nat)
    requires Shape(m) && Permissions(m) && s in m.spaces && i < SLOTS && m.spaces[s].ptes[i].Mapped() &&
             m.spaces[s].ptes[i].rw
    ensures OnlyAliases(m, s, i)
  {
    var p := m.spaces[s].ptes[i];
    assert Maps(m, s, i, p.frame);
    forall s': nat, i': nat | Maps(m, s', i', p.frame)
      ensures (s' == s && i' == i) || (p.shared && m.spaces[s'].ptes[i'].shared)
    {
      assert Compatible(s, i, p, s', i', m.spaces[s'].ptes[i']);
    }
  }

  // ---------------------------------------------------------------- stores that ignore protection

  /** paging_zero_user and paging_copy_to_user store through an entry whether or not it is writable.
      Such a store looks like one to this page alone exactly if the page is shared on purpose, its
      frame has no other mapper, or the byte was there already. */
  lemma KernelStoreRefinesIff(m: Mem, all: set<nat>, s: nat, i: nat, f: nat, off: nat, b: Byte)
    requires Inv(m, all) && s in m.spaces && i < SLOTS && off < PAGE_SIZE && f < FRAME_COUNT
    requires m.spaces[s].ptes[i].Mapped() && m.spaces[s].ptes[i].frame == f
    ensures Visible(Poke(m, f, off, b)) == EagerWrite(Visible(m), s, i, off, b) <==>
            Harmless(m, s, i, off, b)
  {
    var p := m.spaces[s].ptes[i];
    if p.shared || m.pageRef[f] == 0 {
      KernelAliases(m, all, s, i, f);
      StoreReaches(m, s, i, f, off, b);
    } else if m.ram[f][off] == b {
      SameByte(m, s, i, f, off, b);
    } else {
      assert Maps(m, s, i, f);
      var s', i' := OtherMapper(m, all, s, i, f);
      AliasedStoreShows(m, s, i, f, off, b, s', i');
    }
  }

  lemma KernelAliases(m: Mem, all: set<nat>, s: nat, i: nat, f: nat)
    requires Inv(m, all) && s in m.spaces && i < SLOTS && f < FRAME_COUNT
    requires m.spaces[s].ptes[i].Mapped() && m.spaces[s].ptes[i].frame == f &&
             (m.spaces[s].ptes[i].shared || m.pageRef[f] == 0)
    ensures OnlyAliases(m, s, i)
  {
    assert Maps(m, s, i, f);
    if m.spaces[s].ptes[i].shared {
      WritableIfShared(m, s, i, f);
      WritableAliases(m, s, i);
    } else {
      SoleMapper(m, s, i, f);
    }
  }

  lemma WritableIfShared(m: Mem, s: nat, i: nat, f: nat)
    requires Permissions(m) && Maps(m, s, i, f) && m.spaces[s].ptes[i].shared
    ensures m.spaces[s].ptes[i].rw
  {
    assert Compatible(s, i, m.spaces[s].ptes[i], s, i, m.spaces[s].ptes[i]);
  }

  lemma OtherMapper(m: Mem, all: set<nat>, s: nat, i: nat, f: nat) returns (s': nat, i': nat)
    requires Inv(m, all) && Maps(m, s, i, f) && f < FRAME_COUNT && m.pageRef[f] > 0
    ensures Maps(m, s', i', f) && (s' != s || i' != i)
  {
    assert IsMapped(m, f) && (s, i) in Mappers(m, f);
    var others := Mappers(m, f) - {(s, i)};
    assert |others| > 0;
    var other :| other in others;
    s', i' := other.0, other.1;
  }

  /** Storing the byte that is there changes nothing for either machine. */
  lemma SameByte(m: Mem, s: nat, i: nat, f: nat, off: nat, b: Byte)
    requires Shape(m) && s in m.spaces && i < SLOTS && off < PAGE_SIZE && f < FRAME_COUNT && m.ram[f][off] == b
    requires m.spaces[s].ptes[i].Mapped() && m.spaces[s].ptes[i].frame == f && !m.spaces[s].ptes[i].shared
    ensures Visible(Poke(m, f, off, b)) == EagerWrite(Visible(m), s, i, off, b)
  {
    assert m.ram[f][off := b] == m.ram[f];
    assert Poke(m, f, off, b) == m;
    var e := Visible(m);
    var w := EagerWrite(e, s, i, off, b);
    forall s': nat | s' in e
      ensures w[s'] == e[s']
    {
      assert forall i' :: i' in e[s'] ==> w[s'][i'] == e[s'][i'];
    }
    assert w == e;
  }

  /** Another mapper sees a store that eager copying would keep from it. */
  lemma AliasedStoreShows(m: Mem, s: nat, i: nat, f: nat, off: nat, b: Byte, s': nat, i': nat)
    requires Shape(m) && s in m.spaces && i < SLOTS && off < PAGE_SIZE && f < FRAME_COUNT && m.ram[f][off] != b
    requires m.spaces[s].ptes[i].Mapped() && m.spaces[s].ptes[i].frame == f && !m.spaces[s].ptes[i].shared
    requires Maps(m, s', i', f) && (s' != s || i' != i)
    ensures Visible(Poke(m, f, off, b)) != EagerWrite(Visible(m), s, i, off, b)
  {
    var m', w := Poke(m, f, off, b), EagerWrite(Visible(m), s, i, off, b);
    assert Visible(m')[s'][i'].bytes[off] == b;
    assert w[s'][i'] == Visible(m)[s'][i'] && w[s'][i'].bytes[off] == m.ram[f][off];
  }

  /** The space can be forked, and has a page, not shared on purpose, with a byte other than b at `off`. */
  predicate Forkable(m: Mem, parent: nat, id: nat, t: TableFrames, i: nat, off: nat, b: Byte)
  {
    && parent in m.spaces && id !in m.spaces && id != KERNEL && t.DistinctIn(m.free)
    && i < |m.spaces[parent].ptes| && off < PAGE_SIZE
    && var p := m.spaces[parent].ptes[i];
       p.Mapped() && !p.shared && p.frame < |m.ram| && m.ram[p.frame][off] != b
  }

  /** After any fork, a kernel store of another byte into a page of the parent that is not shared on
      purpose shows in the child as well. */
  lemma ForkedStoreShows(m: Mem, all: set<nat>, parent: nat, id: nat, t: TableFrames, i: nat, off: nat, b: Byte)
    requires Inv(m, all) && Forkable(m, parent, id, t, i, off, b)
    ensures var m' := Clone(m, parent, id, Some(t));
            && Inv(m', all) && !Harmless(m', parent, i, off, b)
            && Visible(Poke(m', m.spaces[parent].ptes[i].frame, off, b)) != EagerWrite(Visible(m'), parent, i, off, b)
  {
    var f, m' := m.spaces[parent].ptes[i].frame, Clone(m, parent, id, Some(t));
    CloneKeepsInv(m, all, parent, id, t);
    CountersHaveRoom(m, all);
    ForkShares(m, parent, id, t, i, f, m');
    KernelStoreRefinesIff(m', all, parent, i, f, off, b);
  }

  lemma ForkShares(m: Mem, parent: nat, id: nat, t: TableFrames, i: nat, f: nat, m': Mem)
    requires parent in m.spaces && |m.spaces[parent].ptes| == SLOTS && id !in m.spaces && i < SLOTS
    requires m.spaces[parent].ptes[i].Mapped() && m.spaces[parent].ptes[i].frame == f < |m.pageRef|
    requires m.pageRef[f] + 1 < REF_LIMIT && m' == Clone(m, parent, id, Some(t))
    ensures parent in m'.spaces && |m'.spaces[parent].ptes| == SLOTS && |m'.pageRef| == |m.pageRef| && m'.ram == m.ram
    ensures m'.pageRef[f] == m.pageRef[f] + 1 && m'.spaces[parent].ptes[i] == ParentPte(m.spaces[parent].ptes[i])
  {
    assert MapsFrame(m.spaces[parent].ptes, i, f);
  }

  /** A machine with seven free frames: paging_install, then a new space with one page. */
  function SevenFrames(): set<nat>
  {
    {1, 2, 3, 4, 5, 6, 7}
  }

  function OneSpace(ram: seq<Page>): Mem
  {
    Paging.Create(Mem(map[], KERNEL, seq(FRAME_COUNT, _ => 0), ram, SevenFrames(), {}), 1, Some(TableFrames(1, 2, 3)))
  }

  function OnePage(ram: seq<Page>): Mem
    requires |ram| == FRAME_COUNT
  {
    Install(OneSpace(ram), 1, TABLE_ENTRIES, 4, false)
  }

  lemma OneSpaceInv(ram: seq<Page>)
    requires |ram| == FRAME_COUNT
    ensures Inv(OneSpace(ram), SevenFrames())
  {
    InstalledStateSatisfiesInv(SevenFrames(), {}, ram);
    assert SevenFrames() + {} == SevenFrames();
    CreateKeepsInv(Mem(map[], KERNEL, seq(FRAME_COUNT, _ => 0), ram, SevenFrames(), {}), SevenFrames(), 1,
      TableFrames(1, 2, 3));
  }

  lemma OnePageInv(ram: seq<Page>)
    requires |ram| == FRAME_COUNT
    ensures Inv(OnePage(ram), SevenFrames())
  {
    OneSpaceInv(ram);
    InstallKeepsInv(OneSpace(ram), SevenFrames(), 1, TABLE_ENTRIES, 4, false);
  }

  /** There the kernel's store of 7 into the page shows in a child. */
  lemma ForkExample(ram: seq<Page>)
    requires |ram| == FRAME_COUNT
    ensures Inv(OnePage(ram), SevenFrames()) && Forkable(OnePage(ram), 1, 2, TableFrames(5, 6, 7), TABLE_ENTRIES, 0, 7)
  {
    OnePageInv(ram);
    OnePageForks(ram);
  }

  lemma OnePageForks(ram: seq<Page>)
    requires |ram| == FRAME_COUNT
    ensures Forkable(OnePage(ram), 1, 2, TableFrames(5, 6, 7), TABLE_ENTRIES, 0, 7)
  {
    assert OnePage(ram).spaces[1].ptes[TABLE_ENTRIES] == Pte(true, true, true, false, 4);
    assert OnePage(ram).ram[4] == ZeroPage();
  }

  lemma StoreRefines(m: Mem, all: set<nat>, s: nat, i: nat, off: nat, b: Byte, demand: bool, f: Option<nat>)
    requires Inv(m, all) && s in m.spaces && i < SLOTS && off < PAGE_SIZE && (f.Some? ==> f.value in m.free)
    requires m.spaces[s].ptes[i].Mapped() ==> m.spaces[s].ptes[i].frame < FRAME_COUNT
    ensures var r := Store(m, s, i, off, b, demand, f);
            && Inv(r.1, all)
            && (!r.0 ==> r.1 == m)
            && (r.0 ==> Visible(r.1) == EagerWrite(EagerZero(Visible(m), s, i, None), s, i, off, b))
  {
    var p := m.spaces[s].ptes[i];
    if p.Mapped() && p.rw {
      DirectStoreRefines(m, all, s, i, off, b, p.frame);
    } else if WriteFault(m, s, i, demand, f).Some? {
      FaultingStoreRefines(m, all, s, i, off, b, demand, f, WriteFault(m, s, i, demand, f).value);
    }
  }

  lemma DirectStoreRefines(m: Mem, all: set<nat>, s: nat, i: nat, off: nat, b: Byte, f: nat)
    requires Inv(m, all) && s in m.spaces && i < SLOTS && off < PAGE_SIZE && f < FRAME_COUNT
    requires m.spaces[s].ptes[i].Mapped() && m.spaces[s].ptes[i].rw && m.spaces[s].ptes[i].frame == f
    ensures Inv(Poke(m, f, off, b), all)
    ensures Visible(Poke(m, f, off, b)) == EagerWrite(EagerZero(Visible(m), s, i, None), s, i, off, b)
  {
    PokeKeepsInv(m, all, f, off, b);
    PokeRefines(m, all, s, i, off, b);
    MappedIsVisible(m, s, i);
  }

  lemma MappedIsVisible(m: Mem, s: nat, i: nat)
    requires Shape(m) && s in m.spaces && i < SLOTS && m.spaces[s].ptes[i].Mapped()
    ensures EagerZero(Visible(m), s, i, None) == Visible(m)
  {
  }

  lemma FaultingStoreRefines(m: Mem, all: set<nat>, s: nat, i: nat, off: nat, b: Byte, demand: bool, f: Option<nat>,
                             m': Mem)
    requires Inv(m, all) && s in m.spaces && i < SLOTS && off < PAGE_SIZE && (f.Some? ==> f.value in m.free)
    requires m.spaces[s].ptes[i].Mapped() ==> m.spaces[s].ptes[i].frame < FRAME_COUNT
    requires WriteFault(m, s, i, demand, f) == Some(m')
    ensures s in m'.spaces && |m'.spaces[s].ptes| == SLOTS && m'.spaces[s].ptes[i].frame < FRAME_COUNT && Shape(m')
    ensures var after := Poke(m', m'.spaces[s].ptes[i].frame, off, b);
            Inv(after, all) && Visible(after) == EagerWrite(EagerZero(Visible(m), s, i, None), s, i, off, b)
  {
    WriteFaultRefines(m, all, s, i, demand, f);
    PokeRefines(m', all, s, i, off, b);
    PokeKeepsInv(m', all, m'.spaces[s].ptes[i].frame, off, b);
  }

  lemma PokeKeepsInv(m: Mem, all: set<nat>, f: nat, off: nat, b: Byte)
    requires Inv(m, all) && f < FRAME_COUNT && off < PAGE_SIZE
    ensures Inv(Poke(m, f, off, b), all)
  {
    RamIsIrrelevant(m, m.ram[f := m.ram[f][off := b]], all);
  }

  /** A resolved write fault leaves a writable entry and shows the same bytes, or a fresh zero page. */
  lemma WriteFaultRefines(m: Mem, all: set<nat>, s: nat, i: nat, demand: bool, f: Option<nat>)
    requires Inv(m, all) && s in m.spaces && i < SLOTS && (f.Some? ==> f.value in m.free)
    requires m.spaces[s].ptes[i].Mapped() ==> m.spaces[s].ptes[i].frame < FRAME_COUNT
    requires WriteFault(m, s, i, demand, f).Some?
    ensures var m' := WriteFault(m, s, i, demand, f).value;
            && Inv(m', all) && s in m'.spaces
            && m'.spaces[s].ptes[i].Mapped() && m'.spaces[s].ptes[i].rw && m'.spaces[s].ptes[i].frame < FRAME_COUNT
            && Visible(m') == EagerZero(Visible(m), s, i, None)
  {
    var p := m.spaces[s].ptes[i];
    if p.Mapped() {
      CowIsInvisible(m, all, s, i, f);
      if m.pageRef[p.frame] > 0 {
        CowCopyKeepsInv(m, all, s, i, f.value);
      } else {
        RegrantKeepsInv(m, all, s, i);
      }
    } else {
      InstallKeepsInv(m, all, s, i, f.value, false);
      InstallRefines(m, all, s, i, f.value, false);
    }
  }

  // ---------------------------------------------------------------- whole runs

  lemma StepKeepsInv(m: Mem, all: set<nat>, op: Op)
    requires Inv(m, all) && Enabled(m, op)
    ensures Inv(Step(m, all, op).1, all)
  {
    match op
    case Create(id, t) => if t.Some? { CreateKeepsInv(m, all, id, t.value); }
    case Fork(p, id, t) => if p in m.spaces && t.Some? { CloneKeepsInv(m, all, p, id, t.value); }
    case Destroy(s) => if s in m.spaces { DestroyKeepsInv(m, all, s); }
    case Activate(s) => ActivateKeepsInv(m, all, s);
    case MapUser(s, v, f) =>
      if s in m.spaces && UserSlot(v).Some? { MapRefines(m, all, s, UserSlot(v).value, f, false); }
    case UnmapUser(s, v) =>
      if s in m.spaces && UserSlot(v).Some? { UnmapKeepsInv(m, all, s, UserSlot(v).value); }
    case Share(v, f) =>
      if m.active in m.spaces && v < LOW_TOP { MapRefines(m, all, m.active, v / PAGE_SIZE, f, true); }
    case Read(v, demand, f) =>
      if m.active in m.spaces && UserSlot(v).Some? { MapRefines(m, all, m.active, UserSlot(v).value, f, false); }
    case Write(v, b, demand, f) =>
      if m.active in m.spaces && UserSlot(v).Some? {
        FrameInRange(m, all, m.active, UserSlot(v).value);
        StoreRefines(m, all, m.active, UserSlot(v).value, v % PAGE_SIZE, b, demand, f);
      }
    case KernelStore(s, v, b) =>
      if s in m.spaces && UserSlot(v).Some? && m.spaces[s].ptes[UserSlot(v).value].Mapped() {
        PokeKeepsInv(m, all, m.spaces[s].ptes[UserSlot(v).value].frame, v % PAGE_SIZE, b);
      }
    case KernelTake(f) => KernelTakeKeepsInv(m, all, f);
    case KernelGive(f) => KernelGiveKeepsInv(m, all, f);
  }

  lemma SpaceStepLooksEager(m: Mem, all: set<nat>, op: Op)
    requires Inv(m, all) && Enabled(m, op) && (op.Create? || op.Fork? || op.Destroy? || op.Activate?)
    ensures Visible(Step(m, all, op).1) == EagerStep(Visible(m), m.active, op, Step(m, all, op).0)
  {
    match op
    case Create(id, t) => if t.Some? { CreateRefines(m, id, t.value); }
    case Fork(p, id, t) => if p in m.spaces && t.Some? { ForkRefines(m, p, id, t.value); }
    case Destroy(s) => if s in m.spaces { DestroyRefines(m, s); }
    case Activate(s) => ActivateKeepsInv(m, all, s);
  }

  lemma PageStepLooksEager(m: Mem, all: set<nat>, op: Op)
    requires Inv(m, all) && Enabled(m, op) && (op.MapUser? || op.UnmapUser? || op.Share? || op.Read?)
    ensures Visible(Step(m, all, op).1) == EagerStep(Visible(m), m.active, op, Step(m, all, op).0)
  {
    match op
    case MapUser(s, v, f) =>
      if s in m.spaces && UserSlot(v).Some? { MapRefines(m, all, s, UserSlot(v).value, f, false); }
    case UnmapUser(s, v) =>
      if s in m.spaces && UserSlot(v).Some? { UnmapRefines(m, s, UserSlot(v).value); }
    case Share(v, f) =>
      if m.active in m.spaces && v < LOW_TOP { MapRefines(m, all, m.active, v / PAGE_SIZE, f, true); }
    case Read(v, demand, f) =>
      if m.active in m.spaces && UserSlot(v).Some? { MapRefines(m, all, m.active, UserSlot(v).value, f, false); }
  }

  lemma StoreStepLooksEager(m: Mem, all: set<nat>, op: Op)
    requires Inv(m, all) && Enabled(m, op) && op.Write?
    ensures Visible(Step(m, all, op).1) == EagerStep(Visible(m), m.active, op, Step(m, all, op).0)
  {
    if m.active in m.spaces && UserSlot(op.vaddr).Some? {
      FrameInRange(m, all, m.active, UserSlot(op.vaddr).value);
      StoreRefines(m, all, m.active, UserSlot(op.vaddr).value, op.vaddr % PAGE_SIZE, op.b, op.demand, op.frame);
    }
  }

  lemma KernelStepLooksEager(m: Mem, all: set<nat>, op: Op)
    requires Inv(m, all) && Enabled(m, op) && op.KernelStore?
    ensures Visible(Step(m, all, op).1) == EagerStep(Visible(m), m.active, op, Step(m, all, op).0)
  {
    var s, slot := op.space, UserSlot(op.vaddr);
    if s in m.spaces && slot.Some? && m.spaces[s].ptes[slot.value].Mapped() {
      KernelStoreRefinesIff(m, all, s, slot.value, m.spaces[s].ptes[slot.value].frame, op.vaddr % PAGE_SIZE, op.b);
    }
  }

  lemma StepLooksEager(m: Mem, all: set<nat>, op: Op)
    requires Inv(m, all) && Enabled(m, op)
    ensures Visible(Step(m, all, op).1) == EagerStep(Visible(m), m.active, op, Step(m, all, op).0)
  {
    if op.Create? || op.Fork? || op.Destroy? || op.Activate? {
      SpaceStepLooksEager(m, all, op);
    } else if op.Write? {
      StoreStepLooksEager(m, all, op);
    } else if op.KernelStore? {
      KernelStepLooksEager(m, all, op);
    } else if op.MapUser? || op.UnmapUser? || op.Share? || op.Read? {
      PageStepLooksEager(m, all, op);
    }
  }

  /** Every operation keeps the invariant and looks like its eager counterpart. */
  lemma StepRefines(m: Mem, all: set<nat>, op: Op)
    requires Inv(m, all) && Enabled(m, op)
    ensures Inv(Step(m, all, op).1, all)
    ensures Visible(Step(m, all, op).1) == EagerStep(Visible(m), m.active, op, Step(m, all, op).0)
  {
    StepKeepsInv(m, all, op);
    StepLooksEager(m, all, op);
  }

  lemma MapRefines(m: Mem, all: set<nat>, s: nat, i: nat, f: Option<nat>, shared: bool)
    requires Inv(m, all) && s in m.spaces && i < SLOTS && (f.Some? ==> f.value in m.free)
    ensures var m' := if shared then SharePage(m, s, i, f) else MapPage(m, s, i, f);
            && Inv(m', all)
            && (m.spaces[s].ptes[i].Mapped() <==> i in Visible(m)[s])
            && Visible(m') == if m.spaces[s].ptes[i].Mapped() || f.None? then Visible(m)
                              else EagerZero(Visible(m), s, i, if shared then f else None)
  {
    if !m.spaces[s].ptes[i].Mapped() && f.Some? {
      InstallKeepsInv(m, all, s, i, f.value, shared);
      InstallRefines(m, all, s, i, f.value, shared);
    }
  }

  lemma ActivateKeepsInv(m: Mem, all: set<nat>, s: nat)
    requires Inv(m, all)
    ensures (s in m.spaces || s == KERNEL) ==> Inv(m.(active := s), all) && Visible(m.(active := s)) == Visible(m)
  {
    if s in m.spaces || s == KERNEL {
      var m' := m.(active := s);
      SameMapsKeepInv(m, m', all);
    }
  }

  lemma SameMapsKeepInv(m: Mem, m': Mem, all: set<nat>)
    requires Inv(m, all) && Shape(m') && m' == m.(active := m'.active)
    ensures Inv(m', all)
  {
    assert forall s: nat, i: nat, g: nat :: Maps(m', s, i, g) <==> Maps(m, s, i, g);
    forall g: nat
      ensures Mappers(m, g) == Mappers(m', g) && IsMapped(m, g) == IsMapped(m', g)
    {
      MappersAgree(m, m', g);
    }
    assert forall g: nat :: IsTable(m', g) <==> IsTable(m, g);
    Combine(m', all);
  }

  /** Runs: each operation is enabled in the state it starts from. */
  ghost predicate IsRun(m: Mem, all: set<nat>, ops: seq<Op>)
    requires Inv(m, all)
    decreases |ops|
  {
    ops == [] ||
    (Enabled(m, ops[0]) &&
     (StepRefines(m, all, ops[0]); IsRun(Step(m, all, ops[0]).1, all, ops[1..])))
  }

  ghost function Run(m: Mem, all: set<nat>, ops: seq<Op>): Mem
    requires Inv(m, all) && IsRun(m, all, ops)
    decreases |ops|
  {
    if ops == [] then m
    else
      StepRefines(m, all, ops[0]);
      Run(Step(m, all, ops[0]).1, all, ops[1..])
  }

  /** The space whose pages the processor uses after an operation: the one last activated, until it
      is destroyed. */
  function ActiveAfter(active: nat, op: Op, ok: bool): nat
  {
    match op
    case Activate(s) => if ok then s else active
    case Destroy(s) => if ok && s == active then KERNEL else active
    case _ => active
  }

  lemma StepActivates(m: Mem, all: set<nat>, op: Op)
    requires Inv(m, all) && Enabled(m, op)
    ensures Step(m, all, op).1.active == ActiveAfter(m.active, op, Succeeds(m, op))
  {
    if op.Write? && m.active in m.spaces && UserSlot(op.vaddr).Some? {
      FrameInRange(m, all, m.active, UserSlot(op.vaddr).value);
    }
  }

  /** The eager machine and its active space, run over the same operations, each of which succeeds
      when it is to. */
  ghost function EagerRun(e: Eager, active: nat, m: Mem, all: set<nat>, ops: seq<Op>): (Eager, nat)
    requires Inv(m, all) && IsRun(m, all, ops)
    decreases |ops|
  {
    if ops == [] then (e, active)
    else
      StepRefines(m, all, ops[0]);
      var ok := Succeeds(m, ops[0]);
      EagerRun(EagerStep(e, active, ops[0], ok), ActiveAfter(active, ops[0], ok), Step(m, all, ops[0]).1, all, ops[1..])
  }

  /** The main result: after any run, what the programs see is what eager copying shows, and the
      frame accounting and share counts are exact. */
  lemma {:induction false} CopyOnWriteRefinesEagerCopy(m: Mem, all: set<nat>, ops: seq<Op>)
    requires Inv(m, all) && IsRun(m, all, ops)
    ensures Inv(Run(m, all, ops), all)
    ensures (Visible(Run(m, all, ops)), Run(m, all, ops).active) == EagerRun(Visible(m), m.active, m, all, ops)
    decreases |ops|
  {
    if ops != [] {
      StepRefines(m, all, ops[0]);
      StepSucceedsIff(m, all, ops[0]);
      StepActivates(m, all, ops[0]);
      CopyOnWriteRefinesEagerCopy(Step(m, all, ops[0]).1, all, ops[1..]);
    }
  }

  /** The state paging_install leaves: no user space, every managed frame free or the kernel's. */
  lemma InstalledStateSatisfiesInv(free: set<nat>, kernel: set<nat>, ram: seq<Page>)
    requires |ram| == FRAME_COUNT && free !! kernel
    requires forall f :: f in free + kernel ==> 0 < f < FRAME_COUNT
    ensures Inv(Mem(map[], KERNEL, seq(FRAME_COUNT, _ => 0), ram, free, kernel), free + kernel)
  {
    var m := Mem(map[], KERNEL, seq(FRAME_COUNT, _ => 0), ram, free, kernel);
    assert forall f: nat :: !IsMapped(m, f) && !IsTable(m, f);
  }

  /** A space cloned and destroyed again leaves every count and every free frame as before. */
  lemma CloneThenDestroyRestores(m: Mem, all: set<nat>, parent: nat, id: nat, t: TableFrames)
    requires Inv(m, all) && parent in m.spaces && id !in m.spaces && id != KERNEL && t.DistinctIn(m.free)
    ensures Paging.Destroy(Clone(m, parent, id, Some(t)), id).pageRef == m.pageRef
    ensures Paging.Destroy(Clone(m, parent, id, Some(t)), id).free == m.free
  {
    CountersHaveRoom(m, all);
    CloneThenDestroy(m, parent, id, t);
  }

  lemma CloneThenDestroy(m: Mem, parent: nat, id: nat, t: TableFrames)
    requires Shape(m) && parent in m.spaces && id !in m.spaces && t.DistinctIn(m.free)
    requires forall f :: 0 <= f < FRAME_COUNT ==> m.pageRef[f] + 1 < REF_LIMIT
    ensures Paging.Destroy(Clone(m, parent, id, Some(t)), id).pageRef == m.pageRef
    ensures Paging.Destroy(Clone(m, parent, id, Some(t)), id).free == m.free
  {
    RefsRestored(m.pageRef, m.spaces[parent].ptes);
    assert m.free - t.Frames() + t.Frames() + {} == m.free;
  }

  lemma CountersHaveRoom(m: Mem, all: set<nat>)
    requires Inv(m, all)
    ensures forall f :: 0 <= f < FRAME_COUNT ==> m.pageRef[f] + 1 < REF_LIMIT
  {
    SpacesAreFew(m, all);
    forall f | 0 <= f < FRAME_COUNT
      ensures m.pageRef[f] + 1 < REF_LIMIT
    {
      RefsAreFew(m, f);
    }
  }

  lemma RefsRestored(refs: seq<nat>, src: seq<Pte>)
    requires |src| == SLOTS && forall f :: 0 <= f < |refs| ==> refs[f] + 1 < REF_LIMIT
    ensures DropRefs(BumpRefs(refs, src), ChildPtes(src)) == refs
    ensures SoleFrames(BumpRefs(refs, src), ChildPtes(src)) == {}
  {
    forall f: nat
      ensures HasFrame(ChildPtes(src), f) <==> HasFrame(src, f)
    {
      ChildMapsSameFrames(src, f);
    }
  }

  lemma ChildMapsSameFrames(src: seq<Pte>, f: nat)
    requires |src| == SLOTS
    ensures HasFrame(ChildPtes(src), f) <==> HasFrame(src, f)
  {
    var child := ChildPtes(src);
    if HasFrame(src, f) {
      var i: nat :| i < |src| && MapsFrame(src, i, f);
      assert MapsFrame(child, i, f);
    }
    if HasFrame(child, f) {
      var i: nat :| i < |child| && MapsFrame(child, i, f);
      assert MapsFrame(src, i, f);
    }
  }
}
