/** Every run of DiskFS calls on a drive whose transfers fail at will (diskfs.c:231-376, 470-559):
    a mounted volume is the one that a mount would read; its files are those of a table of sparse
    files that knows no sectors; and no byte of a slot's former owner shows. */
module DiskRuns {
  import opened Common
  import opened DiskTable
  import opened DiskImage
  import opened DiskSteps

  // ---------------------------------------------------------------- the files of a volume

  /** What a user sees in a slot. */
  datatype Node = Node(kind: Byte, parent: Byte, name: seq<Byte>, content: seq<Byte>)

  type Nodes = v: seq<Option<Node>> | |v| == SLOTS witness NoNodes()

  function NoNodes(): seq<Option<Node>>
  {
    seq(SLOTS, _ => None)
  }

  function NodeAt(img: seq<seq<Byte>>, t: Table, i: nat): Option<Node>
    requires i < SLOTS
  {
    var e := t[i];
    if e.used == 0 then None else Some(Node(e.kind, e.parent, Text(e.name), Content(img, i, e.length as nat)))
  }

  function View(img: seq<seq<Byte>>, t: Table): (v: Nodes)
    ensures forall i :: 0 <= i < SLOTS ==> v[i] == NodeAt(img, t, i)
  {
    seq(SLOTS, i requires 0 <= i < SLOTS => NodeAt(img, t, i))
  }

  function FirstNone(v: seq<Option<Node>>, i: nat): nat
    requires i <= |v|
    decreases |v| - i
  {
    if i == |v| || v[i].None? then i else FirstNone(v, i + 1)
  }

  /** What the calls mean: a table of sparse files. */
  function Apply(v: Nodes, call: Call): Nodes
  {
    match call
    case Create(parent, name, kind) =>
      var i := FirstNone(v, 0);
      if i < SLOTS then v[i := Some(Node(kind, parent, Text(name), []))] else v
    case Remove(index, _) => if index < SLOTS then v[index := None] else v
    case Write(index, offset, data) =>
      if index < SLOTS && v[index].Some?
      then v[index := Some(v[index].value.(content := Splice(v[index].value.content, offset, data)))] else v
    case Format => NoNodes()
    case _ => v
  }

  /** A write that failed half-way: some bytes are the new ones. */
  ghost predicate Blurred(v: Nodes, slot: nat, offset: nat, data: seq<Byte>, v': Nodes)
  {
    && (forall i :: 0 <= i < SLOTS && i != slot ==> v'[i] == v[i])
    && (slot < SLOTS ==> BlurredNode(v[slot], offset, data, v'[slot]))
  }

  ghost predicate BlurredNode(n: Option<Node>, offset: nat, data: seq<Byte>, n': Option<Node>)
  {
    if n.None? then n'.None?
    else
      && n'.Some? && n'.value == n.value.(content := n'.value.content) && |n'.value.content| == |n.value.content|
      && (forall x :: 0 <= x < |n.value.content| ==>
          || n'.value.content[x] == n.value.content[x]
          || (offset <= x < offset + |data| && n'.value.content[x] == data[x - offset]))
  }

  /** The files that are seen, and those that a power cut would leave. */
  datatype Files = Files(seen: Nodes, kept: Nodes)

  function FilesOf(st: State): Files
  {
    Files(View(st.disk.sectors, st.entries), View(st.disk.stable, st.entries))
  }

  /** What a call on a mounted volume that stays mounted may do to the files. */
  ghost predicate Follows(f: Files, call: Call, ok: bool, f': Files)
  {
    match call
    case Write(slot, offset, data) =>
      if ok && data != [] then f' == Files(Apply(f.seen, call), Apply(f.seen, call))
      else if ok then f' == f
      else
        && Blurred(f.seen, slot, offset, data, f'.seen)
        && (f'.kept == f.kept || Blurred(f.seen, slot, offset, data, f'.kept))
    case Open(_) => f' == f
    case Close(_) => f' == f
    case Mount => f'.seen == f.seen && (f'.kept == f.kept || f'.kept == f.seen)
    case Reboot => f' == Files(f.kept, f.kept)
    case _ => if ok then f' == Files(Apply(f.seen, call), Apply(f.seen, call)) else f' == f
  }

  // ---------------------------------------------------------------- one call

  lemma {:induction false} FirstFreeIsNone(img: seq<seq<Byte>>, t: Table, i: nat)
    requires i <= SLOTS
    ensures FirstNone(View(img, t), i) == FirstFree(t, i)
    decreases SLOTS - i
  {
    if i < SLOTS && t[i].used != 0 {
      FirstFreeIsNone(img, t, i + 1);
    }
  }

  /** A slot whose entry and sectors are not changed is seen as before. */
  lemma NodeFrame(d: Disk, d': Disk, t: Table, t': Table, lbas: set<nat>, i: nat)
    requires i < SLOTS && TableOk(t) && Touched(d, d', lbas) && lbas !! SlotSectors(i) && t'[i] == t[i]
    ensures NodeAt(d'.sectors, t', i) == NodeAt(d.sectors, t, i)
  {
    if t[i].used != 0 {
      ContentFrame(d, d', lbas, i, t[i].length as nat);
    }
  }

  /** Writing the table leaves the other slots as they are seen. */
  lemma StoresView(st: State, sb: Superblock, index: nat, e: Entry, st': State)
    requires TableOk(st.entries) && index < SLOTS && |e.name| == NAME_SIZE &&
             Stores(st, sb, st.entries[index := e], true, st')
    ensures View(st'.disk.sectors, st'.entries) ==
            View(st.disk.sectors, st.entries)[index := NodeAt(st'.disk.sectors, st'.entries, index)]
  {
    forall i | 0 <= i < SLOTS && i != index
      ensures NodeAt(st'.disk.sectors, st'.entries, i) == NodeAt(st.disk.sectors, st.entries, i)
    {
      SlotsApart(i, i + 1);
      NodeFrame(st.disk, st'.disk, st.entries, st'.entries, METADATA, i);
    }
  }

  lemma NewNode(img: seq<seq<Byte>>, t: Table, i: nat, parent: Byte, name: seq<Byte>, kind: Byte)
    requires i < SLOTS && |Text(name)| <= NAME_SIZE && t[i] == NewEntry(parent, name, kind)
    ensures NodeAt(img, t, i) == Some(Node(kind, parent, Text(name), []))
  {
    TextHasNoZero(name);
    PaddedText(Text(name), NAME_SIZE - |Text(name)|);
    assert Content(img, i, 0) == [];
  }

  lemma CreatesRefines(st: State, parent: Byte, name: seq<Byte>, kind: Byte, st': State)
    requires Inv(st) && st.mounted && Creates(st, parent, name, kind, true, st')
    ensures View(st'.disk.sectors, st'.entries) == Apply(View(st.disk.sectors, st.entries), Create(parent, name, kind))
    ensures st'.disk.stable == st'.disk.sectors
  {
    var i := FirstFree(st.entries, 0);
    FirstFreeIsNone(st.disk.sectors, st.entries, 0);
    StoresView(st, Bumped(st.sb), i, NewEntry(parent, name, kind), st');
    NewNode(st'.disk.sectors, st'.entries, i, parent, name, kind);
  }

  lemma RemovesRefines(st: State, index: nat, kind: Byte, st': State)
    requires Inv(st) && st.mounted && Removes(st, index, kind, true, st')
    ensures View(st'.disk.sectors, st'.entries) == Apply(View(st.disk.sectors, st.entries), Remove(index, kind))
    ensures st'.disk.stable == st'.disk.sectors
  {
    StoresView(st, Bumped(st.sb), index, UNUSED, st');
  }

  lemma AltersRefines(st: State, index: nat, offset: nat, data: seq<Byte>, st': State)
    requires Inv(st) && st.mounted && data != [] && Alters(st, index, offset, data, true, st')
    ensures View(st'.disk.sectors, st'.entries) == Apply(View(st.disk.sectors, st.entries), Write(index, offset, data))
    ensures st'.disk.stable == st'.disk.sectors
  {
    forall i | 0 <= i < SLOTS && i != index
      ensures NodeAt(st'.disk.sectors, st'.entries, i) == NodeAt(st.disk.sectors, st.entries, i)
    {
      SlotsApart(i, index);
      NodeFrame(st.disk, st'.disk, st.entries, st'.entries, SlotSectors(index) + METADATA, i);
    }
    var v, v' := View(st.disk.sectors, st.entries), View(st'.disk.sectors, st'.entries);
    assert v[index] == NodeAt(st.disk.sectors, st.entries, index) &&
      v'[index] == NodeAt(st'.disk.sectors, st'.entries, index);
  }

  /** Sectors that differ only in a half-written file show it blurred and the others as they are. */
  lemma DirtyIsBlurred(img: seq<seq<Byte>>, t: Table, index: nat, offset: nat, data: seq<Byte>, img': seq<seq<Byte>>)
    requires TableOk(t) && index < SLOTS && t[index].used != 0 &&
             Dirty(img, index, t[index].length as nat, offset, data, img')
    ensures Blurred(View(img, t), index, offset, data, View(img', t))
  {
    forall i | 0 <= i < SLOTS && i != index && t[i].used != 0
      ensures Content(img', i, t[i].length as nat) == Content(img, i, t[i].length as nat)
    {
      SlotsApart(i, index);
      DirtyElsewhere(img, index, t[index].length as nat, offset, data, img', i, t[i].length as nat);
    }
    var n, n' := NodeAt(img, t, index), NodeAt(img', t, index);
    assert View(img, t)[index] == n && View(img', t)[index] == n';
    assert BlurredNode(n, offset, data, n');
  }

  lemma DirtyElsewhere(img: seq<seq<Byte>>, index: nat, length: nat, offset: nat, data: seq<Byte>, img': seq<seq<Byte>>,
                       i: nat, size: nat)
    requires Dirty(img, index, length, offset, data, img') && SlotSectors(i) !! SlotSectors(index) && size <= MAX_SIZE
    ensures Content(img', i, size) == Content(img, i, size)
  {
    forall x: nat | x < size
      ensures ByteAt(img', i, x) == ByteAt(img, i, x)
    {
      assert SlotLba(i) + x / SECTOR in SlotSectors(i);
    }
  }

  lemma AltersFollows(st: State, index: nat, offset: nat, data: seq<Byte>, ok: bool, st': State)
    requires Inv(st) && st.mounted && st'.mounted && Alters(st, index, offset, data, ok, st')
    ensures Follows(FilesOf(st), Write(index, offset, data), ok, FilesOf(st'))
  {
    if ok && data != [] {
      AltersRefines(st, index, offset, data, st');
    } else if st' == st {
      SameIsBlurred(View(st.disk.sectors, st.entries), index, offset, data);
    } else {
      DirtyIsBlurred(st.disk.sectors, st.entries, index, offset, data, st'.disk.sectors);
      if st'.disk.stable != st.disk.stable {
        DirtyIsBlurred(st.disk.sectors, st.entries, index, offset, data, st'.disk.stable);
      }
    }
  }

  lemma SameIsBlurred(v: Nodes, slot: nat, offset: nat, data: seq<Byte>)
    ensures Blurred(v, slot, offset, data, v)
  {
    assert slot < SLOTS ==> BlurredNode(v[slot], offset, data, v[slot]);
  }

  lemma FormatsRefines(st: State, st': State)
    requires Formats(st, true, st')
    ensures FilesOf(st') == Files(NoNodes(), NoNodes())
  {
    assert View(st'.disk.sectors, st'.entries) == NoNodes();
  }

  /** Every call on a mounted volume that leaves it mounted does to the files what Follows says. */
  lemma NextFollows(st: State, call: Call, ok: bool, st': State)
    requires Inv(st) && Durable(st) && st.mounted && st'.mounted && Next(st, call, ok, st')
    ensures Follows(FilesOf(st), call, ok, FilesOf(st'))
  {
    match call
    case Create(parent, name, kind) => if ok { CreatesRefines(st, parent, name, kind, st'); }
    case Remove(index, kind) => if ok { RemovesRefines(st, index, kind, st'); }
    case Write(index, offset, data) => AltersFollows(st, index, offset, data, ok, st');
    case Open(i) =>
    case Close(i) =>
    case Mount =>
      var read :| Mounts(st, read, ok, st');
      MountsKeepsInv(st, read, ok, st');
    case Format => if ok { FormatsRefines(st, st'); }
    case Reboot =>
      var read :| Reboots(st, read, ok, st');
      RebootsKeepsInv(st, read, ok, st');
  }

  // ---------------------------------------------------------------- runs

  ghost predicate IsRun(calls: seq<Call>, oks: seq<bool>, states: seq<State>)
  {
    && |states| == |calls| + 1 && |oks| == |calls| && Inv(states[0])
    && forall i :: 0 <= i < |calls| ==> Next(states[i], calls[i], oks[i], states[i + 1])
  }

  lemma {:induction false} RunKeepsInv(calls: seq<Call>, oks: seq<bool>, states: seq<State>, i: nat)
    requires IsRun(calls, oks, states) && i <= |calls|
    ensures Inv(states[i])
  {
    if i > 0 {
      RunKeepsInv(calls, oks, states, i - 1);
      NextKeepsInv(states[i - 1], calls[i - 1], oks[i - 1], states[i]);
    }
  }

  /** In every run, transfers failing at will: mounting a mounted volume again, with nothing open and
      a drive that delivers, succeeds and finds the same table, generation and files. */
  lemma RemountReproduces(calls: seq<Call>, oks: seq<bool>, states: seq<State>, i: nat, ok: bool, st': State)
    requires IsRun(calls, oks, states) && i <= |calls| && states[i].mounted
    requires states[i].available && NoneOpen(states[i].refs) && Mounts(states[i], true, ok, st')
    ensures ok && st'.entries == states[i].entries && st'.sb == states[i].sb &&
            FilesOf(st').seen == FilesOf(states[i]).seen
  {
    RunKeepsInv(calls, oks, states, i);
    MountsKeepsInv(states[i], true, ok, st');
  }

  /** In a run that starts durable and mounts only mounted volumes, nothing of a table is lost to a
      power cut. */
  lemma {:induction false} RunIsDurable(calls: seq<Call>, oks: seq<bool>, states: seq<State>, i: nat)
    requires IsRun(calls, oks, states) && i <= |calls| && Durable(states[0])
    requires forall k :: 0 <= k < i ==> calls[k] != Mount || states[k].mounted
    ensures Durable(states[i])
  {
    if i > 0 {
      RunIsDurable(calls, oks, states, i - 1);
      RunKeepsInv(calls, oks, states, i - 1);
      NextKeepsInv(states[i - 1], calls[i - 1], oks[i - 1], states[i]);
    }
  }

  /** A run on a volume that has just been formatted and then stays mounted: calls may be refused
      and transfers of data may fail. */
  ghost predicate StaysMounted(calls: seq<Call>, oks: seq<bool>, states: seq<State>)
  {
    && IsRun(calls, oks, states) && calls != [] && calls[0] == Format && oks[0]
    && forall k :: 1 <= k < |states| ==> states[k].mounted
  }

  lemma FormatStarts(st: State, st': State)
    requires Inv(st) && Next(st, Format, true, st')
    ensures Inv(st') && Durable(st') && FilesOf(st') == Files(NoNodes(), NoNodes())
  {
    FormatsKeepsInv(st, true, st');
    FormatsRefines(st, st');
  }

  lemma {:induction false} MountedIsDurable(calls: seq<Call>, oks: seq<bool>, states: seq<State>, i: nat)
    requires StaysMounted(calls, oks, states) && 1 <= i <= |calls|
    ensures Inv(states[i]) && Durable(states[i])
  {
    RunKeepsInv(calls, oks, states, i - 1);
    if i == 1 {
      FormatStarts(states[0], states[1]);
    } else {
      MountedIsDurable(calls, oks, states, i - 1);
      NextKeepsInv(states[i - 1], calls[i - 1], oks[i - 1], states[i]);
    }
  }

  ghost predicate Behaves(calls: seq<Call>, oks: seq<bool>, fs: seq<Files>)
  {
    && |fs| == |calls| + 1 && |oks| == |calls| && calls != [] && fs[1] == Files(NoNodes(), NoNodes())
    && forall i :: 1 <= i < |calls| ==> Follows(fs[i], calls[i], oks[i], fs[i + 1])
  }

  ghost function AllFiles(states: seq<State>): (fs: seq<Files>)
    ensures |fs| == |states| && forall i :: 0 <= i < |states| ==> fs[i] == FilesOf(states[i])
  {
    seq(|states|, i requires 0 <= i < |states| => FilesOf(states[i]))
  }

  /** Every such run is one of the table of sparse files, with refusals and half-written files. */
  lemma RunRefines(calls: seq<Call>, oks: seq<bool>, states: seq<State>)
    requires StaysMounted(calls, oks, states)
    ensures Behaves(calls, oks, AllFiles(states))
  {
    FormatStarts(states[0], states[1]);
    forall i | 1 <= i < |calls|
      ensures Follows(FilesOf(states[i]), calls[i], oks[i], FilesOf(states[i + 1]))
    {
      MountedIsDurable(calls, oks, states, i);
      NextFollows(states[i], calls[i], oks[i], states[i + 1]);
    }
  }

  // ---------------------------------------------------------------- where bytes come from

  predicate Wrote(call: Call, slot: nat, x: nat, b: Byte)
  {
    call.Write? && call.slot == slot && call.offset <= x < call.offset + |call.data| && call.data[x - call.offset] == b
  }

  /** The slot is in use from the k-th to the i-th state. */
  ghost predicate Owned(fs: seq<Files>, slot: nat, k: nat, i: nat)
    requires slot < SLOTS
  {
    i < |fs| && forall j :: k <= j <= i ==> fs[j].seen[slot].Some?
  }

  /** The byte is a zero, or a call wrote it there for the present owner of the slot. */
  ghost predicate Justified(calls: seq<Call>, fs: seq<Files>, i: nat, slot: nat, x: nat, b: Byte)
    requires slot < SLOTS
  {
    b == 0 || exists k :: 1 <= k < i && k < |calls| && Wrote(calls[k], slot, x, b) && Owned(fs, slot, k, i)
  }

  ghost predicate NodeJustified(calls: seq<Call>, fs: seq<Files>, i: nat, slot: nat, n: Option<Node>)
    requires slot < SLOTS
  {
    n.Some? ==> forall x :: 0 <= x < |n.value.content| ==> Justified(calls, fs, i, slot, x, n.value.content[x])
  }

  ghost predicate AllJustified(calls: seq<Call>, fs: seq<Files>, i: nat, v: Nodes)
  {
    forall slot :: 0 <= slot < SLOTS ==> NodeJustified(calls, fs, i, slot, v[slot])
  }

  /** Seen and kept files are the same slots. */
  ghost predicate Alike(f: Files)
  {
    forall i :: 0 <= i < SLOTS ==> (f.seen[i].Some? <==> f.kept[i].Some?)
  }

  lemma JustifiedOn(calls: seq<Call>, fs: seq<Files>, i: nat, slot: nat, x: nat, b: Byte)
    requires slot < SLOTS && i + 1 < |fs| && Justified(calls, fs, i, slot, x, b) && fs[i + 1].seen[slot].Some?
    ensures Justified(calls, fs, i + 1, slot, x, b)
  {
    if b != 0 {
      var k :| 1 <= k < i && k < |calls| && Wrote(calls[k], slot, x, b) && Owned(fs, slot, k, i);
      assert Owned(fs, slot, k, i + 1);
    }
  }

  lemma JustifiedNow(calls: seq<Call>, fs: seq<Files>, i: nat, slot: nat, x: nat, b: Byte)
    requires slot < SLOTS && 1 <= i < |calls| && i + 1 < |fs| && Wrote(calls[i], slot, x, b)
    requires fs[i].seen[slot].Some? && fs[i + 1].seen[slot].Some?
    ensures Justified(calls, fs, i + 1, slot, x, b)
  {
    assert Owned(fs, slot, i, i + 1);
  }

  lemma KeptJustified(calls: seq<Call>, fs: seq<Files>, i: nat, slot: nat, n: Option<Node>)
    requires slot < SLOTS && i + 1 < |fs| && NodeJustified(calls, fs, i, slot, n) &&
             (n.Some? ==> fs[i + 1].seen[slot].Some?)
    ensures NodeJustified(calls, fs, i + 1, slot, n)
  {
    if n.Some? {
      forall x | 0 <= x < |n.value.content|
        ensures Justified(calls, fs, i + 1, slot, x, n.value.content[x])
      {
        JustifiedOn(calls, fs, i, slot, x, n.value.content[x]);
      }
    }
  }

  lemma BlurJustified(calls: seq<Call>, fs: seq<Files>, i: nat, slot: nat, n: Option<Node>, n': Option<Node>)
    requires slot < SLOTS && 1 <= i < |calls| && i + 1 < |fs| && calls[i].Write? && calls[i].slot == slot
    requires NodeJustified(calls, fs, i, slot, n) && BlurredNode(n, calls[i].offset, calls[i].data, n')
    requires n.Some? ==> fs[i].seen[slot].Some? && fs[i + 1].seen[slot].Some?
    ensures NodeJustified(calls, fs, i + 1, slot, n')
  {
    if n.Some? {
      forall x | 0 <= x < |n'.value.content|
        ensures Justified(calls, fs, i + 1, slot, x, n'.value.content[x])
      {
        if n'.value.content[x] == n.value.content[x] {
          JustifiedOn(calls, fs, i, slot, x, n.value.content[x]);
        } else {
          JustifiedNow(calls, fs, i, slot, x, n'.value.content[x]);
        }
      }
    }
  }

  lemma SpliceJustified(calls: seq<Call>, fs: seq<Files>, i: nat, slot: nat, n: Node)
    requires slot < SLOTS && 1 <= i < |calls| && i + 1 < |fs| && calls[i].Write? && calls[i].slot == slot &&
             calls[i].data != []
    requires NodeJustified(calls, fs, i, slot, Some(n)) && fs[i].seen[slot].Some? && fs[i + 1].seen[slot].Some?
    ensures NodeJustified(calls, fs, i + 1, slot,
            Some(n.(content := Splice(n.content, calls[i].offset, calls[i].data))))
  {
    var file := Splice(n.content, calls[i].offset, calls[i].data);
    forall x: nat | x < |file|
      ensures Justified(calls, fs, i + 1, slot, x, file[x])
    {
      SpliceAt(n.content, calls[i].offset, calls[i].data, x);
      if calls[i].offset <= x < calls[i].offset + |calls[i].data| {
        JustifiedNow(calls, fs, i, slot, x, file[x]);
      } else if x < |n.content| {
        JustifiedOn(calls, fs, i, slot, x, file[x]);
      }
    }
  }

  /** What is in the slot was there before or is empty. */
  ghost predicate FromBefore(f: Files, slot: nat, n: Option<Node>)
    requires slot < SLOTS
  {
    n == f.seen[slot] || n == f.kept[slot] || (n.Some? && n.value.content == [])
  }

  lemma OtherStep(f: Files, call: Call, ok: bool, f': Files, slot: nat)
    requires Follows(f, call, ok, f') && Alike(f) && slot < SLOTS &&
             !(call.Write? && call.slot == slot && call.data != [])
    ensures f'.seen[slot].Some? <==> f'.kept[slot].Some?
    ensures f'.seen[slot].Some? ==> FromBefore(f, slot, f'.seen[slot]) && FromBefore(f, slot, f'.kept[slot])
  {
    if call.Write? && call.slot == slot && !ok {
      NoBlur(f.seen[slot], call.offset, f'.seen[slot]);
      if f'.kept != f.kept {
        NoBlur(f.seen[slot], call.offset, f'.kept[slot]);
      }
    }
  }

  lemma NoBlur(n: Option<Node>, offset: nat, n': Option<Node>)
    requires BlurredNode(n, offset, [], n')
    ensures n' == n
  {
    if n.Some? {
      assert n'.value.content == n.value.content;
    }
  }

  /** The bytes of one slot after one call. */
  lemma StepJustified(calls: seq<Call>, oks: seq<bool>, fs: seq<Files>, i: nat, slot: nat)
    requires Behaves(calls, oks, fs) && 1 <= i < |calls| && slot < SLOTS && Alike(fs[i])
    requires NodeJustified(calls, fs, i, slot, fs[i].seen[slot]) && NodeJustified(calls, fs, i, slot, fs[i].kept[slot])
    ensures NodeJustified(calls, fs, i + 1, slot, fs[i + 1].seen[slot])
    ensures NodeJustified(calls, fs, i + 1, slot, fs[i + 1].kept[slot])
    ensures fs[i + 1].seen[slot].Some? <==> fs[i + 1].kept[slot].Some?
  {
    var f, f', call := fs[i], fs[i + 1], calls[i];
    assert Follows(f, call, oks[i], f');
    if call.Write? && call.slot == slot && call.data != [] {
      if !oks[i] {
        BlurJustified(calls, fs, i, slot, f.seen[slot], f'.seen[slot]);
        if f'.kept == f.kept {
          KeptJustified(calls, fs, i, slot, f.kept[slot]);
        } else {
          BlurJustified(calls, fs, i, slot, f.seen[slot], f'.kept[slot]);
        }
      } else if f.seen[slot].Some? {
        SpliceJustified(calls, fs, i, slot, f.seen[slot].value);
      }
    } else {
      OtherStep(f, call, oks[i], f', slot);
      if f'.seen[slot].Some? {
        KeptJustified(calls, fs, i, slot, f.seen[slot]);
        KeptJustified(calls, fs, i, slot, f.kept[slot]);
      }
    }
  }

  lemma {:induction false} BytesJustified(calls: seq<Call>, oks: seq<bool>, fs: seq<Files>, i: nat)
    requires Behaves(calls, oks, fs) && 1 <= i <= |calls|
    ensures AllJustified(calls, fs, i, fs[i].seen) && AllJustified(calls, fs, i, fs[i].kept) && Alike(fs[i])
  {
    if i > 1 {
      BytesJustified(calls, oks, fs, i - 1);
      forall slot | 0 <= slot < SLOTS
        ensures NodeJustified(calls, fs, i, slot, fs[i].seen[slot]) &&
                NodeJustified(calls, fs, i, slot, fs[i].kept[slot])
        ensures fs[i].seen[slot].Some? <==> fs[i].kept[slot].Some?
      {
        StepJustified(calls, oks, fs, i - 1, slot);
      }
    }
  }

  /** So the bytes of a former owner of a slot never show: in every run on a formatted volume that
      stays mounted, with calls refused, transfers of data failing and power cuts, every byte of every
      file is zero or was written at that place since the slot has been in use. */
  lemma FormerBytesNeverShow(calls: seq<Call>, oks: seq<bool>, states: seq<State>, i: nat, slot: nat, x: nat)
    requires StaysMounted(calls, oks, states) && 1 <= i <= |calls| && slot < SLOTS
    requires var n := NodeAt(states[i].disk.sectors, states[i].entries, slot); n.Some? && x < |n.value.content|
    ensures var b := NodeAt(states[i].disk.sectors, states[i].entries, slot).value.content[x];
            Justified(calls, AllFiles(states), i, slot, x, b)
  {
    var fs := AllFiles(states);
    RunRefines(calls, oks, states);
    BytesJustified(calls, oks, fs, i);
    assert NodeJustified(calls, fs, i, slot, fs[i].seen[slot]);
  }

  // ---------------------------------------------------------------- runs without failures

  /** The files after those of these calls that succeed. */
  function Replay(calls: seq<Call>, oks: seq<bool>, i: nat): Nodes
    requires |oks| == |calls| && i <= |calls|
  {
    if i <= 1 then NoNodes()
    else if oks[i - 1] then Apply(Replay(calls, oks, i - 1), calls[i - 1]) else Replay(calls, oks, i - 1)
  }

  lemma ReplayStep(f: Files, call: Call, ok: bool, f': Files)
    requires Follows(f, call, ok, f') && f.kept == f.seen && (ok || f' == f)
    ensures f' == if ok then Files(Apply(f.seen, call), Apply(f.seen, call)) else f
  {
    if call.Write? && ok && call.data == [] && call.slot < SLOTS && f.seen[call.slot].Some? {
      assert Apply(f.seen, call) == f.seen;
    }
  }

  /** If every call succeeds or changes nothing, the files are exactly those that the successful calls
      made, whatever the drive held before. */
  lemma {:induction false} RunReplays(calls: seq<Call>, oks: seq<bool>, states: seq<State>, i: nat)
    requires StaysMounted(calls, oks, states) && 1 <= i <= |calls|
    requires forall k :: 1 <= k < i ==> oks[k] || states[k + 1] == states[k]
    ensures FilesOf(states[i]) == Files(Replay(calls, oks, i), Replay(calls, oks, i))
  {
    RunRefines(calls, oks, states);
    var fs := AllFiles(states);
    assert fs[i] == FilesOf(states[i]);
    if i > 1 {
      RunReplays(calls, oks, states, i - 1);
      assert Follows(fs[i - 1], calls[i - 1], oks[i - 1], fs[i]);
      ReplayStep(FilesOf(states[i - 1]), calls[i - 1], oks[i - 1], FilesOf(states[i]));
    }
  }

  /** A refused call changes nothing: only a write can fail on a volume that stays mounted. */
  lemma RefusedChangesNothing(st: State, call: Call, st': State)
    requires Next(st, call, false, st') && st.mounted && st'.mounted
    requires call.Write? ==> !MayWrite(st.entries, call.slot, call.offset, |call.data|)
    ensures st' == st
  {
  }
}
