/** The directory table of DiskFS (diskfs.c): sixteen slots, each a file or a directory below the
    root or below another slot. What the validators accept, and that creating, removing and
    resizing entries keeps it. */
module DiskTable {
  import opened Common

  newtype Long = x: int | 0 <= x < 0x1_0000_0000

  const SLOTS := 16
  const NAME_SIZE := 32
  const MAX_SIZE := 2048
  const FILE: Byte := 1
  const DIRECTORY: Byte := 2
  const ROOT: Byte := 0xFF
  const SLASH: Byte := 47

  datatype Entry = Entry(used: Byte, kind: Byte, parent: Byte, reserved: Byte, name: seq<Byte>, length: Long)

  type Table = t: seq<Entry> | |t| == SLOTS && (forall i :: 0 <= i < SLOTS ==> |t[i].name| == NAME_SIZE)
    witness EmptyTable()

  const UNUSED := Entry(0, 0, 0, 0, Zeros(NAME_SIZE), 0)

  function EmptyTable(): (t: seq<Entry>)
    ensures |t| == SLOTS && forall i :: 0 <= i < SLOTS ==> t[i] == UNUSED
  {
    seq(SLOTS, _ => UNUSED)
  }

  // ---------------------------------------------------------------- names

  /** The C string that starts here. */
  function Text(bytes: seq<Byte>): seq<Byte>
  {
    if bytes == [] || bytes[0] == 0 then [] else [bytes[0]] + Text(bytes[1..])
  }

  /** A name fits its field with its terminator, and is not empty and not a path. */
  predicate NameOk(name: seq<Byte>)
  {
    0 < |Text(name)| < NAME_SIZE && SLASH !in Text(name)
  }

  lemma {:induction false} TextStarts(bytes: seq<Byte>, k: nat)
    requires k <= |bytes| && forall i :: 0 <= i < k ==> bytes[i] != 0
    ensures |Text(bytes)| >= k && Text(bytes)[..k] == bytes[..k]
    ensures k == |bytes| || bytes[k] == 0 ==> Text(bytes) == bytes[..k]
  {
    if k > 0 {
      TextStarts(bytes[1..], k - 1);
      assert bytes[..k] == [bytes[0]] + bytes[1..][..k - 1];
    }
  }

  /** A name copied into a cleared field reads back. */
  lemma PaddedText(text: seq<Byte>, n: nat)
    requires 0 !in text
    ensures Text(text + Zeros(n)) == text
  {
    TextStarts(text + Zeros(n), |text|);
    assert (text + Zeros(n))[..|text|] == text;
  }

  lemma {:induction false} TextHasNoZero(bytes: seq<Byte>)
    ensures 0 !in Text(bytes)
  {
    if bytes != [] && bytes[0] != 0 {
      TextHasNoZero(bytes[1..]);
    }
  }

  /** diskfs_name_valid. */
  method NameValid(name: seq<Byte>) returns (ok: bool)
    requires |name| >= NAME_SIZE || 0 in name
    ensures ok <==> NameOk(name)
  {
    var length := 0;
    while length < NAME_SIZE
      invariant 0 <= length <= NAME_SIZE && length <= |name|
      invariant forall i :: 0 <= i < length ==> name[i] != 0 && name[i] != SLASH
    {
      TextStarts(name, length);
      if name[length] == 0 {
        return length > 0;
      }
      if name[length] == SLASH {
        TextStarts(name, length + 1);
        assert Text(name)[..length + 1][length] == SLASH;
        return false;
      }
      length := length + 1;
    }
    TextStarts(name, length);
    return false;
  }

  // ---------------------------------------------------------------- parents

  predicate IsUsed(t: Table, i: nat)
  {
    i < SLOTS && t[i].used != 0
  }

  predicate IsDirectory(t: Table, i: nat)
  {
    IsUsed(t, i) && t[i].kind == DIRECTORY
  }

  /** `path` lists the directories from the one named by `parent` up to a child of the root. */
  ghost predicate Leads(t: Table, parent: Byte, path: seq<nat>)
    decreases path
  {
    if path == [] then parent == ROOT
    else parent as nat == path[0] && IsDirectory(t, path[0]) && Leads(t, t[path[0]].parent, path[1..])
  }

  /** The slot's ancestors are directories up to the root, and it is not its own ancestor. */
  ghost predicate Rooted(t: Table, index: nat)
    requires index < SLOTS
  {
    exists path :: Leads(t, t[index].parent, path) && index !in path
  }

  lemma {:induction false} LeadsOneWay(t: Table, parent: Byte, a: seq<nat>, b: seq<nat>)
    requires Leads(t, parent, a) && Leads(t, parent, b)
    ensures a == b
    decreases a
  {
    if a != [] && b != [] {
      LeadsOneWay(t, t[a[0]].parent, a[1..], b[1..]);
      assert a == [a[0]] + a[1..] && b == [b[0]] + b[1..];
    }
  }

  lemma {:induction false} LeadsFrom(t: Table, parent: Byte, path: seq<nat>, k: nat)
    requires Leads(t, parent, path) && k < |path|
    ensures IsDirectory(t, path[k]) && Leads(t, t[path[k]].parent, path[k + 1..])
    ensures if k == 0 then parent as nat == path[0]
            else IsUsed(t, path[k - 1]) && t[path[k - 1]].parent as nat == path[k]
    decreases path
  {
    if k > 0 {
      LeadsFrom(t, t[path[0]].parent, path[1..], k - 1);
      assert path[k + 1..] == path[1..][k..];
    }
  }

  /** No directory occurs twice on the way to the root. */
  lemma ParentsAreAcyclic(t: Table, parent: Byte, path: seq<nat>, i: nat, j: nat)
    requires Leads(t, parent, path) && i < j < |path|
    ensures path[i] != path[j]
  {
    LeadsFrom(t, parent, path, i);
    LeadsFrom(t, parent, path, j);
    if path[i] == path[j] {
      LeadsOneWay(t, t[path[i]].parent, path[i + 1..], path[j + 1..]);
    }
  }

  /** A way to the root that avoids the slot is shorter than the table. */
  lemma WayIsShort(t: Table, parent: Byte, path: seq<nat>, index: nat)
    requires Leads(t, parent, path) && index < SLOTS && index !in path
    ensures |path| < SLOTS
  {
    var all := path + [index];
    forall i, j | 0 <= i < j < |all|
      ensures all[i] != all[j]
    {
      if j < |path| {
        ParentsAreAcyclic(t, parent, path, i, j);
      }
    }
    forall i | 0 <= i < |path|
      ensures path[i] < SLOTS
    {
      LeadsFrom(t, parent, path, i);
    }
    BoundedDistinct(all, SLOTS);
  }

  /** A way of fewer than n steps that avoids the slot. */
  ghost predicate Climbs(t: Table, index: nat, parent: Byte, n: nat)
  {
    exists path :: Leads(t, parent, path) && index !in path && |path| < n
  }

  lemma ClimbStep(t: Table, index: nat, parent: Byte, n: nat)
    requires n > 0 && parent != ROOT
    ensures Climbs(t, index, parent, n) <==>
      IsDirectory(t, parent as nat) && parent as nat != index && Climbs(t, index, t[parent].parent, n - 1)
  {
    if path :| Leads(t, parent, path) && index !in path && |path| < n {
      assert Leads(t, t[parent].parent, path[1..]);
    }
    if IsDirectory(t, parent as nat) && parent as nat != index && Climbs(t, index, t[parent].parent, n - 1) {
      var rest :| Leads(t, t[parent].parent, rest) && index !in rest && |rest| < n - 1;
      var path := [parent as nat] + rest;
      assert path[1..] == rest;
      assert Leads(t, parent, path);
    }
  }

  lemma ClimbEnd(t: Table, index: nat, parent: Byte, n: nat)
    ensures parent == ROOT && n > 0 ==> Climbs(t, index, parent, n)
    ensures n == 0 ==> !Climbs(t, index, parent, n)
  {
    if parent == ROOT && n > 0 {
      assert Leads(t, parent, []);
    }
  }

  /** diskfs_parent_chain_valid: the step bound loses no chain. */
  method ParentChainValid(t: Table, index: nat) returns (ok: bool)
    requires index < SLOTS
    ensures ok <==> Rooted(t, index)
  {
    BoundIsEnough(t, index);
    var parent := t[index].parent;
    var depth := 0;
    while depth < SLOTS
      invariant 0 <= depth <= SLOTS
      invariant Climbs(t, index, t[index].parent, SLOTS) <==> Climbs(t, index, parent, SLOTS - depth)
    {
      ClimbEnd(t, index, parent, SLOTS - depth);
      if parent == ROOT {
        return true;
      }
      ClimbStep(t, index, parent, SLOTS - depth);
      if parent as nat >= SLOTS || parent as nat == index || t[parent].used == 0 || t[parent].kind != DIRECTORY {
        return false;
      }
      parent := t[parent].parent;
      depth := depth + 1;
    }
    ClimbEnd(t, index, parent, 0);
    return false;
  }

  lemma BoundIsEnough(t: Table, index: nat)
    requires index < SLOTS
    ensures Rooted(t, index) <==> Climbs(t, index, t[index].parent, SLOTS)
  {
    if path :| Leads(t, t[index].parent, path) && index !in path {
      WayIsShort(t, t[index].parent, path, index);
    }
  }

  // ---------------------------------------------------------------- valid tables

  predicate EntryOk(e: Entry)
  {
    && e.used == 1 && NameOk(e.name)
    && (e.kind == FILE || e.kind == DIRECTORY)
    && (e.kind == FILE ==> e.length as nat <= MAX_SIZE)
    && (e.kind == DIRECTORY ==> e.length == 0)
  }

  predicate Named(e: Entry, parent: Byte, name: seq<Byte>)
  {
    e.used != 0 && e.parent == parent && Text(e.name) == Text(name)
  }

  ghost predicate Apart(t: Table, i: nat, j: nat)
    requires i < SLOTS && j < SLOTS
  {
    t[i].used != 0 ==> !Named(t[j], t[i].parent, t[i].name)
  }

  /** Every entry is well formed and hangs below the root, and siblings have different names. */
  ghost predicate TableOk(t: Table)
  {
    && (forall i :: 0 <= i < SLOTS && t[i].used != 0 ==> EntryOk(t[i]) && Rooted(t, i))
    && (forall i, j :: 0 <= i < j < SLOTS ==> Apart(t, i, j))
  }

  /** diskfs_entries_valid. */
  method EntriesValid(t: Table) returns (ok: bool)
    ensures ok <==> TableOk(t)
  {
    var i := 0;
    while i < SLOTS
      invariant 0 <= i <= SLOTS
      invariant forall k :: 0 <= k < i && t[k].used != 0 ==> EntryOk(t[k]) && Rooted(t, k)
      invariant forall k, j :: 0 <= k < i && k < j < SLOTS ==> Apart(t, k, j)
    {
      if t[i].used != 0 {
        ok := SlotValid(t, i);
        if !ok {
          return;
        }
        ok := NameUnique(t, i);
        if !ok {
          return;
        }
      }
      i := i + 1;
    }
    return true;
  }

  /** What diskfs_entries_valid asks of one entry by itself. */
  method SlotValid(t: Table, i: nat) returns (ok: bool)
    requires i < SLOTS
    ensures ok <==> EntryOk(t[i]) && Rooted(t, i)
  {
    var e := t[i];
    var named := NameValid(e.name);
    if e.used != 1 || !named || (e.kind != FILE && e.kind != DIRECTORY) ||
      (e.kind == FILE && e.length as nat > MAX_SIZE) ||
       (e.kind == DIRECTORY && e.length != 0) {
      return false;
    }
    ok := ParentChainValid(t, i);
  }

  /** The inner loop of diskfs_entries_valid. */
  method NameUnique(t: Table, i: nat) returns (ok: bool)
    requires i < SLOTS && t[i].used != 0
    ensures ok <==> forall j :: i < j < SLOTS ==> Apart(t, i, j)
  {
    var j := i + 1;
    while j < SLOTS
      invariant i < j <= SLOTS
      invariant forall k :: i < k < j ==> Apart(t, i, k)
    {
      if Named(t[j], t[i].parent, t[i].name) {
        assert !Apart(t, i, j);
        return false;
      }
      j := j + 1;
    }
    return true;
  }

  // ---------------------------------------------------------------- changes

  /** diskfs_find_child: the first entry of that name, if the name can be one. */
  method FindChild(t: Table, parent: Byte, name: seq<Byte>) returns (r: Option<nat>)
    requires |name| >= NAME_SIZE || 0 in name
    ensures r.Some? ==> r.value < SLOTS && Named(t[r.value], parent, name) && NameOk(name)
    ensures r.Some? ==> forall i :: 0 <= i < r.value ==> !Named(t[i], parent, name)
    ensures r.None? && NameOk(name) ==> forall i :: 0 <= i < SLOTS ==> !Named(t[i], parent, name)
  {
    var ok := NameValid(name);
    if !ok {
      return None;
    }
    var i := 0;
    while i < SLOTS
      invariant 0 <= i <= SLOTS
      invariant forall k :: 0 <= k < i ==> !Named(t[k], parent, name)
    {
      if Named(t[i], parent, name) {
        return Some(i);
      }
      i := i + 1;
    }
    return None;
  }

  /** diskfs_entry_has_children. */
  method HasChildren(t: Table, index: nat) returns (ok: bool)
    ensures ok <==> exists i :: 0 <= i < SLOTS && ChildOf(t[i], index)
  {
    var i := 0;
    while i < SLOTS
      invariant 0 <= i <= SLOTS
      invariant forall k :: 0 <= k < i ==> !ChildOf(t[k], index)
    {
      if ChildOf(t[i], index) {
        return true;
      }
      i := i + 1;
    }
    return false;
  }

  predicate ChildOf(e: Entry, index: nat)
  {
    e.used != 0 && e.parent as nat == index
  }

  /** The entry a creation writes. */
  function NewEntry(parent: Byte, name: seq<Byte>, kind: Byte): (e: Entry)
    requires |Text(name)| <= NAME_SIZE
    ensures |e.name| == NAME_SIZE
  {
    Entry(1, kind, parent, 0, Text(name) + Zeros(NAME_SIZE - |Text(name)|), 0)
  }

  /** Entries may be put below this. */
  predicate ParentOk(t: Table, parent: Byte)
  {
    parent == ROOT || IsDirectory(t, parent as nat)
  }

  /** Slots off the way do not matter to it. */
  lemma {:induction false} LeadsFrame(t: Table, t': Table, parent: Byte, path: seq<nat>)
    requires Leads(t, parent, path)
    requires forall k :: 0 <= k < |path| && path[k] < SLOTS ==>
             t'[path[k]].used == t[path[k]].used && t'[path[k]].kind == t[path[k]].kind &&
               t'[path[k]].parent == t[path[k]].parent
    ensures Leads(t', parent, path)
    decreases path
  {
    if path != [] {
      LeadsFrame(t, t', t[path[0]].parent, path[1..]);
    }
  }

  /** A way to the root avoids a slot that is not a directory in use or has no children. */
  lemma WayAvoids(t: Table, parent: Byte, path: seq<nat>, index: nat)
    requires Leads(t, parent, path) && index < SLOTS && parent as nat != index
    requires !IsDirectory(t, index) || forall i :: 0 <= i < SLOTS ==> !ChildOf(t[i], index)
    ensures index !in path
  {
    forall k | 0 <= k < |path|
      ensures path[k] != index
    {
      LeadsFrom(t, parent, path, k);
      if k > 0 {
        assert ChildOf(t[path[k - 1]], path[k]);
      }
    }
  }

  /** A change to such a slot leaves the other slots below the root. */
  lemma RootedFrame(t: Table, t': Table, index: nat, i: nat)
    requires index < SLOTS && i < SLOTS && i != index && Rooted(t, i)
    requires t[i].parent as nat != index
    requires !IsDirectory(t, index) || forall k :: 0 <= k < SLOTS ==> !ChildOf(t[k], index)
    requires t' == t[index := t'[index]]
    ensures Rooted(t', i)
  {
    var path :| Leads(t, t[i].parent, path) && i !in path;
    WayAvoids(t, t[i].parent, path, index);
    LeadsFrame(t, t', t[i].parent, path);
  }

  /** In a valid table nothing hangs below a slot that is not a directory in use. */
  lemma NoOrphans(t: Table, index: nat, i: nat)
    requires index < SLOTS && !IsDirectory(t, index) && i < SLOTS && Rooted(t, i)
    ensures t[i].parent as nat != index
  {
    var path :| Leads(t, t[i].parent, path) && i !in path;
    assert path != [] ==> IsDirectory(t, path[0]);
  }

  /** The new entry hangs below its parent. */
  lemma NewIsRooted(t: Table, t': Table, index: nat, e: Entry)
    requires TableOk(t) && index < SLOTS && t[index].used == 0 && t' == t[index := e] && ParentOk(t, e.parent)
    ensures Rooted(t', index)
  {
    if e.parent == ROOT {
      assert Leads(t', t'[index].parent, []);
    } else {
      var p := e.parent as nat;
      var rest :| Leads(t, t[p].parent, rest) && p !in rest;
      var path := [p] + rest;
      assert path[1..] == rest;
      assert Leads(t, e.parent, path);
      WayAvoids(t, e.parent, path, index);
      LeadsFrame(t, t', e.parent, path);
    }
  }

  /** A good entry of a new name in a free slot keeps the table valid. */
  lemma AddKeepsValid(t: Table, index: nat, e: Entry, t': Table)
    requires TableOk(t) && index < SLOTS && t[index].used == 0 && EntryOk(e) && ParentOk(t, e.parent)
    requires forall i :: 0 <= i < SLOTS ==> !Named(t[i], e.parent, e.name)
    requires t' == t[index := e]
    ensures TableOk(t')
  {
    NewIsRooted(t, t', index, e);
    forall i | 0 <= i < SLOTS && i != index && t[i].used != 0
      ensures Rooted(t', i)
    {
      NoOrphans(t, index, i);
      RootedFrame(t, t', index, i);
    }
    forall i, j | 0 <= i < j < SLOTS
      ensures Apart(t', i, j)
    {
      assert Apart(t, i, j);
    }
  }

  /** diskfs_create_entry keeps the table valid. */
  lemma CreateKeepsValid(t: Table, index: nat, parent: Byte, name: seq<Byte>, kind: Byte, t': Table)
    requires TableOk(t) && index < SLOTS && t[index].used == 0 && NameOk(name) && (kind == FILE || kind == DIRECTORY)
    requires ParentOk(t, parent) && forall i :: 0 <= i < SLOTS ==> !Named(t[i], parent, name)
    requires t' == t[index := NewEntry(parent, name, kind)]
    ensures TableOk(t')
  {
    TextHasNoZero(name);
    PaddedText(Text(name), NAME_SIZE - |Text(name)|);
    AddKeepsValid(t, index, NewEntry(parent, name, kind), t');
  }

  /** diskfs_remove_entry keeps the table valid, whatever is left in the entry. */
  lemma RemoveKeepsValid(t: Table, index: nat, e: Entry, t': Table)
    requires TableOk(t) && IsUsed(t, index) && e.used == 0 && t' == t[index := e]
    requires t[index].kind == DIRECTORY ==> forall i :: 0 <= i < SLOTS ==> !ChildOf(t[i], index)
    ensures TableOk(t')
  {
    forall i | 0 <= i < SLOTS && i != index && t[i].used != 0
      ensures Rooted(t', i)
    {
      if t[index].kind != DIRECTORY {
        NoOrphans(t, index, i);
      }
      assert !ChildOf(t[i], index);
      RootedFrame(t, t', index, i);
    }
    forall i, j | 0 <= i < j < SLOTS
      ensures Apart(t', i, j)
    {
      assert Apart(t, i, j);
    }
  }

  /** A file of another permitted length keeps the table valid. */
  lemma ResizeKeepsValid(t: Table, index: nat, length: Long, t': Table)
    requires TableOk(t) && IsUsed(t, index) && t[index].kind == FILE && length as nat <= MAX_SIZE
    requires t' == t[index := t[index].(length := length)]
    ensures TableOk(t')
  {
    forall i | 0 <= i < SLOTS && t[i].used != 0
      ensures Rooted(t', i)
    {
      var path :| Leads(t, t[i].parent, path) && i !in path;
      LeadsFrame(t, t', t[i].parent, path);
    }
    forall i, j | 0 <= i < j < SLOTS
      ensures Apart(t', i, j)
    {
      assert Apart(t, i, j);
    }
  }
}
