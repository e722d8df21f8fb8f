/** The file operations of fat16.c over the root directory and the pool of nodes: create, find, open,
    close, read, write and unlink, against the files by directory entry that the volume stands for. */
module FatFiles {
  import opened Common
  import opened FatChains
  import opened FatImage
  import opened FatUpdates
  import opened FatWrite
  import opened FatNames
  import opened FatDirectory
  import opened Fat16

  const NODE_POOL := 16

  /** What each directory entry's file holds. */
  function Files(v: Volume, chains: seq<seq<nat>>): (r: seq<Option<seq<Byte>>>)
    ensures |r| == |v.dir|
    ensures forall e :: 0 <= e < |v.dir| && e < |chains| ==>
      r[e] == if v.dir[e].IsFile() then Some(Content(v, chains[e], v.dir[e].length)) else None
  {
    seq(|v.dir|, e requires 0 <= e < |v.dir| =>
      if e < |chains| && v.dir[e].IsFile() then Some(Content(v, chains[e], v.dir[e].length)) else None)
  }

  lemma WroteFiles(v: Volume, chains: seq<seq<nat>>, v': Volume, chains': seq<seq<nat>>, e: nat, offset: nat,
                   data: seq<Byte>)
    requires Wrote(v, chains, v', chains', e, offset, data) && v.dir[e].IsFile()
    ensures Files(v', chains') == Files(v, chains)[e := Some(Spliced(Files(v, chains)[e].value, offset, data))]
  {
  }

  lemma KeptFile(v: Volume, v': Volume, chains: seq<seq<nat>>, e: nat, length: nat)
    requires KeepsBytes(v, chains, v', chains) && v.bpc > 0 && e < |chains| && |chains[e]| == ClustersFor(length, v.bpc)
    ensures Content(v', chains[e], length) == Content(v, chains[e], length)
  {
    ClustersCover(length, v.bpc);
  }

  lemma SameFiles(v: Volume, v': Volume, chains: seq<seq<nat>>)
    requires |chains| == |v.dir| && v.bpc > 0 && Sized(v, chains) && NothingChanged(v, v', chains)
    ensures Files(v', chains) == Files(v, chains)
  {
    forall e | 0 <= e < |v.dir|
      ensures Files(v', chains)[e] == Files(v, chains)[e]
    {
      if v.dir[e].IsFile() {
        KeptFile(v, v', chains, e, v.dir[e].length);
      }
    }
  }

  // ---------------------------------------------------------------- deletion

  /** `v'` differs from `v` in the table and in directory entry e only. */
  ghost predicate EntryChanged(v: Volume, v': Volume, chains: seq<seq<nat>>, chains': seq<seq<nat>>, e: nat)
  {
    && v'.bpc == v.bpc && v'.data == v.data && |v'.dir| == |v.dir| == |chains| == |chains'|
    && forall a :: 0 <= a < |v.dir| && a != e ==> v'.dir[a] == v.dir[a] && chains'[a] == chains[a]
  }

  lemma SameBytes(v: Volume, v': Volume, ch: seq<nat>, length: nat)
    requires v'.bpc == v.bpc > 0 && v'.data == v.data
    ensures Content(v', ch, length) == Content(v, ch, length)
    ensures ZeroFrom(v, ch, length) ==> ZeroFrom(v', ch, length)
  {
    assert forall k: nat :: ByteAt(v', ch, k) == ByteAt(v, ch, k);
  }

  lemma OtherFiles(v: Volume, v': Volume, chains: seq<seq<nat>>, chains': seq<seq<nat>>, e: nat)
    requires EntryChanged(v, v', chains, chains', e) && e < |v.dir| && v.bpc > 0
    ensures Files(v', chains') == Files(v, chains)[e := Files(v', chains')[e]]
  {
    forall a | 0 <= a < |v.dir| && a != e
      ensures Files(v', chains')[a] == Files(v, chains)[a]
    {
      SameBytes(v, v', chains[a], v.dir[a].length);
    }
  }

  lemma OthersSized(v: Volume, v': Volume, chains: seq<seq<nat>>, chains': seq<seq<nat>>, e: nat)
    requires EntryChanged(v, v', chains, chains', e) && e < |v.dir| && v.bpc > 0 && Sized(v, chains)
    requires v'.dir[e].IsFile() ==> chains'[e] == [] && v'.dir[e].length == 0
    ensures Sized(v', chains')
  {
    forall a | 0 <= a < |v.dir| && v'.dir[a].IsFile() && a != e
      ensures |chains'[a]| == ClustersFor(v'.dir[a].length, v.bpc) && ZeroFrom(v', chains'[a], v'.dir[a].length)
    {
      SameBytes(v, v', chains[a], v.dir[a].length);
    }
  }

  lemma RemovedStructure(v: Volume, chains: seq<seq<nat>>, other: set<nat>, e: nat)
    requires Structure(v, chains, other) && e < |v.dir| && v.dir[e].IsFile()
    ensures Structure(Removed(v, e, chains[e]), chains[e := []], other)
  {
    var v' := Removed(v, e, chains[e]);
    assert Shape(v');
    assert forall i :: 0 <= i < |chains[e]| ==> chains[e][i] < |v.fat|;
    StructureDrop(v, v', chains, other, e, v'.dir[e]);
  }

  lemma RemovedKeepsWf(v: Volume, chains: seq<seq<nat>>, other: set<nat>, e: nat)
    requires Wf(v, chains, other) && e < |v.dir| && v.dir[e].IsFile()
    ensures Wf(Removed(v, e, chains[e]), chains[e := []], other)
    ensures Files(Removed(v, e, chains[e]), chains[e := []]) == Files(v, chains)[e := None]
  {
    var v' := Removed(v, e, chains[e]);
    RemovedStructure(v, chains, other, e);
    OthersSized(v, v', chains, chains[e := []], e);
    OtherFiles(v, v', chains, chains[e := []], e);
  }

  /** Freeing distinct clusters that were in use makes just as many more free. */
  lemma {:induction false} ZeroedFrees(fat: seq<nat>, ch: seq<nat>)
    requires Distinct(ch) && forall i :: 0 <= i < |ch| ==> 2 <= ch[i] < |fat| && fat[ch[i]] != 0
    ensures FreeCount(Zeroed(fat, ch)) == FreeCount(fat) + |ch|
    decreases |ch|
  {
    if ch == [] {
      assert Zeroed(fat, ch) == fat;
    } else {
      var k := |ch| - 1;
      assert ch[..k + 1] == ch;
      ZeroedFrees(fat, ch[..k]);
      ZeroedStep(fat, ch, k);
      FreeBelowUpdate(Zeroed(fat, ch[..k]), |fat|, ch[k], 0);
    }
  }

  /** Removing a file frees as many clusters as it had. */
  lemma RemovedFrees(v: Volume, chains: seq<seq<nat>>, other: set<nat>, e: nat)
    requires Wf(v, chains, other) && e < |v.dir| && v.dir[e].IsFile()
    ensures FreeCount(Removed(v, e, chains[e]).fat) == FreeCount(v.fat) + |chains[e]|
  {
    var ch := chains[e];
    assert Chain(v.fat, v.dir[e].first, ch);
    ChainIsDistinct(v.fat, v.dir[e].first, ch);
    forall i | 0 <= i < |ch|
      ensures v.fat[ch[i]] != 0
    {
      assert i < |ch| - 1 ==> v.fat[ch[i]] == ch[i + 1];
    }
    ZeroedFrees(v.fat, ch);
  }

  lemma RemovalResult(v: Volume, chains: seq<seq<nat>>, other: set<nat>, e: nat)
    requires Wf(v, chains, other) && e < |v.dir| && v.dir[e].IsFile()
    ensures Wf(Removed(v, e, chains[e]), chains[e := []], other)
    ensures Files(Removed(v, e, chains[e]), chains[e := []]) == Files(v, chains)[e := None]
    ensures FreeCount(Removed(v, e, chains[e]).fat) == FreeCount(v.fat) + |chains[e]|
  {
    RemovedKeepsWf(v, chains, other, e);
    RemovedFrees(v, chains, other, e);
  }

  // ---------------------------------------------------------------- creation

  lemma CreatedStructure(v: Volume, v': Volume, chains: seq<seq<nat>>, other: set<nat>, s: nat, entry: DirEntry)
    requires Structure(v, chains, other) && s < |v.dir| && !v.dir[s].IsFile() && entry.first == 0
    requires v' == Volume(v.bpc, v.fat, v.data, v.dir[s := entry])
    ensures Structure(v', chains, other)
  {
    assert ChainsMatch(v', chains);
  }

  lemma CreatedKeepsWf(v: Volume, v': Volume, chains: seq<seq<nat>>, other: set<nat>, s: nat, field: seq<Byte>)
    requires Wf(v, chains, other) && s < |v.dir| && !v.dir[s].IsFile()
    requires v' == Volume(v.bpc, v.fat, v.data, v.dir[s := FileEntry(field)])
    ensures Wf(v', chains, other)
    ensures Files(v', chains) == Files(v, chains)[s := if FileEntry(field).IsFile() then Some([]) else None]
  {
    CreatedStructure(v, v', chains, other, s, FileEntry(field));
    OthersSized(v, v', chains, chains, s);
    OtherFiles(v, v', chains, chains, s);
  }

  // ---------------------------------------------------------------- the node pool

  /** A pooled node: the entry it describes, that entry's first cluster and length, open count. */
  datatype Node = Node(ptr: Option<nat>, impl: nat, length: nat, refs: nat)

  ghost predicate Tracks(n: Node, d: DirEntry)
  {
    d.IsFile() ==> n.impl == d.first && n.length == d.length
  }

  /** No two nodes describe one entry; every node of a file other than `skip` agrees with its
      entry; an open node's entry is a file. */
  ghost predicate PoolOk(pool: seq<Node>, dir: seq<DirEntry>, skip: int)
  {
    && |pool| == NODE_POOL
    && (forall i, j :: 0 <= i < j < |pool| && pool[i].ptr.Some? ==> pool[i].ptr != pool[j].ptr)
    && (forall i :: 0 <= i < |pool| && pool[i].ptr.Some? ==>
          pool[i].ptr.value < |dir| && (pool[i].ptr.value != skip ==> Tracks(pool[i], dir[pool[i].ptr.value])))
    && (forall i :: 0 <= i < |pool| && pool[i].refs > 0 ==> pool[i].ptr.Some? && dir[pool[i].ptr.value].IsFile())
  }

  /** No node describes entry e and every node is open. */
  ghost predicate Exhausted(pool: seq<Node>, e: nat)
  {
    forall i :: 0 <= i < |pool| ==> pool[i].ptr != Some(e) && pool[i].refs > 0
  }

  ghost predicate IsOpen(pool: seq<Node>, e: nat)
  {
    exists i :: 0 <= i < |pool| && pool[i].ptr == Some(e) && pool[i].refs > 0
  }

  /** Open nodes still describe the entry they described, and no open count has changed. */
  ghost predicate HoldsOpen(pool: seq<Node>, pool': seq<Node>)
  {
    && |pool'| == |pool|
    && (forall i :: 0 <= i < |pool| ==> pool'[i].refs == pool[i].refs)
    && (forall i :: 0 <= i < |pool| && pool[i].refs > 0 ==> pool'[i].ptr == pool[i].ptr)
  }

  /** A lookup of entry e puts a fresh description of it into slot i. */
  lemma NodeTaken(pool: seq<Node>, dir: seq<DirEntry>, e: nat, i: nat, node: Node)
    requires PoolOk(pool, dir, e) && e < |dir| && i < NODE_POOL
    requires node.ptr == Some(e) && Tracks(node, dir[e]) && node.refs == pool[i].refs
    requires pool[i].ptr == Some(e) || (pool[i].refs == 0 && forall j :: 0 <= j < |pool| ==> pool[j].ptr != Some(e))
    ensures PoolOk(pool[i := node], dir, -1) && HoldsOpen(pool, pool[i := node])
  {
  }

  /** Entry e changes, and at most its own node with it. */
  lemma EntryUpdated(pool: seq<Node>, pool': seq<Node>, dir: seq<DirEntry>, dir': seq<DirEntry>, e: nat, skip: int)
    requires PoolOk(pool, dir, -1) && e < |dir| == |dir'| && |pool'| == |pool|
    requires forall a :: 0 <= a < |dir| && a != e ==> dir'[a] == dir[a]
    requires forall i :: 0 <= i < |pool| ==> pool'[i].ptr == pool[i].ptr && pool'[i].refs == pool[i].refs
    requires forall i :: 0 <= i < |pool| && pool[i].ptr != Some(e) ==> pool'[i] == pool[i]
    requires forall i :: 0 <= i < |pool| && pool[i].ptr == Some(e) && e != skip ==> Tracks(pool'[i], dir'[e])
    requires IsOpen(pool, e) ==> dir'[e].IsFile()
    ensures PoolOk(pool', dir', skip)
  {
  }

  /** fat16_vfs_create will store an entry. A name already in use is refused only if its entry can
      be given a node. */
  ghost predicate MayCreate(dir: seq<DirEntry>, pool: seq<Node>, name: seq<Byte>)
    requires Entries(dir)
  {
    && Make83(name).Some? && FreeSlot(dir, 0).Some?
    && (Find(dir, name).Some? ==> Exhausted(pool, Find(dir, name).value))
  }

  /** `v'` is `v` with a new, empty file in directory slot s. */
  ghost predicate Created(v: Volume, v': Volume, s: nat, field: seq<Byte>)
  {
    s < |v.dir| && v' == Volume(v.bpc, v.fat, v.data, v.dir[s := FileEntry(field)])
  }

  /** `v'` is `v` with a new, empty file of that name in the first free directory slot. */
  ghost predicate Stored(v: Volume, v': Volume, name: seq<Byte>)
    requires Entries(v.dir) && Make83(name).Some? && FreeSlot(v.dir, 0).Some?
  {
    Created(v, v', FreeSlot(v.dir, 0).value, Make83(name).value)
  }

  /** The files with an empty one at s if the entry there is a file, and none otherwise. */
  function WithEmpty(files: seq<Option<seq<Byte>>>, s: nat, d: DirEntry): seq<Option<seq<Byte>>>
    requires s < |files|
  {
    files[s := if d.IsFile() then Some([]) else None]
  }

  /** The outcome of fat16_make_node for entry s: its node, or none if every node is open and none is
      that of s. */
  ghost predicate Assigned(pool: seq<Node>, pool': seq<Node>, s: nat, node: Option<nat>)
  {
    && (node.None? <==> Exhausted(pool, s))
    && (node.None? ==> pool' == pool)
    && (node.Some? ==> node.value < |pool'| && pool'[node.value].ptr == Some(s))
  }

  /** A free slot has no open node, so it is refused a node exactly when every node is open. */
  lemma FreeSlotExhausted(pool: seq<Node>, dir: seq<DirEntry>, s: nat)
    requires PoolOk(pool, dir, -1) && s < |dir| && !dir[s].IsFile()
    ensures Exhausted(pool, s) <==> forall i :: 0 <= i < |pool| ==> pool[i].refs > 0
  {
  }

  /** After a create, a lookup of the name reaches the new entry and finds it a node exactly when the
      name is recoverable and the entry was given one. */
  lemma CreatedIsFound(dir: seq<DirEntry>, pool: seq<Node>, pool': seq<Node>, name: seq<Byte>, node: Option<nat>)
    requires Entries(dir) && PoolOk(pool, dir, -1) && 0 !in name && MayCreate(dir, pool, name)
    requires Assigned(pool, pool', FreeSlot(dir, 0).value, node)
    ensures var s := FreeSlot(dir, 0).value;
            var dir' := dir[s := FileEntry(Make83(name).value)];
            && Entries(dir')
            && ((Find(dir', name) == Some(s) && !Exhausted(pool', s)) <==> Recoverable(name) && !Exhausted(pool, s))
  {
    var s := FreeSlot(dir, 0).value;
    FreeSlotExhausted(pool, dir, s);
    if Exhausted(pool, s) {
      assert pool' == pool;
    } else {
      assert Find(dir, name).None?;
      StoredIsScanned(dir, name, s);
    }
  }

  /** The n-th slot after the round-robin cursor. */
  function Cyclic(next: nat, n: nat): (i: nat)
    ensures i < NODE_POOL
  {
    (next + n) % NODE_POOL
  }

  lemma EverySlot(next: nat, i: nat)
    requires next < NODE_POOL && i < NODE_POOL
    ensures exists n :: 0 <= n < NODE_POOL && Cyclic(next, n) == i
  {
    assert Cyclic(next, if i >= next then i - next else i + NODE_POOL - next) == i;
  }

  class FileSystem {
    const driver: Driver
    const pool: array<Node>
    var next: nat

    ghost predicate Valid()
      reads this, driver, driver.image, driver.image.img, pool
    {
      driver.Valid() && next < NODE_POOL && PoolOk(pool[..], driver.image.vol.dir, -1)
    }

    ghost function Contents(): seq<Option<seq<Byte>>>
      reads driver, driver.image
    {
      Files(driver.image.vol, driver.chains)
    }

    constructor (d: Driver)
      requires d.Valid()
      ensures Valid() && driver == d && fresh(pool) && forall i :: 0 <= i < NODE_POOL ==> pool[i].refs == 0
    {
      driver, next := d, 0;
      pool := new Node[NODE_POOL](_ => Node(None, 0, 0, 0));
    }

    /** The slot scan of fat16_make_node: the node of entry e, else the next one nobody holds open. */
    method PickNode(e: nat) returns (slot: nat)
      requires pool.Length == NODE_POOL && next < NODE_POOL
      modifies this`next
      ensures next < NODE_POOL && slot <= NODE_POOL
      ensures slot == NODE_POOL <==> Exhausted(pool[..], e)
      ensures slot < NODE_POOL ==>
              pool[slot].ptr == Some(e) ||
                (pool[slot].refs == 0 && forall j :: 0 <= j < NODE_POOL ==> pool[j].ptr != Some(e))
    {
      for i := 0 to NODE_POOL
        invariant forall j :: 0 <= j < i ==> pool[j].ptr != Some(e)
      {
        if pool[i].ptr == Some(e) {
          return i;
        }
      }
      for n := 0 to NODE_POOL
        invariant forall m :: 0 <= m < n ==> pool[Cyclic(next, m)].refs > 0
      {
        var i := Cyclic(next, n);
        if pool[i].refs == 0 {
          next := (i + 1) % NODE_POOL;
          return i;
        }
      }
      forall i | 0 <= i < NODE_POOL
        ensures pool[i].refs > 0
      {
        EverySlot(next, i);
      }
      return NODE_POOL;
    }

    /** fat16_make_node. */
    method MakeNode(e: nat) returns (node: Option<nat>)
      requires driver.image.Valid() && e < |driver.image.vol.dir|
      requires next < NODE_POOL && PoolOk(pool[..], driver.image.vol.dir, e)
      modifies this`next, pool
      ensures next < NODE_POOL && PoolOk(pool[..], driver.image.vol.dir, -1)
      ensures HoldsOpen(old(pool[..]), pool[..])
      ensures node.None? <==> Exhausted(old(pool[..]), e)
      ensures node.None? ==> pool[..] == old(pool[..])
      ensures node.Some? ==> node.value < NODE_POOL && pool[node.value].ptr == Some(e)
    {
      driver.image.VolumeShape();
      ghost var was := pool[..];
      var slot := PickNode(e);
      if slot == NODE_POOL {
        return None;
      }
      var first := driver.image.EntryFirst(e);
      var _, attr := driver.image.EntryHead(e);
      var length := 0;
      if (attr as int / 16) % 2 == 0 {
        length := driver.image.EntryLength(e);
      }
      NodeTaken(was, driver.image.vol.dir, e, slot, Node(Some(e), first, length, pool[slot].refs));
      pool[slot] := Node(Some(e), first, length, pool[slot].refs);
      assert pool[..] == was[slot := pool[slot]];
      return Some(slot);
    }

    /** The scan of fat16_vfs_finddir and fat16_vfs_unlink. */
    method FindEntry(name: seq<Byte>) returns (e: Option<nat>)
      requires driver.image.Valid()
      ensures Entries(driver.image.vol.dir) && e == Find(driver.image.vol.dir, name)
    {
      driver.image.VolumeShape();
      ghost var dir := driver.image.vol.dir;
      ghost var want := Named(name);
      var slots := driver.image.geo.rootEntries;
      var logical := 0;
      while logical < MAX_DIR_SLOTS
        invariant Scan(dir, want, 0) == Scan(dir, want, logical)
      {
        if logical >= slots {
          return None;
        }
        var end, hit := LookAt(logical, name);
        if end {
          return None;
        }
        if hit {
          return Some(logical);
        }
        logical := logical + 1;
      }
      return None;
    }

    /** One turn of a directory scan: is this the end, and is it the name? */
    method LookAt(logical: nat, name: seq<Byte>) returns (end: bool, hit: bool)
      requires driver.image.Valid() && logical < |driver.image.vol.dir| == driver.image.geo.rootEntries
      requires |driver.image.vol.dir[logical].name| == 11
      ensures end == IsEnd(driver.image.vol.dir[logical]) && hit == Matches(driver.image.vol.dir[logical], name)
    {
      var field, attr := driver.image.EntryHead(logical);
      var d := DirEntry(field, attr, 0, 0);
      end, hit := IsEnd(d), Matches(d, name);
    }

    /** fat16_free_slot. */
    method FindFreeSlot() returns (s: Option<nat>)
      requires driver.image.Valid()
      ensures Entries(driver.image.vol.dir) && s == FreeSlot(driver.image.vol.dir, 0)
    {
      driver.image.VolumeShape();
      ghost var dir := driver.image.vol.dir;
      var logical := 0;
      while logical < MAX_DIR_SLOTS
        invariant FreeSlot(dir, 0) == FreeSlot(dir, logical)
      {
        if logical >= driver.image.geo.rootEntries {
          return None;
        }
        var field, _ := driver.image.EntryHead(logical);
        if field[0] == 0x00 || field[0] == DELETED {
          return Some(logical);
        }
        logical := logical + 1;
      }
      return None;
    }

    /** fat16_vfs_finddir: the node of the entry with that name; none when there is no such entry,
        or when every node is open and none describes it. */
    method FindDir(name: seq<Byte>) returns (node: Option<nat>)
      requires Valid()
      modifies this`next, pool
      ensures Valid() && HoldsOpen(old(pool[..]), pool[..])
      ensures Entries(driver.image.vol.dir)
      ensures var found := Find(driver.image.vol.dir, name);
              && (node.None? <==> found.None? || Exhausted(old(pool[..]), found.value))
              && (node.None? ==> pool[..] == old(pool[..]))
              && (node.Some? ==> node.value < NODE_POOL && pool[node.value].ptr == found)
    {
      var e := FindEntry(name);
      if e.None? {
        return None;
      }
      node := MakeNode(e.value);
    }

    /** fat16_vfs_open. */
    method Open(node: nat)
      requires Valid() && node < NODE_POOL && pool[node].ptr.Some? &&
               driver.image.vol.dir[pool[node].ptr.value].IsFile()
      modifies pool
      ensures Valid() && pool[..] == old(pool[..])[node := old(pool[node]).(refs := old(pool[node]).refs + 1)]
    {
      pool[node] := pool[node].(refs := pool[node].refs + 1);
    }

    /** fat16_vfs_close. */
    method Close(node: nat)
      requires Valid() && node < NODE_POOL
      modifies pool
      ensures Valid()
      ensures pool[..] == if old(pool[node]).refs == 0 then old(pool[..])
                          else old(pool[..])[node := old(pool[node]).(refs := old(pool[node]).refs - 1)]
    {
      if pool[node].refs > 0 {
        pool[node] := pool[node].(refs := pool[node].refs - 1);
      }
    }

    /** fat16_vfs_read through a node: the bytes of its entry's file from `offset` on, as many as
        were asked for and exist. */
    method Read(node: nat, offset: nat, size: nat) returns (data: seq<Byte>)
      requires Valid() && node < NODE_POOL && pool[node].ptr.Some? &&
               driver.image.vol.dir[pool[node].ptr.value].IsFile()
      ensures var file := Contents()[pool[node].ptr.value].value;
              data == if offset >= |file| then []
                else file[offset..if size > |file| - offset then |file| else offset + size]
    {
      ghost var e := pool[node].ptr.value;
      data := driver.ReadChain(pool[node].impl, pool[node].length, offset, size, driver.chains[e]);
    }

    /** fat16_entry_is_open. */
    method EntryIsOpen(e: nat) returns (open: bool)
      requires pool.Length == NODE_POOL
      ensures open <==> IsOpen(pool[..], e)
    {
      for i := 0 to NODE_POOL
        invariant forall j :: 0 <= j < i ==> !(pool[j].ptr == Some(e) && pool[j].refs > 0)
      {
        if pool[i].ptr == Some(e) && pool[i].refs > 0 {
          assert pool[..][i] == pool[i];
          return true;
        }
      }
      return false;
    }

    /** What fat16_vfs_write leaves in the node it wrote through. */
    method Refresh(node: nat, e: nat, ghost dir: seq<DirEntry>)
      requires driver.image.Valid() && next < NODE_POOL && PoolOk(pool[..], dir, -1)
      requires node < NODE_POOL && pool[node].ptr == Some(e) && e < |dir| == |driver.image.vol.dir| && dir[e].IsFile()
      requires driver.image.vol.dir[e].IsFile() && forall a :: 0 <= a < |dir| && a != e ==>
               driver.image.vol.dir[a] == dir[a]
      modifies pool
      ensures PoolOk(pool[..], driver.image.vol.dir, -1)
      ensures forall i :: 0 <= i < NODE_POOL ==> pool[i].ptr == old(pool[i]).ptr && pool[i].refs == old(pool[i]).refs
    {
      driver.image.VolumeShape();
      ghost var was := pool[..];
      var first := driver.image.EntryFirst(e);
      var length := driver.image.EntryLength(e);
      pool[node] := pool[node].(impl := first, length := length);
      EntryUpdated(was, pool[..], dir, driver.image.vol.dir, e, -1);
    }

    /** fat16_vfs_write through a node: a prefix of `buf` lands in the node's file at `offset`, as
        long as the file's clusters and the free ones have room for it; no other file changes. */
    method Write(node: nat, offset: nat, buf: seq<Byte>) returns (n: nat)
      requires Valid() && node < NODE_POOL && pool[node].ptr.Some? &&
               driver.image.vol.dir[pool[node].ptr.value].IsFile()
      requires offset < UINT32_LIMIT && |buf| < UINT32_LIMIT
      modifies driver`chains, driver.image`vol, driver.image.img, pool
      ensures Valid() && forall i :: 0 <= i < NODE_POOL ==>
              pool[i].ptr == old(pool[i]).ptr && pool[i].refs == old(pool[i]).refs
      ensures var e := pool[node].ptr.value;
              && n <= |buf|
              && n == (if offset + |buf| >= UINT32_LIMIT then 0
                       else WriteAmount(old(driver.image.vol), old(driver.chains)[e], offset, |buf|))
              && Contents() == old(Contents())[e := Some(Spliced(old(Contents())[e].value, offset, buf[..n]))]
    {
      var e := pool[node].ptr.value;
      ghost var v, chains := driver.image.vol, driver.chains;
      n := driver.WriteEntry(e, offset, buf);
      WrittenFiles(v, chains, driver.image.vol, driver.chains, e, offset, buf, n);
      Refresh(node, e, v.dir);
    }

    /** fat16_vfs_unlink: succeeds exactly for the name of a file that is not open; the file is gone,
        its clusters and no others are free, and every other file is as before. */
    method Unlink(name: seq<Byte>) returns (ok: bool)
      requires Valid()
      modifies driver`chains, driver.image`vol, driver.image.img
      ensures Valid() && Entries(old(driver.image.vol).dir)
      ensures var found := Find(old(driver.image.vol).dir, name);
              && (ok <==> found.Some? && old(driver.image.vol).dir[found.value].IsFile() && !IsOpen(pool[..],
                 found.value))
              && (ok ==> driver.image.vol == Removed(old(driver.image.vol), found.value,
                 old(driver.chains)[found.value]))
              && (ok ==> Contents() == old(Contents())[found.value := None])
              && (ok ==>
                 FreeCount(driver.image.vol.fat) ==
                 FreeCount(old(driver.image.vol).fat) + |old(driver.chains)[found.value]|)
              && (!ok ==> driver.image.vol == old(driver.image.vol) && driver.chains == old(driver.chains))
    {
      var target := UnlinkTarget(name);
      if target.None? {
        return false;
      }
      UnlinkEntry(target.value);
      return true;
    }

    /** The checks of fat16_vfs_unlink: the entry to remove, if it is a file and not open. */
    method UnlinkTarget(name: seq<Byte>) returns (target: Option<nat>)
      requires Valid()
      ensures Entries(driver.image.vol.dir)
      ensures var found := Find(driver.image.vol.dir, name);
        target == if found.Some? && driver.image.vol.dir[found.value].IsFile() && !IsOpen(pool[..], found.value)
                  then found else None
    {
      var found := FindEntry(name);
      if found.None? {
        return None;
      }
      var _, attr := driver.image.EntryHead(found.value);
      if (attr as int / 16) % 2 == 1 {
        return None;
      }
      var open := EntryIsOpen(found.value);
      target := if open then None else found;
    }

    /** The removal in fat16_vfs_unlink. */
    method UnlinkEntry(e: nat)
      requires Valid() && e < |driver.image.vol.dir| && driver.image.vol.dir[e].IsFile() && !IsOpen(pool[..], e)
      modifies driver`chains, driver.image`vol, driver.image.img
      ensures Valid() && |old(driver.image.vol).dir[e].name| == 11 && e < |old(driver.chains)|
      ensures driver.image.vol == Removed(old(driver.image.vol), e, old(driver.chains)[e])
      ensures Contents() == old(Contents())[e := None]
      ensures FreeCount(driver.image.vol.fat) == FreeCount(old(driver.image.vol).fat) + |old(driver.chains)[e]|
    {
      ghost var v, chains := driver.image.vol, driver.chains;
      var ok;
      ghost var ch;
      ok, ch := driver.RemoveEntry(e);
      ChainIsUnique(v.fat, v.dir[e].first, ch, chains[e]);
      RemovalResult(v, chains, driver.other, e);
      driver.chains := chains[e := []];
      EntryUpdated(pool[..], pool[..], v.dir, driver.image.vol.dir, e, -1);
    }

    /** fat16_vfs_create stores an entry exactly when the name has an 8.3 form, a slot is free, and
        the name is new or its entry cannot be given a node. The new file is empty; every other file
        is as before. The stored entry gets a node unless every node is open. */
    method Create(name: seq<Byte>) returns (created: bool, node: Option<nat>)
      requires Valid() && 0 !in name
      modifies driver.image`vol, driver.image.img, this`next, pool
      ensures Valid() && HoldsOpen(old(pool[..]), pool[..]) && Entries(old(driver.image.vol).dir)
      ensures created <==> MayCreate(old(driver.image.vol).dir, old(pool[..]), name)
      ensures created ==> Stored(old(driver.image.vol), driver.image.vol, name)
      ensures created ==> var s := FreeSlot(old(driver.image.vol).dir, 0).value;
        && Contents() == WithEmpty(old(Contents()), s, driver.image.vol.dir[s])
        && Assigned(old(pool[..]), pool[..], s, node)
      ensures !created ==> driver.image.vol == old(driver.image.vol) && node.None?
    {
      created, node := false, None;
      var slot := CreateSlot(name);
      if slot.None? {
        return;
      }
      created := true;
      node := AddAndTrack(slot.value, Make83(name).value);
    }

    /** The checks of fat16_vfs_create: the slot the new entry goes into, if there is to be one. */
    method CreateSlot(name: seq<Byte>) returns (slot: Option<nat>)
      requires Valid()
      modifies this`next, pool
      ensures Valid() && HoldsOpen(old(pool[..]), pool[..]) && Entries(driver.image.vol.dir)
      ensures slot.Some? <==> MayCreate(driver.image.vol.dir, old(pool[..]), name)
      ensures slot.Some? ==> pool[..] == old(pool[..]) && slot == FreeSlot(driver.image.vol.dir, 0)
      ensures slot.Some? ==> slot.value < |driver.image.vol.dir| && !driver.image.vol.dir[slot.value].IsFile()
    {
      driver.image.VolumeShape();
      if Make83(name).None? {
        return None;
      }
      var known := FindDir(name);
      if known.Some? {
        return None;
      }
      slot := FindFreeSlot();
    }

    method AddAndTrack(s: nat, field: seq<Byte>) returns (node: Option<nat>)
      requires Valid() && s < |driver.image.vol.dir| && |field| == 11 && !driver.image.vol.dir[s].IsFile()
      modifies driver.image`vol, driver.image.img, this`next, pool
      ensures Valid() && HoldsOpen(old(pool[..]), pool[..])
      ensures Created(old(driver.image.vol), driver.image.vol, s, field)
      ensures Contents() == WithEmpty(old(Contents()), s, driver.image.vol.dir[s])
      ensures Assigned(old(pool[..]), pool[..], s, node)
    {
      AddEntry(s, field);
      node := MakeNode(s);
    }

    /** fat16_vfs_create and then fat16_vfs_finddir of the same name: the lookup returns the new
        entry's node exactly when the name is recoverable and a node was to be had. */
    method CreateThenFind(name: seq<Byte>) returns (created: bool, node: Option<nat>)
      requires Valid() && 0 !in name
      modifies driver.image`vol, driver.image.img, this`next, pool
      ensures Valid() && Entries(old(driver.image.vol).dir)
      ensures created <==> MayCreate(old(driver.image.vol).dir, old(pool[..]), name)
      ensures created ==> var s := FreeSlot(old(driver.image.vol).dir, 0).value;
        (node.Some? && node.value < NODE_POOL && pool[node.value].ptr == Some(s)) <==>
          Recoverable(name) && !Exhausted(old(pool[..]), s)
    {
      ghost var dir, was := driver.image.vol.dir, pool[..];
      var first;
      created, first := Create(name);
      ghost var now := pool[..];
      node := FindDir(name);
      if created {
        CreatedIsFound(dir, was, now, name, first);
      }
    }

    /** The entry stores of fat16_vfs_create. */
    method AddEntry(s: nat, field: seq<Byte>)
      requires Valid() && s < |driver.image.vol.dir| && |field| == 11 && !driver.image.vol.dir[s].IsFile()
      modifies driver.image`vol, driver.image.img
      ensures driver.Valid() && Created(old(driver.image.vol), driver.image.vol, s, field)
      ensures PoolOk(pool[..], driver.image.vol.dir, s)
      ensures Contents() == WithEmpty(old(Contents()), s, FileEntry(field))
    {
      ghost var v := driver.image.vol;
      driver.image.VolumeShape();
      driver.image.NewEntry(s, field);
      CreatedKeepsWf(v, driver.image.vol, driver.chains, driver.other, s, field);
      EntryUpdated(pool[..], pool[..], v.dir, driver.image.vol.dir, s, s);
    }
  }

  lemma WrittenFiles(v: Volume, chains: seq<seq<nat>>, v': Volume, chains': seq<seq<nat>>, e: nat, offset: nat,
                     buf: seq<Byte>, n: nat)
    requires |chains| == |v.dir| && v.bpc > 0 && Sized(v, chains) && e < |v.dir| && v.dir[e].IsFile() && n <= |buf|
    requires n > 0 ==> Wrote(v, chains, v', chains', e, offset, buf[..n])
    requires n == 0 ==> chains' == chains && NothingChanged(v, v', chains)
    ensures Files(v', chains') == Files(v, chains)[e := Some(Spliced(Files(v, chains)[e].value, offset, buf[..n]))]
    ensures |v'.dir| == |v.dir| && v'.dir[e].IsFile() && forall a :: 0 <= a < |v.dir| && a != e ==>
            v'.dir[a] == v.dir[a]
  {
    if n > 0 {
      WroteFiles(v, chains, v', chains', e, offset, buf[..n]);
    } else {
      SameFiles(v, v', chains);
    }
  }

  // ---------------------------------------------------------------- a name created twice

  /** A file whose name is the i-th letter. */
  function Letter(i: nat): (d: DirEntry)
    requires i < 26
    ensures |d.name| == 11 && d.IsFile()
  {
    FileEntry([(0x41 + i) as Byte] + seq(10, _ => SPACE))
  }

  /** Seventeen files and then the end mark. */
  function Crowded(): (dir: seq<DirEntry>)
    ensures |dir| == 18 && Entries(dir) && forall i :: 0 <= i < 17 ==> dir[i] == Letter(i)
  {
    seq(17, i requires 0 <= i < 17 => Letter(i)) + [DirEntry(seq(11, _ => 0 as Byte), 0, 0, 0)]
  }

  /** The first sixteen of them open. */
  function FullPool(): (pool: seq<Node>)
    ensures |pool| == NODE_POOL && forall i :: 0 <= i < NODE_POOL ==> pool[i] == Node(Some(i), 0, 0, 1)
  {
    seq(NODE_POOL, (i: nat) => Node(Some(i), 0, 0, 1))
  }

  lemma LetterName(i: nat)
    requires i < 26
    ensures FormatName(Letter(i).name) == [(0x61 + i) as Byte]
  {
    var f := Letter(i).name;
    var base, u := f[..8], UpToSpace(f[..8]);
    assert base[0] == (0x41 + i) as Byte && base[1] == SPACE;
    assert base[1..][0] == SPACE && UpToSpace(base[1..]) == [];
    assert u == [(0x41 + i) as Byte];
  }

  lemma CrowdedNames(i: nat, j: nat)
    requires i < 17 && j < 26
    ensures Matches(Crowded()[i], [(0x61 + j) as Byte]) <==> i == j
  {
    LetterName(i);
    var a, b := [(0x61 + i) as Byte], [(0x61 + j) as Byte];
    assert LowerAll(a)[0] == (0x61 + i) as Byte && LowerAll(b)[0] == (0x61 + j) as Byte;
  }

  /** fat16_vfs_create does not always refuse a name in use: with sixteen other files open, creating
      the seventeenth file's name again stores a second entry of that name. */
  lemma NameCreatedTwice()
    ensures PoolOk(FullPool(), Crowded(), -1) && MayCreate(Crowded(), FullPool(), [0x71])
    ensures Find(Crowded(), [0x71]) == Some(16)
  {
    CrowdedFind();
    CrowdedFree();
    LetterEncodes(16);
    FullPoolOk();
  }

  lemma CrowdedFind()
    ensures Find(Crowded(), [0x71]) == Some(16)
  {
    var dir, want := Crowded(), Named([0x71]);
    forall i: nat | i < 17
      ensures want(dir[i]) <==> i == 16
    {
      CrowdedNames(i, 16);
      assert (0x61 + 16) as Byte == 0x71;
    }
    ScanHits(dir, want, 0, 16);
  }

  lemma CrowdedFree()
    ensures FreeSlot(Crowded(), 0) == Some(17)
  {
    FirstFreeOf(Crowded(), 0, 17);
  }

  lemma FullPoolOk()
    ensures PoolOk(FullPool(), Crowded(), -1) && Exhausted(FullPool(), 16)
  {
    var pool, dir := FullPool(), Crowded();
    assert forall i :: 0 <= i < NODE_POOL ==> dir[i].IsFile() && dir[i].first == 0 && dir[i].length == 0;
  }

  lemma LetterEncodes(i: nat)
    requires i < 26
    ensures Make83([(0x61 + i) as Byte]).Some?
  {
    assert LastDot([(0x61 + i) as Byte]) == 1;
  }

  lemma {:induction false} FirstFreeOf(dir: seq<DirEntry>, i: nat, s: nat)
    requires Entries(dir) && i <= s < Slots(dir) && IsFree(dir[s]) && forall j :: i <= j < s ==> !IsFree(dir[j])
    ensures FreeSlot(dir, i) == Some(s)
    decreases s - i
  {
    if i < s {
      FirstFreeOf(dir, i + 1, s);
    }
  }

  lemma LetterIsRecoverable(i: nat)
    requires i < 26
    ensures Make83([(0x61 + i) as Byte]).Some? && Recoverable([(0x61 + i) as Byte])
  {
    LetterEncodes(i);
    assert LastDot([(0x61 + i) as Byte]) == 1;
  }

  /** With sixteen files open, a create of the new name "z" stores its entry and returns no node, and a
      lookup of "z" finds it none either. */
  lemma NoNodeForNew()
    ensures PoolOk(FullPool(), Crowded(), -1) && MayCreate(Crowded(), FullPool(), [0x7A])
    ensures Recoverable([0x7A]) && FreeSlot(Crowded(), 0) == Some(17) && Exhausted(FullPool(), 17)
  {
    FullPoolOk();
    CrowdedFree();
    LetterIsRecoverable(25);
    CrowdedMisses(25);
  }

  lemma CrowdedMisses(j: nat)
    requires 17 <= j < 26
    ensures Find(Crowded(), [(0x61 + j) as Byte]).None?
  {
    forall e | 0 <= e < |Crowded()| && Visible(Crowded(), e)
      ensures !Matches(Crowded()[e], [(0x61 + j) as Byte])
    {
      if e < 17 {
        CrowdedNames(e, j);
      }
    }
    FindMisses(Crowded(), [(0x61 + j) as Byte]);
  }

  /** A file created as "a b" is not found under that name: the field is read back as "a". */
  lemma SpaceIsLost(name: seq<Byte>)
    requires name == [0x61, SPACE, 0x62]
    ensures Make83(name).Some? && 0 !in name && !Recoverable(name)
  {
    assert LastDot(name) == 3;
    assert name[1] == SPACE;
  }

  /** A create that goes ahead keeps names unique exactly when the new entry is hidden or no visible
      entry bears the name it will be shown under. A recoverable name is shown under itself, so there
      the check fails only if the name's entry cannot be given a node. */
  lemma CreateKeepsUnique(dir: seq<DirEntry>, pool: seq<Node>, name: seq<Byte>)
    requires Entries(dir) && Terminated(dir) && Unique(dir) && 0 !in name && MayCreate(dir, pool, name)
    ensures var field := Make83(name).value;
            var dir' := dir[FreeSlot(dir, 0).value := FileEntry(field)];
            && Entries(dir')
            && (Unique(dir') <==> !Listed(FileEntry(field)) || Find(dir, FormatName(field)).None?)
            && (Recoverable(name) ==>
                  (Unique(dir') <==> !(Find(dir, name).Some? && Exhausted(pool, Find(dir, name).value))))
  {
    var field := Make83(name).value;
    FieldIsFile(name, field);
    assert name[0] in name;
    UpperMarks(name[0]);
    UniqueIffMissed(dir, FileEntry(field), FreeSlot(dir, 0).value);
    if Recoverable(name) {
      FieldMatches(name, field);
      SameScan(dir, FormatName(field), name, 0);
    }
  }

  /** One file, "a", and then the end mark. */
  function OneLetter(): (dir: seq<DirEntry>)
    ensures |dir| == 2 && Entries(dir)
  {
    [Letter(0), DirEntry(seq(11, _ => 0 as Byte), 0, 0, 0)]
  }

  /** The name "a." is encoded as "a" is. */
  lemma DottedField(name: seq<Byte>)
    requires name == [0x61, DOT]
    ensures Make83(name) == Some(Letter(0).name) && !NameEq(FormatName(Letter(0).name), name)
  {
    LetterName(0);
    assert LastDot(name) == 1;
    assert Base(name) == [0x61] && Ext(name) == [];
    var field := Padded(Base(name), 8) + Padded(Ext(name), 3);
    assert field == Letter(0).name;
    assert |LowerAll(name)| == 2 && |LowerAll(FormatName(Letter(0).name))| == 1;
  }

  /** Whatever nodes are open, creating "a." beside "a" goes ahead and leaves two files shown as "a". */
  lemma SameNameTwice(pool: seq<Node>, name: seq<Byte>)
    requires name == [0x61, DOT]
    ensures Terminated(OneLetter()) && Unique(OneLetter()) && Find(OneLetter(), name).None?
    ensures MayCreate(OneLetter(), pool, name) && FreeSlot(OneLetter(), 0) == Some(1)
    ensures var dir' := OneLetter()[1 := FileEntry(Make83(name).value)];
            Entries(dir') && !Unique(dir')
  {
    DottedField(name);
    OneLetterFacts();
    FindMisses(OneLetter(), name);
    UniqueIffMissed(OneLetter(), Letter(0), 1);
  }

  lemma OneLetterFacts()
    ensures Terminated(OneLetter()) && Unique(OneLetter()) && FreeSlot(OneLetter(), 0) == Some(1)
    ensures Find(OneLetter(), FormatName(Letter(0).name)) == Some(0)
  {
    FirstFreeOf(OneLetter(), 0, 1);
    ScanHits(OneLetter(), Named(FormatName(Letter(0).name)), 0, 0);
  }

  // ---------------------------------------------------------------- conservation

  function TotalLength(chains: seq<seq<nat>>): nat
  {
    if chains == [] then 0 else TotalLength(chains[..|chains| - 1]) + |chains[|chains| - 1]|
  }

  function Elements(ch: seq<nat>): set<nat>
  {
    set c | c in ch
  }

  /** Clusters owned by the first n chains. */
  function Owned(chains: seq<seq<nat>>, n: nat): set<nat>
    requires n <= |chains|
  {
    if n == 0 then {} else Owned(chains, n - 1) + Elements(chains[n - 1])
  }

  lemma {:induction false} OwnedBy(chains: seq<seq<nat>>, n: nat, c: nat)
    requires n <= |chains|
    ensures c in Owned(chains, n) <==> exists e :: 0 <= e < n && c in chains[e]
  {
    if n > 0 {
      OwnedBy(chains, n - 1, c);
    }
  }

  lemma OwnedApart(chains: seq<seq<nat>>, n: nat)
    requires 0 < n <= |chains| && Disjoint(chains)
    ensures Owned(chains, n - 1) !! Elements(chains[n - 1])
  {
    var ch := chains[n - 1];
    forall i | 0 <= i < |ch|
      ensures ch[i] !in Owned(chains, n - 1)
    {
      OwnedBy(chains, n - 1, ch[i]);
    }
  }

  lemma ChainOfDisjoint(chains: seq<seq<nat>>, e: nat)
    requires e < |chains| && Disjoint(chains)
    ensures Distinct(chains[e])
  {
  }

  lemma {:induction false} OwnedSize(chains: seq<seq<nat>>, n: nat)
    requires n <= |chains| && Disjoint(chains)
    ensures |Owned(chains, n)| == TotalLength(chains[..n])
  {
    if n > 0 {
      OwnedSize(chains, n - 1);
      ChainOfDisjoint(chains, n - 1);
      DistinctSize(chains[n - 1]);
      OwnedApart(chains, n);
      assert chains[..n][..n - 1] == chains[..n - 1];
    }
  }

  lemma {:induction false} DistinctSize(ch: seq<nat>)
    requires Distinct(ch)
    ensures |Elements(ch)| == |ch|
  {
    if ch != [] {
      var k := |ch| - 1;
      DistinctSize(ch[..k]);
      assert Elements(ch) == Elements(ch[..k]) + {ch[k]};
      assert ch[k] !in ch[..k];
    }
  }

  ghost function UsedBelow(fat: seq<nat>, n: nat): set<nat>
    requires n <= |fat|
  {
    set c | 2 <= c < n && fat[c] != 0
  }

  lemma {:induction false} UsedAndFree(fat: seq<nat>, n: nat)
    requires 2 <= n <= |fat|
    ensures |UsedBelow(fat, n)| + FreeBelow(fat, n) == n - 2
  {
    if n == 2 {
      assert UsedBelow(fat, n) == {};
    } else {
      UsedAndFree(fat, n - 1);
      assert UsedBelow(fat, n) == UsedBelow(fat, n - 1) + if fat[n - 1] != 0 then {n - 1} else {};
    }
  }

  lemma UsedIsOwned(v: Volume, chains: seq<seq<nat>>, other: set<nat>)
    requires Partition(v, chains, other) && forall c :: c in other ==> 2 <= c < |v.fat|
    ensures UsedBelow(v.fat, |v.fat|) == Owned(chains, |chains|) + other && Owned(chains, |chains|) !! other
  {
    forall c: nat
      ensures c in Owned(chains, |chains|) <==> InChains(chains, c)
      ensures c in Owned(chains, |chains|) ==> 2 <= c < |v.fat| && c !in other
    {
      OwnedBy(chains, |chains|, c);
    }
  }

  /** Free clusters, clusters of files and the other ones make up the volume, whatever was done. */
  lemma ClustersConserved(v: Volume, chains: seq<seq<nat>>, other: set<nat>)
    requires Structure(v, chains, other) && |v.fat| >= 2 && forall c :: c in other ==> 2 <= c < |v.fat|
    ensures FreeCount(v.fat) + TotalLength(chains) + |other| == |v.fat| - 2
  {
    UsedAndFree(v.fat, |v.fat|);
    OwnedSize(chains, |chains|);
    assert chains[..|chains|] == chains;
    UsedIsOwned(v, chains, other);
  }
}
