/** The root directory of a FAT16 volume (fat16.c): which entries a scan sees, how names are looked
    up, and what creating an entry does to later lookups. */
module FatDirectory {
  import opened Common
  import opened FatChains
  import opened FatNames

  const MAX_DIR_SLOTS := 8192

  /** Every entry holds an 11-byte name field. */
  predicate Entries(dir: seq<DirEntry>)
  {
    forall e :: 0 <= e < |dir| ==> |dir[e].name| == 11
  }

  /** fat16_entry_kind is negative: the scan ends here. */
  predicate IsEnd(d: DirEntry)
    requires |d.name| == 11
  {
    d.name[0] == 0x00
  }

  /** fat16_entry_kind is 1: a file or a directory. */
  predicate Listed(d: DirEntry)
    requires |d.name| == 11
  {
    && d.name[0] != 0x00 && d.name[0] != DELETED && d.name[0] != DOT
    && d.attr as int % 16 != 15 && (d.attr as int / 8) % 2 == 0
  }

  predicate Matches(d: DirEntry, name: seq<Byte>)
    requires |d.name| == 11
  {
    Listed(d) && NameEq(FormatName(d.name), name)
  }

  /** How many slots a scan may look at. */
  function Slots(dir: seq<DirEntry>): nat
  {
    if |dir| < MAX_DIR_SLOTS then |dir| else MAX_DIR_SLOTS
  }

  /** A scan from slot i on for the first entry that satisfies `want`, ending at an end mark. */
  function Scan(dir: seq<DirEntry>, want: DirEntry -> bool, i: nat): (r: Option<nat>)
    requires Entries(dir)
    ensures r.Some? ==> i <= r.value < Slots(dir) && want(dir[r.value]) && !IsEnd(dir[r.value])
    ensures r.Some? ==> forall j :: i <= j < r.value ==> !IsEnd(dir[j]) && !want(dir[j])
    decreases |dir| - i
  {
    if i >= Slots(dir) || IsEnd(dir[i]) then None
    else if want(dir[i]) then Some(i)
    else Scan(dir, want, i + 1)
  }

  function Named(name: seq<Byte>): DirEntry -> bool
  {
    (d: DirEntry) => |d.name| == 11 && Matches(d, name)
  }

  /** The entry fat16_vfs_finddir and fat16_vfs_unlink pick for a name. */
  function Find(dir: seq<DirEntry>, name: seq<Byte>): (r: Option<nat>)
    requires Entries(dir)
    ensures r.Some? ==> r.value < Slots(dir) && Matches(dir[r.value], name)
  {
    Scan(dir, Named(name), 0)
  }

  predicate IsFree(d: DirEntry)
    requires |d.name| == 11
  {
    d.name[0] == 0x00 || d.name[0] == DELETED
  }

  /** fat16_free_slot from slot i on: the first empty or deleted slot. */
  function FreeSlot(dir: seq<DirEntry>, i: nat): (r: Option<nat>)
    requires Entries(dir)
    ensures r.Some? ==> i <= r.value < Slots(dir) && IsFree(dir[r.value])
    ensures forall j :: i <= j < (if r.Some? then r.value else Slots(dir)) ==> !IsFree(dir[j])
    decreases |dir| - i
  {
    if i >= Slots(dir) then None
    else if IsFree(dir[i]) then Some(i)
    else FreeSlot(dir, i + 1)
  }

  /** No end mark lies before slot e. */
  ghost predicate InReach(dir: seq<DirEntry>, e: nat)
    requires Entries(dir)
  {
    e < Slots(dir) && forall j :: 0 <= j < e ==> !IsEnd(dir[j])
  }

  /** Slot e is in reach of a scan and holds a file or a directory. */
  ghost predicate Visible(dir: seq<DirEntry>, e: nat)
    requires Entries(dir)
  {
    InReach(dir, e) && Listed(dir[e])
  }

  /** A scan misses exactly when no slot in reach before the end mark is wanted. */
  lemma {:induction false} ScanMisses(dir: seq<DirEntry>, want: DirEntry -> bool, i: nat)
    requires Entries(dir) && i <= |dir| && forall j :: 0 <= j < i ==> !IsEnd(dir[j])
    ensures Scan(dir, want, i).None? <==> forall e :: i <= e < |dir| && InReach(dir, e) && !IsEnd(dir[e]) ==>
            !want(dir[e])
    decreases |dir| - i
  {
    if i < Slots(dir) && !IsEnd(dir[i]) {
      ScanMisses(dir, want, i + 1);
      assert InReach(dir, i);
    }
  }

  /** A lookup misses exactly when no visible entry has the name. */
  lemma FindMisses(dir: seq<DirEntry>, name: seq<Byte>)
    requires Entries(dir)
    ensures Find(dir, name).None? <==> forall e :: 0 <= e < |dir| && Visible(dir, e) ==> !Matches(dir[e], name)
  {
    ScanMisses(dir, Named(name), 0);
    assert forall e :: 0 <= e < |dir| ==> (Named(name)(dir[e]) <==> Matches(dir[e], name));
  }

  /** A scan picks slot e, when nothing before it stops the scan, exactly when e is wanted. */
  lemma {:induction false} ScanHits(dir: seq<DirEntry>, want: DirEntry -> bool, i: nat, e: nat)
    requires Entries(dir) && i <= e < Slots(dir)
    requires forall j :: i <= j < e ==> !IsEnd(dir[j]) && !want(dir[j])
    ensures Scan(dir, want, i) == Some(e) <==> want(dir[e]) && !IsEnd(dir[e])
    decreases e - i
  {
    if i < e {
      ScanHits(dir, want, i + 1, e);
    }
  }

  /** The entry fat16_vfs_create stores. */
  function FileEntry(field: seq<Byte>): DirEntry
  {
    DirEntry(field, 0x20, 0, 0)
  }

  /** The name can be looked up again: it survives the 8.3 field, which does not begin with a
      deletion mark or a dot. */
  predicate Recoverable(name: seq<Byte>)
  {
    Survives(name) && name != [] && name[0] != DELETED && name[0] != DOT
  }

  lemma FieldFirst(name: seq<Byte>)
    requires Make83(name).Some?
    ensures name != [] && Make83(name).value[0] == Upper(name[0])
  {
    SplitName(name);
    assert Make83(name).value[0] == Padded(Base(name), 8)[0];
  }

  lemma UpperMarks(c: Byte)
    requires c != 0
    ensures Upper(c) != 0 && (Upper(c) == DELETED <==> c == DELETED) && (Upper(c) == DOT <==> c == DOT)
  {
  }

  /** The stored entry is a file exactly if its first byte is no mark. */
  lemma FieldIsFile(name: seq<Byte>, field: seq<Byte>)
    requires Make83(name) == Some(field) && 0 !in name
    ensures name != [] && field[0] == Upper(name[0])
    ensures FileEntry(field).IsFile() <==> name[0] != DELETED && name[0] != DOT
    ensures Listed(FileEntry(field)) <==> name[0] != DELETED && name[0] != DOT
  {
    FieldFirst(name);
    assert name[0] in name;
    UpperMarks(name[0]);
  }

  /** The stored entry is found under the name exactly if the name is recoverable. */
  lemma FieldMatches(name: seq<Byte>, field: seq<Byte>)
    requires Make83(name) == Some(field) && 0 !in name
    ensures name != [] && (Matches(FileEntry(field), name) <==> Recoverable(name))
  {
    FieldIsFile(name, field);
    NameRoundTrip(name);
  }

  lemma FieldStart(name: seq<Byte>)
    requires Make83(name).Some? && 0 !in name
    ensures name != [] && Make83(name).value[0] == Upper(name[0])
    ensures Matches(FileEntry(Make83(name).value), name) <==> Recoverable(name)
    ensures FileEntry(Make83(name).value).IsFile() <==> name[0] != DELETED && name[0] != DOT
  {
    FieldIsFile(name, Make83(name).value);
    FieldMatches(name, Make83(name).value);
  }

  /** A scan for a new name picks the entry just stored for it exactly when the name survives the 8.3
      field and its first byte means neither "deleted" nor "dot entry". */
  lemma StoredIsScanned(dir: seq<DirEntry>, name: seq<Byte>, s: nat)
    requires Entries(dir) && Make83(name).Some? && 0 !in name
    requires Find(dir, name).None? && FreeSlot(dir, 0) == Some(s)
    ensures Entries(dir[s := FileEntry(Make83(name).value)])
    ensures Find(dir[s := FileEntry(Make83(name).value)], name) == Some(s) <==> Recoverable(name)
  {
    var d, want := FileEntry(Make83(name).value), Named(name);
    FieldStart(name);
    assert want(d) <==> Recoverable(name);
    FirstScan(dir, want, s, d);
  }

  lemma FirstScan(dir: seq<DirEntry>, want: DirEntry -> bool, s: nat, d: DirEntry)
    requires Entries(dir) && |d.name| == 11 && !IsEnd(d) && Scan(dir, want, 0).None? && FreeSlot(dir, 0) == Some(s)
    ensures Scan(dir[s := d], want, 0) == Some(s) <==> want(d)
  {
    ScanMisses(dir, want, 0);
    assert forall j :: 0 <= j < s ==> InReach(dir, j);
    ScanHits(dir[s := d], want, 0, s);
  }

  /** No two visible entries have the same name. */
  ghost predicate Unique(dir: seq<DirEntry>)
    requires Entries(dir)
  {
    forall a, b :: 0 <= a < b < |dir| && Visible(dir, a) && Visible(dir, b) ==>
      !NameEq(FormatName(dir[a].name), FormatName(dir[b].name))
  }

  /** Nothing follows an end mark. */
  ghost predicate Terminated(dir: seq<DirEntry>)
    requires Entries(dir)
  {
    forall a, b :: 0 <= a < b < |dir| && IsEnd(dir[a]) ==> IsEnd(dir[b])
  }

  /** Filling the first free slot shows the new entry and hides or shows no other. */
  lemma VisibleAfter(dir: seq<DirEntry>, s: nat, d: DirEntry)
    requires Entries(dir) && Terminated(dir) && FreeSlot(dir, 0) == Some(s) && |d.name| == 11 && !IsEnd(d)
    ensures Entries(dir[s := d]) && Terminated(dir[s := d])
    ensures forall e :: 0 <= e < |dir| && e != s ==> (Visible(dir[s := d], e) <==> Visible(dir, e))
    ensures Visible(dir[s := d], s) <==> Listed(d)
    ensures !Visible(dir, s)
  {
    var dir' := dir[s := d];
    forall e | 0 <= e < |dir| && e != s
      ensures Visible(dir', e) <==> Visible(dir, e)
    {
      assert IsEnd(dir[s]) && e > s ==> IsEnd(dir[e]);
      if Visible(dir, e) {
        assert e < |dir| && dir'[e] == dir[e];
        assert forall j :: 0 <= j < e ==> !IsEnd(dir'[j]);
      }
    }
  }

  /** A visible entry other than the new one bears the name the new entry is shown under. */
  lemma Collides(dir: seq<DirEntry>, s: nat, d: DirEntry, e: nat)
    requires Entries(dir) && Terminated(dir) && FreeSlot(dir, 0) == Some(s)
    requires |d.name| == 11 && !IsEnd(d) && Listed(d)
    requires e < |dir| && Visible(dir, e) && Matches(dir[e], FormatName(d.name))
    ensures Entries(dir[s := d]) && !Unique(dir[s := d])
  {
    var dir' := dir[s := d];
    VisibleAfter(dir, s, d);
    assert e != s;
    assert Visible(dir', e) && Visible(dir', s);
    assert NameEq(FormatName(dir'[e].name), FormatName(dir'[s].name));
    assert NameEq(FormatName(dir'[s].name), FormatName(dir'[e].name));
    assert e < s || s < e;
  }

  /** Storing an entry in the first free slot keeps the names unique exactly when the entry is hidden
      or no visible entry bears the name it is shown under. */
  lemma UniqueIffMissed(dir: seq<DirEntry>, d: DirEntry, s: nat)
    requires Entries(dir) && Terminated(dir) && Unique(dir) && FreeSlot(dir, 0) == Some(s)
    requires |d.name| == 11 && !IsEnd(d)
    ensures Entries(dir[s := d])
    ensures Unique(dir[s := d]) <==> !Listed(d) || Find(dir, FormatName(d.name)).None?
  {
    var dir', name := dir[s := d], FormatName(d.name);
    VisibleAfter(dir, s, d);
    FindMisses(dir, name);
    if Listed(d) && Find(dir, name).Some? {
      var e :| 0 <= e < |dir| && Visible(dir, e) && Matches(dir[e], name);
      Collides(dir, s, d, e);
    } else {
      forall a, b | 0 <= a < b < |dir| && Visible(dir', a) && Visible(dir', b)
        ensures !NameEq(FormatName(dir'[a].name), FormatName(dir'[b].name))
      {
        if a == s {
          assert !Matches(dir[b], name);
        } else if b == s {
          assert !Matches(dir[a], name);
        }
      }
    }
  }

  /** Names that are equal but for case are looked up alike. */
  lemma {:induction false} SameScan(dir: seq<DirEntry>, a: seq<Byte>, b: seq<Byte>, i: nat)
    requires Entries(dir) && NameEq(a, b)
    ensures Scan(dir, Named(a), i) == Scan(dir, Named(b), i)
    decreases |dir| - i
  {
    if i < Slots(dir) {
      SameScan(dir, a, b, i + 1);
    }
  }
}
