/** What the FAT16 driver's definitions amount to: a file is its clusters one behind the other, a
    write stops only where the volume is full, and names and attributes are those of the Microsoft
    FAT specification (fat16.c:120-216, 334-340, 387-503). */
module FatLaws {
  import opened Common
  import opened FatChains
  import opened FatWrite
  import opened FatNames
  import opened FatDirectory
  import opened FatFiles

  // ---------------------------------------------------------------- contents

  function Clusters(v: Volume, ch: seq<nat>): (r: seq<seq<Byte>>)
    requires forall i :: 0 <= i < |ch| ==> ch[i] < |v.data|
    ensures |r| == |ch| && forall i :: 0 <= i < |ch| ==> r[i] == v.data[ch[i]]
  {
    seq(|ch|, i requires 0 <= i < |ch| => v.data[ch[i]])
  }

  /** A file is the beginning of its clusters, one behind the other in the order of the chain. */
  lemma FileIsItsClusters(v: Volume, first: nat, ch: seq<nat>, length: nat)
    requires Shape(v) && Chain(v.fat, first, ch) && length <= |ch| * v.bpc
    ensures length <= |Flat(Clusters(v, ch))| && Content(v, ch, length) == Flat(Clusters(v, ch))[..length]
  {
    var parts := Clusters(v, ch);
    FlatSize(parts, v.bpc);
    forall k: nat | k < length
      ensures ByteAt(v, ch, k) == Flat(parts)[k]
    {
      ByteOfCluster(v, ch, parts, k);
    }
  }

  lemma ByteOfCluster(v: Volume, ch: seq<nat>, parts: seq<seq<Byte>>, k: nat)
    requires v.bpc > 0 && |parts| == |ch| && k < |ch| * v.bpc
    requires forall i :: 0 <= i < |ch| ==> ch[i] < |v.data| && parts[i] == v.data[ch[i]] && |parts[i]| == v.bpc
    ensures k < |Flat(parts)| && ByteAt(v, ch, k) == Flat(parts)[k]
  {
    var i, r := k / v.bpc, k % v.bpc;
    assert k == v.bpc * i + r;
    if i >= |ch| {
      MulMonotone(|ch|, i, v.bpc);
      assert false;
    }
    FlatAt(parts, v.bpc, i);
    assert Flat(parts)[v.bpc * i..v.bpc * i + v.bpc][r] == parts[i][r];
  }

  // ---------------------------------------------------------------- how much is written

  /** The clusters of the other files. */
  ghost function Elsewhere(chains: seq<seq<nat>>, e: nat): int
    requires e < |chains|
  {
    TotalLength(chains) - |chains[e]|
  }

  /** A write stores everything if file and data fit into the clusters that neither another file nor
      anything else occupies, and otherwise what fits. */
  lemma WriteFillsVolume(v: Volume, chains: seq<seq<nat>>, other: set<nat>, e: nat, offset: nat, size: nat)
    requires Wf(v, chains, other) && |v.fat| >= 2 && (forall c :: c in other ==> 2 <= c < |v.fat|) && e < |chains|
    ensures var room := (|v.fat| - 2 - |other| - Elsewhere(chains, e)) * v.bpc;
            WriteAmount(v, chains[e], offset, size) ==
              if offset + size <= room then size else if offset < room then room - offset else 0
  {
    ClustersConserved(v, chains, other);
  }

  // ---------------------------------------------------------------- names

  predicate IsLetter(c: Byte)
  {
    0x41 <= c <= 0x5A || 0x61 <= c <= 0x7A
  }

  /** The same but for the case of an ASCII letter. */
  predicate SameLetter(a: Byte, b: Byte)
  {
    a == b || (IsLetter(a) && IsLetter(b) && (a as int - b as int == 32 || b as int - a as int == 32))
  }

  /** Names are compared without regard to case. */
  lemma NameEqIff(a: seq<Byte>, b: seq<Byte>)
    ensures NameEq(a, b) <==> |a| == |b| && forall i :: 0 <= i < |a| ==> SameLetter(a[i], b[i])
  {
    if NameEq(a, b) {
      forall i | 0 <= i < |a|
        ensures SameLetter(a[i], b[i])
      {
        assert LowerAll(a)[i] == LowerAll(b)[i];
      }
    }
  }

  /** A part of a name field: the part in capitals, followed by spaces. */
  predicate Capitals(part: seq<Byte>, s: seq<Byte>)
  {
    && |s| <= |part|
    && forall i :: 0 <= i < |part| ==>
         !(0x61 <= part[i] <= 0x7A) && if i < |s| then SameLetter(part[i], s[i]) else part[i] == 0x20
  }

  /** A name field holds the base in its first eight bytes and the extension in the last three. */
  lemma FieldIsCapital(base: seq<Byte>, ext: seq<Byte>)
    requires 0 < |base| <= 8 && |ext| <= 3 && DOT !in ext
    ensures var r := Make83(base + [DOT] + ext);
            r.Some? && Capitals(r.value[..8], base) && Capitals(r.value[8..], ext)
    ensures DOT !in base ==> Make83(base) == Make83(base + [DOT])
  {
    Parted(base, ext);
    Parted(base, []);
    assert base + [DOT] + [] == base + [DOT];
    var field := Make83(base + [DOT] + ext).value;
    assert field[..8] == Padded(base, 8) && field[8..] == Padded(ext, 3);
  }

  lemma Parted(base: seq<Byte>, ext: seq<Byte>)
    requires DOT !in ext
    ensures Base(base + [DOT] + ext) == base && Ext(base + [DOT] + ext) == ext
    ensures DOT !in base ==> Base(base) == base && Ext(base) == []
  {
    var s := base + [DOT] + ext;
    assert s[|base|] == DOT;
    assert forall i :: |base| < i < |s| ==> s[i] == ext[i - |base| - 1];
    assert LastDot(s) == |base|;
  }

  // ---------------------------------------------------------------- attributes

  function Bit(on: bool, weight: nat): nat
  {
    if on then weight else 0
  }

  /** The attribute byte with these flags; the two highest bits mean nothing. */
  function Attributes(readOnly: bool, hidden: bool, system: bool, volume: bool, directory: bool, archive: bool,
                      rest: nat): (r: nat)
  {
    Bit(readOnly, 0x01) + Bit(hidden, 0x02) + Bit(system, 0x04) + Bit(volume, 0x08) + Bit(directory, 0x10) +
      Bit(archive, 0x20) + 0x40 * rest
  }

  /** A directory shows every entry that is in use, not one of the dots, and not a volume label or a
      part of a long name; a file is such an entry that is not a directory. */
  lemma KindOfEntry(d: DirEntry, readOnly: bool, hidden: bool, system: bool, volume: bool, directory: bool,
                    archive: bool, rest: nat)
    requires |d.name| == 11 && rest < 4
    requires d.attr as nat == Attributes(readOnly, hidden, system, volume, directory, archive, rest)
    ensures Listed(d) <==> d.name[0] != 0 && d.name[0] != 0xE5 && d.name[0] != 0x2E && !volume
    ensures d.IsFile() <==> Listed(d) && !directory
  {
  }
}
