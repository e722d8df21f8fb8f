/** What DiskFS accepts, said of the files that a user sees (diskfs.c:339-376, 500-559); how a file
    lies in its sectors; what the checksum notices and what the generation counts (diskfs.c:70-81, 271-280). */
module DiskLaws {
  import opened Common
  import opened DiskTable
  import opened DiskImage
  import opened DiskSteps
  import opened DiskRuns

  // ---------------------------------------------------------------- what is accepted

  /** The buffer starts with this C string. */
  ghost predicate Spells(buffer: seq<Byte>, text: seq<Byte>)
  {
    && |text| <= |buffer| && buffer[..|text|] == text && 0 !in text
    && (|text| < |buffer| ==> buffer[|text|] == 0)
  }

  lemma SpellsIff(buffer: seq<Byte>, text: seq<Byte>)
    ensures Spells(buffer, text) <==> Text(buffer) == text
  {
    if Spells(buffer, text) {
      TextStarts(buffer, |text|);
    }
    TextIsSpelt(buffer);
  }

  lemma {:induction false} TextIsSpelt(buffer: seq<Byte>)
    ensures Spells(buffer, Text(buffer))
  {
    if buffer != [] && buffer[0] != 0 {
      TextIsSpelt(buffer[1..]);
      var text := Text(buffer[1..]);
      assert buffer[..|text| + 1] == [buffer[0]] + buffer[1..][..|text|];
    }
  }

  /** Some file or directory of that name is there already. */
  ghost predicate Taken(v: Nodes, parent: Byte, text: seq<Byte>)
  {
    exists i :: 0 <= i < 16 && v[i].Some? && v[i].value.parent == parent && v[i].value.name == text
  }

  ghost predicate HoldsSome(v: Nodes, index: nat)
  {
    exists i :: 0 <= i < 16 && v[i].Some? && v[i].value.parent as nat == index
  }

  predicate IsNode(v: Nodes, index: nat, kind: Byte)
  {
    index < 16 && v[index].Some? && v[index].value.kind == kind
  }

  /** A call on these files, so many times open each, is to be carried out. */
  ghost predicate Admits(v: Nodes, open: seq<nat>, call: Call)
    requires |open| == 16
  {
    match call
    case Create(parent, name, kind) =>
      && (exists i :: 0 <= i < 16 && v[i].None?) && (kind == 1 || kind == 2)
      && 0 < |Text(name)| < 32 && 0x2F !in Text(name) && !Taken(v, parent, Text(name))
      && (parent == 255 || IsNode(v, parent as nat, 2))
    case Remove(index, what) => IsNode(v, index, what) && open[index] == 0 && (what == 2 ==> !HoldsSome(v, index))
    case Write(slot, offset, data) => IsNode(v, slot, 1) && offset + |data| <= 2048
    case Format => forall i :: 0 <= i < 16 ==> open[i] == 0
    case _ => true
  }

  lemma FreeIff(st: State)
    ensures FirstFree(st.entries, 0) < SLOTS <==>
            exists i :: 0 <= i < 16 && View(st.disk.sectors, st.entries)[i].None?
  {
    var v := View(st.disk.sectors, st.entries);
    assert forall i :: 0 <= i < SLOTS ==> (v[i].None? <==> st.entries[i].used == 0);
  }

  lemma TakenIff(st: State, parent: Byte, name: seq<Byte>)
    ensures (exists i :: 0 <= i < SLOTS && Named(st.entries[i], parent, name)) <==>
            Taken(View(st.disk.sectors, st.entries), parent, Text(name))
  {
    var v := View(st.disk.sectors, st.entries);
    if i :| 0 <= i < SLOTS && Named(st.entries[i], parent, name) {
      assert v[i].Some? && v[i].value.parent == parent && v[i].value.name == Text(name);
    }
  }

  lemma CreateIff(st: State, parent: Byte, name: seq<Byte>, kind: Byte)
    requires |st.refs| == SLOTS && st.mounted
    ensures MayCreate(st, parent, name, kind) && FirstFree(st.entries, 0) < SLOTS <==>
            Admits(View(st.disk.sectors, st.entries), st.refs, Create(parent, name, kind))
  {
    FreeIff(st);
    TakenIff(st, parent, name);
  }

  lemma RemoveIff(st: State, index: nat, kind: Byte)
    requires Inv(st) && st.mounted
    ensures MayRemove(st, index, kind) <==> Admits(View(st.disk.sectors, st.entries), st.refs, Remove(index, kind))
  {
    var v := View(st.disk.sectors, st.entries);
    if i :| 0 <= i < SLOTS && ChildOf(st.entries[i], index) {
      assert v[i].Some? && v[i].value.parent as nat == index;
    }
  }

  lemma WriteIff(st: State, index: nat, offset: nat, data: seq<Byte>)
    requires |st.refs| == SLOTS
    ensures MayWrite(st.entries, index, offset, |data|) <==>
            Admits(View(st.disk.sectors, st.entries), st.refs, Write(index, offset, data))
  {
  }

  /** On a mounted volume only admitted calls succeed, and the others change nothing at all. */
  lemma OnlyAdmitted(st: State, call: Call, ok: bool, st': State)
    requires Inv(st) && st.mounted && Next(st, call, ok, st')
    ensures ok ==> Admits(View(st.disk.sectors, st.entries), st.refs, call)
    ensures !Admits(View(st.disk.sectors, st.entries), st.refs, call) ==> st' == st
  {
    match call
    case Create(parent, name, kind) => CreateIff(st, parent, name, kind);
    case Remove(index, kind) => RemoveIff(st, index, kind);
    case Write(index, offset, data) => WriteIff(st, index, offset, data);
    case _ =>
  }

  lemma RunIsAdmitted(calls: seq<Call>, oks: seq<bool>, states: seq<State>, i: nat)
    requires IsRun(calls, oks, states) && i < |calls| && states[i].mounted
    ensures |states[i].refs| == SLOTS
    ensures oks[i] ==> Admits(FilesOf(states[i]).seen, states[i].refs, calls[i])
    ensures !Admits(FilesOf(states[i]).seen, states[i].refs, calls[i]) ==> states[i + 1] == states[i]
  {
    RunKeepsInv(calls, oks, states, i);
    OnlyAdmitted(states[i], calls[i], oks[i], states[i + 1]);
  }

  // ---------------------------------------------------------------- where a file lies

  /** A file is the beginning of its four sectors, one behind the other. */
  lemma FileIsItsSectors(img: seq<seq<Byte>>, index: nat, length: nat)
    requires Whole(img) && index < 16 && |img| >= 80 && length <= 2048
    ensures Content(img, index, length) ==
      (img[16 + 4 * index] + img[17 + 4 * index] + img[18 + 4 * index] + img[19 + 4 * index])[..length]
  {
    var a, b, c, d := img[16 + 4 * index], img[17 + 4 * index], img[18 + 4 * index], img[19 + 4 * index];
    forall x: nat | x < length
      ensures ByteAt(img, index, x) == (a + b + c + d)[x]
    {
      assert x == 512 * (x / 512) + x % 512;
    }
  }

  // ---------------------------------------------------------------- the checksum

  /** The exclusive or of machine words. */
  function Xor(words: seq<bv32>): bv32
  {
    if words == [] then 0 else Xor(words[..|words| - 1]) ^ words[|words| - 1]
  }

  lemma {:induction false} XorFrom(word: bv32, words: seq<bv32>)
    ensures Xor([word] + words) == word ^ Xor(words)
  {
    if words != [] {
      var all := [word] + words;
      assert all[..|all| - 1] == [word] + words[..|words| - 1];
      XorFrom(word, words[..|words| - 1]);
    } else {
      assert ([word] + words)[..0] == [];
    }
  }

  lemma {:induction false} MixedIsXor(seed: bv32, words: seq<bv32>)
    ensures Mixed(seed, words) == seed ^ Xor(words)
    decreases |words|
  {
    if words != [] {
      MixedIsXor(seed ^ words[0], words[1..]);
      assert words == [words[0]] + words[1..];
      XorFrom(words[0], words[1..]);
    }
  }

  lemma {:induction false} XorNotices(words: seq<bv32>, k: nat, b: bv32)
    requires k < |words| && words[k] != b
    ensures Xor(words[k := b]) != Xor(words)
  {
    var n := |words| - 1;
    if k == n {
      assert words[k := b][..n] == words[..n];
    } else {
      assert words[k := b][..n] == words[..n][k := b];
      XorNotices(words[..n], k, b);
    }
  }

  /** The checksum of words one of which has been damaged. */
  lemma MixedNotices(words: seq<bv32>, k: nat, b: bv32)
    requires k < |words| && words[k] != b
    ensures Mixed(SEED, words[k := b]) as Long != Mixed(SEED, words) as Long
  {
    XorNotices(words, k, b);
    MixedIsXor(SEED, words);
    MixedIsXor(SEED, words[k := b]);
    SameWord(Mixed(SEED, words), Mixed(SEED, words[k := b]));
  }

  lemma SameWord(a: bv32, b: bv32)
    ensures a as Long == b as Long ==> a == b
  {
    BackToWord(a);
    BackToWord(b);
  }

  lemma BackToWord(a: bv32)
    ensures (a as Long) as bv32 == a
  {
  }

  /** A superblock is not mounted once one of its words has been damaged. */
  lemma DamageIsNoticed(s: Superblock, s': Superblock, k: nat, b: bv32, count: nat)
    requires SuperblockOk(s, count) && k < 9 && Machine(Covered(s))[k] != b && s'.checksum == s.checksum
    requires Machine(Covered(s')) == Machine(Covered(s))[k := b]
    ensures !SuperblockOk(s', count)
  {
    MixedNotices(Machine(Covered(s)), k, b);
  }

  // ---------------------------------------------------------------- the generation

  /** The call wrote the tables. */
  predicate Changes(call: Call)
  {
    call.Create? || call.Remove? || (call.Write? && call.data != [])
  }

  /** One, and one more for every change since the volume was formatted. */
  function Count(calls: seq<Call>, oks: seq<bool>, i: nat): nat
    requires |oks| == |calls| && i <= |calls|
  {
    if i == 0 || (calls[i - 1] == Format && oks[i - 1]) then 1
    else if oks[i - 1] && Changes(calls[i - 1]) then Count(calls, oks, i - 1) + 1
    else Count(calls, oks, i - 1)
  }

  /** What a call makes of a generation. */
  function After(generation: nat, call: Call, ok: bool): nat
  {
    if call == Format && ok then 1
    else if ok && Changes(call) then (generation + 1) % 0x1_0000_0000
    else generation
  }

  lemma StoresGeneration(st: State, sb: Superblock, t: Table, ok: bool, st': State)
    requires Stores(st, sb, t, ok, st') && st'.mounted
    ensures ok && st'.sb.generation == sb.generation
  {
  }

  lemma CreateGeneration(st: State, parent: Byte, name: seq<Byte>, kind: Byte, ok: bool, st': State)
    requires st'.mounted && Creates(st, parent, name, kind, ok, st')
    ensures st'.sb.generation == if ok then Bumped(st.sb).generation else st.sb.generation
  {
    var i := FirstFree(st.entries, 0);
    if MayCreate(st, parent, name, kind) && i < SLOTS {
      StoresGeneration(st, Bumped(st.sb), st.entries[i := NewEntry(parent, name, kind)], ok, st');
    }
  }

  lemma RemoveGeneration(st: State, index: nat, kind: Byte, ok: bool, st': State)
    requires st'.mounted && Removes(st, index, kind, ok, st')
    ensures st'.sb.generation == if ok then Bumped(st.sb).generation else st.sb.generation
  {
    if MayRemove(st, index, kind) {
      StoresGeneration(st, Bumped(st.sb), st.entries[index := UNUSED], ok, st');
    }
  }

  lemma WriteGeneration(st: State, index: nat, offset: nat, data: seq<Byte>, ok: bool, st': State)
    requires st'.mounted && Alters(st, index, offset, data, ok, st')
    ensures st'.sb.generation == if ok && data != [] then Bumped(st.sb).generation else st.sb.generation
  {
  }

  lemma FormatGeneration(st: State, ok: bool, st': State)
    requires st'.mounted && Formats(st, ok, st')
    ensures st'.sb.generation == if ok then 1 else st.sb.generation
  {
    if st.available && NoneOpen(st.refs) && st.count >= REQUIRED {
      StoresGeneration(st, FreshSuperblock(st.count as Long), EmptyTable(), ok, st');
    }
  }

  lemma MountGeneration(st: State, call: Call, ok: bool, st': State)
    requires Inv(st) && Durable(st) && st.mounted && st'.mounted && Next(st, call, ok, st')
    requires call == Mount || call == Reboot
    ensures st'.sb.generation == st.sb.generation
  {
    if call == Mount {
      var read :| Mounts(st, read, ok, st');
      MountsKeepsInv(st, read, ok, st');
    } else {
      var read :| Reboots(st, read, ok, st');
      RebootsKeepsInv(st, read, ok, st');
    }
  }

  lemma GenerationStep(st: State, call: Call, ok: bool, st': State)
    requires Inv(st) && Durable(st) && st.mounted && st'.mounted && Next(st, call, ok, st')
    ensures st'.sb.generation as nat == After(st.sb.generation as nat, call, ok)
  {
    match call
    case Create(parent, name, kind) => CreateGeneration(st, parent, name, kind, ok, st');
    case Remove(index, kind) => RemoveGeneration(st, index, kind, ok, st');
    case Write(index, offset, data) => WriteGeneration(st, index, offset, data, ok, st');
    case Format => FormatGeneration(st, ok, st');
    case Open(_) =>
    case Close(_) =>
    case _ => MountGeneration(st, call, ok, st');
  }

  lemma {:induction false} CountsUp(calls: seq<Call>, oks: seq<bool>, generations: seq<nat>, i: nat)
    requires |oks| == |calls| && |generations| == |calls| + 1 && 1 <= i <= |calls|
    requires calls[0] == Format && oks[0] && generations[1] == 1
    requires forall k :: 1 <= k < |calls| ==> generations[k + 1] == After(generations[k], calls[k], oks[k])
    ensures generations[i] == Count(calls, oks, i) % 0x1_0000_0000
  {
    if i > 1 {
      CountsUp(calls, oks, generations, i - 1);
      assert generations[i - 1 + 1] == After(generations[i - 1], calls[i - 1], oks[i - 1]);
    }
  }

  ghost function Generations(states: seq<State>): (r: seq<nat>)
    ensures |r| == |states| && forall i :: 0 <= i < |states| ==> r[i] == states[i].sb.generation as nat
  {
    seq(|states|, i requires 0 <= i < |states| => states[i].sb.generation as nat)
  }

  /** In every run on a formatted volume that stays mounted, with calls refused, transfers of data
      failing and power cuts, the generation counts the changes, modulo 2 to the 32. */
  lemma GenerationCounts(calls: seq<Call>, oks: seq<bool>, states: seq<State>, i: nat)
    requires StaysMounted(calls, oks, states) && 1 <= i <= |calls|
    ensures states[i].sb.generation as nat == Count(calls, oks, i) % 0x1_0000_0000
  {
    var generations := Generations(states);
    forall k | 1 <= k < |calls|
      ensures generations[k + 1] == After(generations[k], calls[k], oks[k])
    {
      MountedIsDurable(calls, oks, states, k);
      GenerationStep(states[k], calls[k], oks[k], states[k + 1]);
    }
    FormatGeneration(states[0], oks[0], states[1]);
    CountsUp(calls, oks, generations, i);
  }
}
