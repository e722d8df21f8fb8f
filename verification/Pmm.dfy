/** The physical memory manager (pmm.c): one bit per 4 KB frame, and a running count of the used
    frames. Address 0 is the source's NULL. */
module Pmm {

  const BLOCK_SIZE := 4096
  const MAX_BLOCKS := 8192

  /** How many of the frames are marked used. */
  function UsedCount(bits: seq<bool>): (n: nat)
    ensures n <= |bits|
  {
    if bits == [] then 0 else UsedCount(bits[..|bits| - 1]) + if bits[|bits| - 1] then 1 else 0
  }

  lemma {:induction false} UsedCountUpdate(bits: seq<bool>, f: nat, used: bool)
    requires f < |bits|
    ensures UsedCount(bits[f := used]) ==
            UsedCount(bits) + (if used then 1 else 0) - (if bits[f] then 1 else 0)
  {
    var n := |bits| - 1;
    if f < n {
      UsedCountUpdate(bits[..n], f, used);
      assert bits[f := used][..n] == bits[..n][f := used];
    } else {
      assert bits[f := used][..n] == bits[..n];
    }
  }

  /** `count` free frames in a row above frame 0, starting at `start`. */
  predicate IsRun(bits: seq<bool>, start: nat, count: nat)
  {
    && 1 <= start && start + count <= |bits|
    && forall f :: start <= f < start + count ==> !bits[f]
  }

  lemma {:induction false} RunIsBounded(bits: seq<bool>, start: nat, count: nat)
    requires IsRun(bits, start, count)
    ensures count <= |bits| - UsedCount(bits)
  {
    var n := |bits| - 1;
    if start + count == |bits| {
      if count > 0 {
        RunIsBounded(bits[..n], start, count - 1);
      }
    } else {
      RunIsBounded(bits[..n], start, count);
    }
  }

  lemma {:induction false} FreeRunSplits(bits: seq<bool>, start: nat, count: nat)
    requires IsRun(bits, start, count)
    ensures UsedCount(Filled(bits, start, count)) == UsedCount(bits) + count
  {
    if count == 0 {
      assert Filled(bits, start, count) == bits;
    } else {
      FreeRunSplits(bits, start, count - 1);
      var b := Filled(bits, start, count - 1);
      UsedCountUpdate(b, start + count - 1, true);
      assert Filled(bits, start, count) == b[start + count - 1 := true];
    }
  }

  /** The bitmap with `count` frames from `start` marked used. */
  function Filled(bits: seq<bool>, start: nat, count: nat): (r: seq<bool>)
    requires start + count <= |bits|
    ensures |r| == |bits|
    ensures forall f :: 0 <= f < |bits| ==> r[f] == (start <= f < start + count || bits[f])
  {
    seq(|bits|, f requires 0 <= f < |bits| => start <= f < start + count || bits[f])
  }

  /** The bitmap with `count` frames from `start` marked free. */
  function Cleared(bits: seq<bool>, start: nat, count: nat): (r: seq<bool>)
    requires start + count <= |bits|
    ensures |r| == |bits|
    ensures forall f :: 0 <= f < |bits| ==> r[f] == (!(start <= f < start + count) && bits[f])
  {
    seq(|bits|, f requires 0 <= f < |bits| => !(start <= f < start + count) && bits[f])
  }

  class FrameAllocator {
    const bitmap: array<bool>
    var usedBlocks: nat

    /** The managed part of the bitmap: max_blocks bits. */
    ghost function Bits(): seq<bool>
      reads bitmap
    {
      bitmap[..]
    }

    /** The count of used frames is exact, and frame 0 is never free. */
    ghost predicate Valid()
      reads this, bitmap
    {
      && bitmap.Length <= MAX_BLOCKS
      && usedBlocks == UsedCount(Bits())
      && (bitmap.Length > 0 ==> bitmap[0])
    }

    /** pmm_init: every frame starts reserved. */
    constructor (memSizeKb: nat)
      ensures Valid() && fresh(bitmap)
      ensures bitmap.Length == if memSizeKb / 4 > MAX_BLOCKS then MAX_BLOCKS else memSizeKb / 4
      ensures usedBlocks == bitmap.Length
    {
      var blocks := if memSizeKb / 4 > MAX_BLOCKS then MAX_BLOCKS else memSizeKb / 4;
      bitmap := new bool[blocks](_ => true);
      usedBlocks := blocks;
      new;
      AllUsed(bitmap[..]);
    }

    static lemma {:induction false} AllUsed(bits: seq<bool>)
      requires forall f :: 0 <= f < |bits| ==> bits[f]
      ensures UsedCount(bits) == |bits|
    {
      if bits != [] {
        AllUsed(bits[..|bits| - 1]);
      }
    }

    /** mmap_first_free_run: the lowest run of `count` free frames above frame 0. */
    method FirstFreeRun(count: nat) returns (found: bool, start: nat)
      requires Valid()
      ensures found ==> count > 0 && IsRun(Bits(), start, count)
      ensures count > 0 ==> forall s: nat :: IsRun(Bits(), s, count) ==> found && start <= s
    {
      start, found := 0, false;
      if count == 0 || count > bitmap.Length {
        return;
      }
      var length := 0;
      var frame := 1;
      while frame < bitmap.Length
        invariant 1 <= frame <= bitmap.Length
        invariant length < count && length < frame
        invariant length > 0 ==> start == frame - length
        invariant forall f :: frame - length <= f < frame ==> !bitmap[f]
        invariant forall s: nat :: IsRun(Bits(), s, count) ==> s >= frame - length
      {
        if !bitmap[frame] {
          if length == 0 {
            start := frame;
          }
          length := length + 1;
          if length == count {
            return true, start;
          }
        } else {
          assert forall s: nat :: IsRun(Bits(), s, count) ==> !(s <= frame < s + count);
          length := 0;
        }
        frame := frame + 1;
      }
    }

    method MarkRun(start: nat, count: nat)
      requires start + count <= bitmap.Length
      modifies bitmap
      ensures Bits() == Filled(old(Bits()), start, count)
    {
      for i := 0 to count
        invariant forall f :: 0 <= f < bitmap.Length ==> bitmap[f] == (start <= f < start + i || old(bitmap[f]))
      {
        bitmap[start + i] := true;
      }
    }

    /** pmm_alloc_blocks: refuses exactly when no run of free frames is long enough, and
        otherwise takes the lowest such run and nothing else. The result is a frame number. */
    method AllocBlocks(count: nat) returns (first: nat)
      requires Valid()
      modifies this`usedBlocks, bitmap
      ensures Valid()
      ensures first == 0 ==> Bits() == old(Bits())
      ensures first == 0 ==> count == 0 || forall s: nat :: !IsRun(old(Bits()), s, count)
      ensures first != 0 ==> count > 0 && IsRun(old(Bits()), first, count)
      ensures first != 0 ==> forall s: nat :: IsRun(old(Bits()), s, count) ==> first <= s
      ensures first != 0 ==> Bits() == Filled(old(Bits()), first, count)
    {
      if count == 0 || count > bitmap.Length - usedBlocks {
        forall s: nat | IsRun(Bits(), s, count)
          ensures count == 0
        {
          RunIsBounded(Bits(), s, count);
        }
        return 0;
      }
      var found, start := FirstFreeRun(count);
      if !found {
        return 0;
      }
      FreeRunSplits(Bits(), start, count);
      MarkRun(start, count);
      usedBlocks := usedBlocks + count;
      first := start;
    }

    /** The loop body shared by pmm_init_region and pmm_free_blocks. */
    method ReleaseFrame(f: nat)
      requires f < bitmap.Length && usedBlocks == UsedCount(Bits())
      modifies this`usedBlocks, bitmap
      ensures usedBlocks == UsedCount(Bits())
      ensures Bits() == old(Bits())[f := false]
    {
      if bitmap[f] {
        UsedCountUpdate(Bits(), f, false);
        bitmap[f] := false;
        usedBlocks := usedBlocks - 1;
        assert Bits() == old(Bits())[f := false];
      }
    }

    method ReleaseRun(first: nat, count: nat)
      requires first + count <= bitmap.Length && usedBlocks == UsedCount(Bits())
      modifies this`usedBlocks, bitmap
      ensures usedBlocks == UsedCount(Bits())
      ensures Bits() == Cleared(old(Bits()), first, count)
    {
      for i := 0 to count
        invariant usedBlocks == UsedCount(Bits())
        invariant forall f :: 0 <= f < bitmap.Length ==> bitmap[f] == (!(first <= f < first + i) && old(bitmap[f]))
      {
        ReleaseFrame(first + i);
      }
    }

    /** pmm_free_blocks: a malformed request changes nothing; any other returns its whole range,
        and a frame that was free already is not counted twice. */
    method FreeBlocks(addr: nat, count: nat)
      requires Valid()
      modifies this`usedBlocks, bitmap
      ensures Valid()
      ensures Bits() == if addr != 0 && addr % BLOCK_SIZE == 0 && addr / BLOCK_SIZE + count <= bitmap.Length
                        then Cleared(old(Bits()), addr / BLOCK_SIZE, count) else old(Bits())
    {
      if addr == 0 || count == 0 || addr % BLOCK_SIZE != 0 {
        return;
      }
      var first := addr / BLOCK_SIZE;
      if first == 0 || first >= bitmap.Length || count > bitmap.Length - first {
        return;
      }
      ReleaseRun(first, count);
    }

    /** pmm_init_region: frames lying wholly inside the region become free, frame 0 never does,
        and the count of used frames follows. */
    method InitRegion(base: nat, size: nat)
      requires Valid()
      modifies this`usedBlocks, bitmap
      ensures Valid()
      ensures forall f: nat :: f < bitmap.Length ==>
                (bitmap[f] <==>
                  old(bitmap[f]) && !(0 < f && base <= f * BLOCK_SIZE && (f + 1) * BLOCK_SIZE <= base + size))
    {
      var start := base / BLOCK_SIZE;
      if base % BLOCK_SIZE != 0 {
        start := start + 1;
      }
      var end := (base + size) / BLOCK_SIZE;
      if end > bitmap.Length {
        end := bitmap.Length;
      }
      var frame := start;
      while frame < end
        invariant start <= frame && (frame <= end || frame == start)
        invariant usedBlocks == UsedCount(Bits())
        invariant forall f :: 0 <= f < bitmap.Length ==> bitmap[f] == (old(bitmap[f]) && !(start <= f < frame))
      {
        ReleaseFrame(frame);
        frame := frame + 1;
      }
      if bitmap.Length > 0 && !bitmap[0] {
        UsedCountUpdate(Bits(), 0, true);
        ghost var before := Bits();
        bitmap[0] := true;
        usedBlocks := usedBlocks + 1;
        assert Bits() == before[0 := true];
      }
    }
  }
}
