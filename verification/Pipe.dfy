/** One pipe (pipe.c) and the tasks using it. Code between two blocking points runs with interrupts
    off, so it is one step; readers and writers interleave step by step in any order. */
module Pipe {
  import opened Common

  const BUF_SIZE := 4096

  /** The pipe: the bytes in the ring, the two reference counts, and how often it was freed. */
  datatype Core = Core(queue: seq<Byte>, readers: nat, writers: nat, frees: nat)

  /** Which of the two wait channels a step signals. */
  datatype Wakes = Wakes(data: bool, space: bool)

  /** How a task leaves a step: done with a result, parked with `put` bytes stored, or killed. */
  datatype Outcome<T> = Finished(result: T) | Parked(put: nat) | Exited

  datatype Turn<T> = Turn(core: Core, outcome: Outcome<T>, wakes: Wakes)

  function Min(a: int, b: int): int
  {
    if a < b then a else b
  }

  /** pipe_close_read. */
  function CloseR(c: Core): (c': Core)
  {
    var r := if c.readers > 0 then c.readers - 1 else 0;
    c.(readers := r, frees := c.frees + if r == 0 && c.writers == 0 then 1 else 0)
  }

  /** pipe_close_write. */
  function CloseW(c: Core): (c': Core)
  {
    var w := if c.writers > 0 then c.writers - 1 else 0;
    c.(writers := w, frees := c.frees + if c.readers == 0 && w == 0 then 1 else 0)
  }

  /** pipe_read from the test of its wait loop to its end or to the next block. */
  function ReadTurn(c: Core, len: nat, killed: bool): Turn<seq<Byte>>
  {
    if |c.queue| == 0 && c.writers > 0 then
      if killed then Turn(CloseR(c), Exited, Wakes(false, CloseR(c).readers == 0))
        else Turn(c, Parked(0), Wakes(false, false))
    else
      var n := Min(len, |c.queue|);
      var c' := CloseR(c.(queue := c.queue[n..]));
      Turn(c', Finished(c.queue[..n]), Wakes(false, n > 0 || c'.readers == 0))
  }

  /** How many bytes of a write with `left` bytes to go fit now. */
  function Fits(c: Core, left: nat): (n: nat)
    requires |c.queue| <= BUF_SIZE
    ensures n <= left
  {
    if c.readers == 0 then 0 else Min(left, BUF_SIZE - |c.queue|)
  }

  /** pipe_write from the head of its loop to its end or to the next block. */
  function WriteTurn(c: Core, data: seq<Byte>, put: nat, killed: bool): Turn<nat>
    requires put <= |data| && |c.queue| <= BUF_SIZE
  {
    var n := Fits(c, |data| - put);
    var c1 := c.(queue := c.queue + data[put..put + n]);
    var c' := CloseW(c1);
    if put + n == |data| || c.readers == 0 then Turn(c', Finished(put + n), Wakes(n > 0 || c'.writers == 0, false))
    else if killed then Turn(c', Exited, Wakes(true, false))
    else Turn(c1, Parked(put + n), Wakes(true, false))
  }

  /** The pipe_t object. */
  class Ring {
    const buf: array<Byte>
    var readPos: nat
    var writePos: nat
    var count: nat
    var readers: nat
    var writers: nat
    ghost var queue: seq<Byte>
    ghost var frees: nat

    ghost predicate Valid()
      reads this, buf
    {
      && buf.Length == BUF_SIZE && readPos < BUF_SIZE && count == |queue| <= BUF_SIZE
      && writePos == Slot(readPos, count)
      && forall i :: 0 <= i < count ==> queue[i] == buf[Slot(readPos, i)]
    }

    ghost function Abs(): Core
      reads this
    {
      Core(queue, readers, writers, frees)
    }

    /** pipe_create. */
    constructor ()
      ensures Valid() && fresh(buf) && Abs() == Core([], 1, 1, 0)
    {
      buf := new Byte[BUF_SIZE];
      readPos, writePos, count, readers, writers := 0, 0, 0, 1, 1;
      queue, frees := [], 0;
    }

    /** Appends a byte, as the inner loop of pipe_write does. */
    method Store(b: Byte)
      requires Valid() && count < BUF_SIZE
      modifies this`writePos, this`count, this`queue, buf
      ensures Valid() && queue == old(queue) + [b]
    {
      buf[writePos] := b;
      writePos := (writePos + 1) % BUF_SIZE;
      count := count + 1;
      queue := queue + [b];
    }

    /** Removes the oldest byte, as the copy loop of pipe_read does. */
    method Fetch() returns (b: Byte)
      requires Valid() && count > 0
      modifies this`readPos, this`count, this`queue
      ensures Valid() && old(queue) == [b] + queue
    {
      b := buf[readPos];
      assert queue[0] == b;
      var next := (readPos + 1) % BUF_SIZE;
      assert forall i :: 0 <= i < count - 1 ==> Slot(next, i) == Slot(readPos, i + 1);
      readPos := next;
      count := count - 1;
      queue := queue[1..];
    }

    /** pipe_close_read; true when writers are to be woken. */
    method CloseRead() returns (wakeSpace: bool)
      modifies this`readers, this`frees
      ensures Abs() == CloseR(old(Abs())) && wakeSpace == (readers == 0)
    {
      if readers > 0 {
        readers := readers - 1;
      }
      wakeSpace := readers == 0;
      if readers == 0 && writers == 0 {
        frees := frees + 1;
      }
    }

    /** pipe_close_write; true when readers are to be woken. */
    method CloseWrite() returns (wakeData: bool)
      modifies this`writers, this`frees
      ensures Abs() == CloseW(old(Abs())) && wakeData == (writers == 0)
    {
      if writers > 0 {
        writers := writers - 1;
      }
      wakeData := writers == 0;
      if readers == 0 && writers == 0 {
        frees := frees + 1;
      }
    }

    /** pipe_read between two blocking points. */
    method Read(len: nat, killed: bool) returns (outcome: Outcome<seq<Byte>>, wakes: Wakes)
      requires Valid()
      modifies this
      ensures Valid() && Turn(Abs(), outcome, wakes) == ReadTurn(old(Abs()), len, killed)
    {
      if count == 0 && writers > 0 {
        if killed {
          var space := CloseRead();
          return Exited, Wakes(false, space);
        }
        return Parked(0), Wakes(false, false);
      }
      ghost var q := queue;
      var got: seq<Byte> := [];
      while |got| < len && count > 0
        invariant Valid() && |got| <= len && q == got + queue
        invariant readers == old(readers) && writers == old(writers) && frees == old(frees)
        decreases count
      {
        var b := Fetch();
        got := got + [b];
      }
      var space := CloseRead();
      assert got == q[..|got|] && queue == q[|got|..];
      return Finished(got), Wakes(false, |got| > 0 || space);
    }

    /** The inner loop of pipe_write. */
    method Fill(data: seq<Byte>, put0: nat) returns (put: nat)
      requires Valid() && put0 <= |data|
      modifies this`writePos, this`count, this`queue, buf
      ensures Valid() && put == put0 + Min(|data| - put0, BUF_SIZE - old(count))
      ensures queue == old(queue) + data[put0..put]
    {
      put := put0;
      while put < |data| && count < BUF_SIZE
        invariant Valid() && put0 <= put <= |data| && count == old(count) + put - put0
        invariant queue == old(queue) + data[put0..put]
      {
        Store(data[put]);
        put := put + 1;
      }
    }

    /** pipe_write between two blocking points, with `put0` bytes stored so far. */
    method Write(data: seq<Byte>, put0: nat, killed: bool) returns (outcome: Outcome<nat>, wakes: Wakes)
      requires Valid() && put0 <= |data|
      modifies this, buf
      ensures Valid() && Turn(Abs(), outcome, wakes) == WriteTurn(old(Abs()), data, put0, killed)
    {
      ghost var c := Abs();
      ghost var n := Fits(c, |data| - put0);
      var put, signal := put0, false;
      assert queue == queue + data[put..put];
      while put < |data|
        invariant Valid() && put0 <= put <= put0 + n
        invariant queue == c.queue + data[put0..put]
        invariant readers == c.readers && writers == c.writers && frees == c.frees
        invariant put > put0 ==> signal && put == put0 + n
        invariant signal ==> put > put0
      {
        if readers == 0 {
          break;
        }
        if count == BUF_SIZE {
          if killed {
            var _ := CloseWrite();
            return Exited, Wakes(true, false);
          }
          return Parked(put), Wakes(true, false);
        }
        put := Fill(data, put);
        signal := true;
      }
      var last := CloseWrite();
      return Finished(put), Wakes(signal || last, false);
    }
  }

  /** Position i steps after `start` in the ring. */
  function Slot(start: nat, i: nat): nat
    requires start < BUF_SIZE && i <= BUF_SIZE
  {
    if start + i < BUF_SIZE then start + i else start + i - BUF_SIZE
  }
}
