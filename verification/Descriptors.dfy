/** Who holds what: the descriptor tables of syscall.c and the standard streams of process.c, and the
    open counts of nodes and pipe ends, which must agree over every operation. Reads and writes in
    flight on a pipe hold further references of their own, see PipeRuns. */
module Descriptors {
  import opened Common

  const MAX_PROCESSES := 16
  const MAX_OPEN_FILES := 8
  const FIRST_USER_FD := 3

  /** The four stream fields of a process follow its descriptors. */
  const STDOUT_PIPE := 8
  const STDIN_PIPE := 9
  const STDOUT_NODE := 10
  const STDIN_NODE := 11
  const CELLS := 12

  /** What a reference is to: an open file node, or one end of a pipe. */
  datatype Res = Node(id: nat) | ReadEnd(pipe: nat) | WriteEnd(pipe: nat)

  /** A descriptor or a stream field. */
  datatype Cell = Empty | Holds(res: Res, offset: nat)

  datatype Phase = Unused | Running | Zombie

  /** A slot of the process table. */
  datatype Proc = Proc(cells: seq<Cell>, phase: Phase)

  function Refs(refs: map<Res, nat>, r: Res): nat
  {
    if r in refs then refs[r] else 0
  }

  function HeldHere(c: Cell, r: Res): nat
  {
    if c.Holds? && c.res == r then 1 else 0
  }

  /** How many of the cells hold r. */
  function Held(cells: seq<Cell>, r: Res): nat
  {
    if cells == [] then 0 else Held(cells[..|cells| - 1], r) + HeldHere(cells[|cells| - 1], r)
  }

  function TotalHeld(procs: seq<Proc>, r: Res): nat
  {
    if procs == [] then 0 else TotalHeld(procs[..|procs| - 1], r) + Held(procs[|procs| - 1].cells, r)
  }

  /** The count of every node and pipe end is the number of descriptors and streams that hold it. */
  ghost predicate Conserved(procs: seq<Proc>, refs: map<Res, nat>)
  {
    forall r :: Refs(refs, r) == TotalHeld(procs, r)
  }

  ghost predicate NoCells(cells: seq<Cell>)
  {
    forall i :: 0 <= i < |cells| ==> cells[i] == Empty
  }

  ghost predicate Sized(procs: seq<Proc>)
  {
    |procs| == MAX_PROCESSES && forall p :: 0 <= p < |procs| ==> |procs[p].cells| == CELLS
  }

  /** A slot without a running process holds nothing. */
  ghost predicate Tidy(procs: seq<Proc>)
  {
    forall p :: 0 <= p < |procs| && procs[p].phase != Running ==> NoCells(procs[p].cells)
  }

  // ---------------------------------------------------------------- counting

  lemma {:induction false} HeldUpdate(cells: seq<Cell>, i: nat, c: Cell, r: Res)
    requires i < |cells|
    ensures Held(cells[i := c], r) == Held(cells, r) - HeldHere(cells[i], r) + HeldHere(c, r)
  {
    var n := |cells| - 1;
    if i == n {
      assert cells[i := c][..n] == cells[..n];
    } else {
      assert cells[i := c][..n] == cells[..n][i := c];
      HeldUpdate(cells[..n], i, c, r);
    }
  }

  lemma {:induction false} TotalUpdate(procs: seq<Proc>, p: nat, q: Proc, r: Res)
    requires p < |procs|
    ensures TotalHeld(procs[p := q], r) == TotalHeld(procs, r) - Held(procs[p].cells, r) + Held(q.cells, r)
  {
    var n := |procs| - 1;
    if p == n {
      assert procs[p := q][..n] == procs[..n];
    } else {
      assert procs[p := q][..n] == procs[..n][p := q];
      TotalUpdate(procs[..n], p, q, r);
    }
  }

  lemma {:induction false} HeldSome(cells: seq<Cell>, i: nat, r: Res)
    requires i < |cells| && cells[i].Holds? && cells[i].res == r
    ensures Held(cells, r) > 0
  {
    var n := |cells| - 1;
    if i < n {
      HeldSome(cells[..n], i, r);
    }
  }

  lemma {:induction false} HeldNone(cells: seq<Cell>, r: Res)
    requires NoCells(cells)
    ensures Held(cells, r) == 0
  {
    if cells != [] {
      HeldNone(cells[..|cells| - 1], r);
    }
  }

  /** Whatever a cell holds is counted. */
  lemma HolderIsCounted(procs: seq<Proc>, refs: map<Res, nat>, p: nat, i: nat)
    requires Conserved(procs, refs) && p < |procs| && i < |procs[p].cells| && procs[p].cells[i].Holds?
    ensures Refs(refs, procs[p].cells[i].res) > 0
  {
    var r := procs[p].cells[i].res;
    HeldSome(procs[p].cells, i, r);
    TotalUpdate(procs, p, Proc([], Running), r);
  }

  function Put(procs: seq<Proc>, p: nat, i: nat, c: Cell): seq<Proc>
    requires p < |procs| && i < |procs[p].cells|
  {
    procs[p := procs[p].(cells := procs[p].cells[i := c])]
  }

  /** Changing one cell changes the count of what it held and of what it holds, and no other. */
  lemma PutCounts(procs: seq<Proc>, p: nat, i: nat, c: Cell, r: Res)
    requires p < |procs| && i < |procs[p].cells|
    ensures TotalHeld(Put(procs, p, i, c), r) == TotalHeld(procs, r) - HeldHere(procs[p].cells[i], r) + HeldHere(c, r)
  {
    HeldUpdate(procs[p].cells, i, c, r);
    TotalUpdate(procs, p, procs[p].(cells := procs[p].cells[i := c]), r);
  }

  lemma AcquireConserves(procs: seq<Proc>, refs: map<Res, nat>, p: nat, i: nat, res: Res, offset: nat)
    requires Conserved(procs, refs) && p < |procs| && i < |procs[p].cells| && procs[p].cells[i] == Empty
    ensures Conserved(Put(procs, p, i, Holds(res, offset)), refs[res := Refs(refs, res) + 1])
  {
    forall r
      ensures Refs(refs[res := Refs(refs, res) + 1], r) == TotalHeld(Put(procs, p, i, Holds(res, offset)), r)
    {
      PutCounts(procs, p, i, Holds(res, offset), r);
    }
  }

  lemma ReleaseConserves(procs: seq<Proc>, refs: map<Res, nat>, p: nat, i: nat)
    requires Conserved(procs, refs) && p < |procs| && i < |procs[p].cells| && procs[p].cells[i].Holds?
    ensures var res := procs[p].cells[i].res;
            Refs(refs, res) > 0 && Conserved(Put(procs, p, i, Empty), refs[res := Refs(refs, res) - 1])
  {
    var res := procs[p].cells[i].res;
    HolderIsCounted(procs, refs, p, i);
    forall r
      ensures Refs(refs[res := Refs(refs, res) - 1], r) == TotalHeld(Put(procs, p, i, Empty), r)
    {
      PutCounts(procs, p, i, Empty, r);
    }
  }

  /** Only the cells count, so a slot may change phase freely. */
  lemma PhaseConserves(procs: seq<Proc>, refs: map<Res, nat>, p: nat, phase: Phase)
    requires Conserved(procs, refs) && p < |procs|
    ensures Conserved(procs[p := procs[p].(phase := phase)], refs)
  {
    forall r
      ensures Refs(refs, r) == TotalHeld(procs[p := procs[p].(phase := phase)], r)
    {
      TotalUpdate(procs, p, procs[p].(phase := phase), r);
    }
  }

  function Nothing(): (cells: seq<Cell>)
    ensures |cells| == CELLS && NoCells(cells)
  {
    seq(CELLS, _ => Empty)
  }

  /** process_release clears the slot without closing anything: the counts stay right exactly when
      the slot held nothing. */
  lemma ReapConservesIff(procs: seq<Proc>, refs: map<Res, nat>, p: nat)
    requires Conserved(procs, refs) && Sized(procs) && p < |procs|
    ensures Conserved(procs[p := Proc(Nothing(), Unused)], refs) <==> NoCells(procs[p].cells)
  {
    var procs' := procs[p := Proc(Nothing(), Unused)];
    forall r
      ensures TotalHeld(procs', r) == TotalHeld(procs, r) - Held(procs[p].cells, r)
    {
      TotalUpdate(procs, p, Proc(Nothing(), Unused), r);
      HeldNone(Nothing(), r);
    }
    if NoCells(procs[p].cells) {
      forall r
        ensures Refs(refs, r) == TotalHeld(procs', r)
      {
        HeldNone(procs[p].cells, r);
      }
    } else {
      var i :| 0 <= i < |procs[p].cells| && procs[p].cells[i] != Empty;
      var r := procs[p].cells[i].res;
      HeldSome(procs[p].cells, i, r);
      assert Refs(refs, r) == TotalHeld(procs, r);
      assert TotalHeld(procs', r) < Refs(refs, r);
    }
  }

  /** The lowest free descriptor slot from i on, or MAX_OPEN_FILES. */
  function LowestFree(cells: seq<Cell>, i: nat): (k: nat)
    requires i <= MAX_OPEN_FILES <= |cells|
    ensures i <= k <= MAX_OPEN_FILES
    ensures k < MAX_OPEN_FILES ==> cells[k] == Empty
    ensures forall j :: i <= j < k ==> cells[j] != Empty
    decreases MAX_OPEN_FILES - i
  {
    if i == MAX_OPEN_FILES || cells[i] == Empty then i else LowestFree(cells, i + 1)
  }

  class Tables {
    var procs: seq<Proc>
    var refs: map<Res, nat>

    ghost predicate Counted()
      reads this
    {
      Sized(procs) && Conserved(procs, refs)
    }

    ghost predicate Valid()
      reads this
    {
      Counted() && Tidy(procs)
    }

    constructor ()
      ensures Valid() && forall p :: 0 <= p < MAX_PROCESSES ==> procs[p] == Proc(Nothing(), Unused)
    {
      procs, refs := seq(MAX_PROCESSES, _ => Proc(Nothing(), Unused)), map[];
      new;
      forall r
        ensures Refs(refs, r) == TotalHeld(procs, r)
      {
        NothingHeld(procs, r);
      }
    }

    /** open_fs, or a fresh pipe end: one more reference, held by an empty cell. */
    method Acquire(p: nat, i: nat, res: Res, offset: nat)
      requires Counted() && p < MAX_PROCESSES && i < CELLS && procs[p].cells[i] == Empty
      modifies this
      ensures Counted() && procs == Put(old(procs), p, i, Holds(res, offset))
    {
      AcquireConserves(procs, refs, p, i, res, offset);
      procs, refs := Put(procs, p, i, Holds(res, offset)), refs[res := Refs(refs, res) + 1];
    }

    /** The same for a node or pipe end that is known to be open: its count is not zero. */
    method Share(p: nat, i: nat, res: Res, offset: nat)
      requires Counted() && p < MAX_PROCESSES && i < CELLS && procs[p].cells[i] == Empty && Refs(refs, res) > 0
      modifies this
      ensures Counted() && procs == Put(old(procs), p, i, Holds(res, offset))
    {
      Acquire(p, i, res, offset);
    }

    /** close_fd_entry, or dropping a stream: what the cell held is released once. */
    method Release(p: nat, i: nat)
      requires Counted() && p < MAX_PROCESSES && i < CELLS
      modifies this
      ensures Counted() && procs == Put(old(procs), p, i, Empty)
      ensures forall r :: Refs(refs, r) == Refs(old(refs), r) - HeldHere(old(procs)[p].cells[i], r)
    {
      match procs[p].cells[i]
      case Empty =>
        assert procs[p].cells[i := Empty] == procs[p].cells;
      case Holds(res, _) =>
        ReleaseConserves(procs, refs, p, i);
        procs, refs := Put(procs, p, i, Empty), refs[res := Refs(refs, res) - 1];
    }

    /** The search of alloc_fd. */
    method FreeFd(p: nat) returns (k: nat)
      requires Sized(procs) && p < MAX_PROCESSES
      ensures k == LowestFree(procs[p].cells, 0)
    {
      k := 0;
      while k < MAX_OPEN_FILES && procs[p].cells[k] != Empty
        invariant k <= MAX_OPEN_FILES && LowestFree(procs[p].cells, 0) == LowestFree(procs[p].cells, k)
      {
        k := k + 1;
      }
    }

    /** alloc_fd: the lowest free slot is filled, without taking a reference. */
    method AllocFd(p: nat, res: Res) returns (k: nat)
      requires Sized(procs) && p < MAX_PROCESSES
      modifies this`procs
      ensures Sized(procs) && k == LowestFree(old(procs)[p].cells, 0)
      ensures procs == if k < MAX_OPEN_FILES then Put(old(procs), p, k, Holds(res, 0)) else old(procs)
    {
      k := FreeFd(p);
      if k < MAX_OPEN_FILES {
        procs := Put(procs, p, k, Holds(res, 0));
      }
    }

    /** open_user_file. */
    method OpenFile(p: nat, node: nat) returns (fd: int)
      requires Valid() && p < MAX_PROCESSES && procs[p].phase == Running
      modifies this
      ensures Valid()
      ensures var k := LowestFree(old(procs)[p].cells, 0);
              if k < MAX_OPEN_FILES then fd == FIRST_USER_FD + k && procs == Put(old(procs), p, k, Holds(Node(node), 0))
              else fd == -1 && procs == old(procs)
    {
      AcquireFree(procs, refs, p, Node(node));
      var k := AllocFd(p, Node(node));
      if k == MAX_OPEN_FILES {
        return -1;
      }
      refs := refs[Node(node) := Refs(refs, Node(node)) + 1];
      fd := FIRST_USER_FD + k;
    }

    /** sys_close. */
    method Close(p: nat, fd: int) returns (r: int)
      requires Valid() && p < MAX_PROCESSES
      modifies this
      ensures Valid()
      ensures if IsFd(fd) && old(procs)[p].cells[fd - FIRST_USER_FD] != Empty
              then r == 0 && procs == Put(old(procs), p, fd - FIRST_USER_FD, Empty)
              else r == -1 && procs == old(procs)
    {
      if !IsFd(fd) || procs[p].cells[fd - FIRST_USER_FD] == Empty {
        return -1;
      }
      Release(p, fd - FIRST_USER_FD);
      r := 0;
    }

    /** sys_dup. */
    method Dup(p: nat, oldfd: int) returns (fd: int)
      requires Valid() && p < MAX_PROCESSES && procs[p].phase == Running
      modifies this
      ensures Valid()
      ensures var k := LowestFree(old(procs)[p].cells, 0);
              if IsFd(oldfd) && old(procs)[p].cells[oldfd - FIRST_USER_FD] != Empty && k < MAX_OPEN_FILES
              then fd == FIRST_USER_FD + k && procs == Put(old(procs), p, k, old(procs)[p].cells[oldfd - FIRST_USER_FD])
              else fd == -1 && procs == old(procs)
    {
      if !IsFd(oldfd) || procs[p].cells[oldfd - FIRST_USER_FD] == Empty {
        return -1;
      }
      var src := procs[p].cells[oldfd - FIRST_USER_FD];
      var k := FreeFd(p);
      if k == MAX_OPEN_FILES {
        return -1;
      }
      HolderIsCounted(procs, refs, p, oldfd - FIRST_USER_FD);
      Share(p, k, src.res, src.offset);
      fd := FIRST_USER_FD + k;
    }

    /** sys_dup2: a pipe end or file may replace a standard stream, and any descriptor another one. */
    method Dup2(p: nat, oldfd: int, newfd: int) returns (fd: int)
      requires Valid() && p < MAX_PROCESSES && procs[p].phase == Running
      modifies this
      ensures Valid()
      ensures var after := Dup2Cells(old(procs)[p].cells, oldfd, newfd);
              if after.Some? then fd == newfd && procs == old(procs)[p := Proc(after.value, Running)]
              else fd == -1 && procs == old(procs)
    {
      if !IsFd(oldfd) || procs[p].cells[oldfd - FIRST_USER_FD] == Empty {
        return -1;
      }
      var oidx := oldfd - FIRST_USER_FD;
      var src := procs[p].cells[oidx];
      if newfd == 1 {
        if src.res.ReadEnd? {
          return -1;
        }
        Restream(p, oidx, STDOUT_PIPE, STDOUT_NODE, if src.res.Node? then STDOUT_NODE else STDOUT_PIPE);
        return newfd;
      }
      if newfd == 0 {
        if src.res.WriteEnd? {
          return -1;
        }
        Restream(p, oidx, STDIN_PIPE, STDIN_NODE, if src.res.Node? then STDIN_NODE else STDIN_PIPE);
        return newfd;
      }
      if !IsFd(newfd) {
        return -1;
      }
      if newfd != oldfd {
        Release(p, newfd - FIRST_USER_FD);
        HolderIsCounted(procs, refs, p, oidx);
        Share(p, newfd - FIRST_USER_FD, src.res, src.offset);
      }
      assert procs[p].cells == old(procs)[p].cells[newfd - FIRST_USER_FD := src];
      return newfd;
    }

    /** The stream cases of sys_dup2: both fields are dropped and one takes over what `oidx` holds. */
    method Restream(p: nat, oidx: nat, pipe: nat, node: nat, target: nat)
      requires Valid() && p < MAX_PROCESSES && procs[p].phase == Running
      requires oidx < MAX_OPEN_FILES <= pipe < CELLS && MAX_OPEN_FILES <= node < CELLS && pipe != node &&
               (target == pipe || target == node)
      requires procs[p].cells[oidx].Holds?
      modifies this
      ensures Valid()
      ensures var was := old(procs)[p];
        procs == old(procs)[p := was.(cells := was.cells[pipe := Empty][node := Empty][target := was.cells[oidx]])]
    {
      var src := procs[p].cells[oidx];
      Release(p, pipe);
      Release(p, node);
      HolderIsCounted(procs, refs, p, oidx);
      Share(p, target, src.res, src.offset);
    }

    /** process_redirect on a slot in use; 0 is no node. Only a running process ever gives the nodes
        back, so the table stays tidy exactly if it is running or gets nothing. */
    method Redirect(p: nat, outNode: nat, outOffset: nat, inNode: nat)
      requires Valid() && p < MAX_PROCESSES && procs[p].phase != Unused
      modifies this
      ensures Counted() && procs == Redirected(old(procs), p, outNode, outOffset, inNode)
      ensures Tidy(procs) <==> old(procs)[p].phase == Running || (outNode == 0 && inNode == 0)
      ensures old(procs)[p].phase == Running ==> Valid()
    {
      Release(p, STDOUT_NODE);
      if outNode != 0 {
        Acquire(p, STDOUT_NODE, Node(outNode), outOffset);
      }
      Release(p, STDIN_NODE);
      if inNode != 0 {
        Acquire(p, STDIN_NODE, Node(inNode), 0);
      }
      assert procs[p].cells ==
        old(procs)[p].cells[STDOUT_NODE := NodeCell(outNode, outOffset)][STDIN_NODE := NodeCell(inNode, 0)];
      assert !NoCells(procs[p].cells) <== outNode != 0 || inNode != 0 by {
        assert procs[p].cells[STDOUT_NODE] == NodeCell(outNode, outOffset) &&
          procs[p].cells[STDIN_NODE] == NodeCell(inNode, 0);
      }
    }

    /** pipe_close_read or pipe_close_write. */
    method Drop(res: Res)
      requires Refs(refs, res) > 0
      modifies this`refs
      ensures refs == old(refs)[res := Refs(old(refs), res) - 1]
    {
      refs := refs[res := Refs(refs, res) - 1];
    }

    /** sys_pipe finds no second slot: the read end's descriptor and both ends are closed. */
    method Undo(p: nat, k: nat, pipe: nat, ghost procs0: seq<Proc>, ghost refs0: map<Res, nat>)
      requires p < |procs0| && k < |procs0[p].cells| && procs0[p].cells[k] == Empty
      requires procs == Put(procs0, p, k, Holds(ReadEnd(pipe), 0)) &&
               refs == refs0[ReadEnd(pipe) := 1][WriteEnd(pipe) := 1]
      modifies this
      ensures procs == procs0 && refs == refs0[ReadEnd(pipe) := 0][WriteEnd(pipe) := 0]
    {
      Drop(ReadEnd(pipe));
      procs := Put(procs, p, k, Empty);
      Drop(WriteEnd(pipe));
      assert procs[p].cells == procs0[p].cells;
    }

    /** The stores of sys_pipe. */
    method PipeFds(p: nat, pipe: nat) returns (ok: bool, k: nat, m: nat)
      requires Sized(procs) && p < MAX_PROCESSES
      requires Refs(refs, ReadEnd(pipe)) == 0 && Refs(refs, WriteEnd(pipe)) == 0
      modifies this
      ensures ok <==> TwoFree(old(procs)[p].cells)
      ensures ok ==> k == LowestFree(old(procs)[p].cells, 0) && m == LowestFree(old(procs)[p].cells, k + 1)
      ensures ok ==> procs == Put(Put(old(procs), p, k, Holds(ReadEnd(pipe), 0)), p, m, Holds(WriteEnd(pipe), 0))
      ensures ok ==> refs == old(refs)[ReadEnd(pipe) := 1][WriteEnd(pipe) := 1]
      ensures !ok ==> procs == old(procs) && refs == old(refs)[ReadEnd(pipe) := 0][WriteEnd(pipe) := 0]
    {
      ghost var cells := procs[p].cells;
      ok, m := false, 0;
      refs := refs[ReadEnd(pipe) := 1][WriteEnd(pipe) := 1];
      k := AllocFd(p, ReadEnd(pipe));
      if k == MAX_OPEN_FILES {
        Drop(ReadEnd(pipe));
        Drop(WriteEnd(pipe));
        return;
      }
      SecondFree(cells, k, Holds(ReadEnd(pipe), 0));
      m := AllocFd(p, WriteEnd(pipe));
      if m == MAX_OPEN_FILES {
        Undo(p, k, pipe, old(procs), old(refs));
        return;
      }
      ok := true;
    }

    /** sys_pipe, with the number of the pipe that pipe_create allocates: both ends get a descriptor,
        or the new pipe is closed again. */
    method MakePipe(p: nat, pipe: nat) returns (ok: bool, rfd: int, wfd: int)
      requires Valid() && p < MAX_PROCESSES && procs[p].phase == Running
      requires Refs(refs, ReadEnd(pipe)) == 0 && Refs(refs, WriteEnd(pipe)) == 0
      modifies this
      ensures Valid() && (ok <==> TwoFree(old(procs)[p].cells))
      ensures ok ==>
        var k := LowestFree(old(procs)[p].cells, 0);
        var m := LowestFree(old(procs)[p].cells, k + 1);
        && rfd == FIRST_USER_FD + k && wfd == FIRST_USER_FD + m
        && procs == Put(Put(old(procs), p, k, Holds(ReadEnd(pipe), 0)), p, m, Holds(WriteEnd(pipe), 0))
      ensures !ok ==> procs == old(procs) && forall r :: Refs(refs, r) == Refs(old(refs), r)
    {
      var k, m;
      ok, k, m := PipeFds(p, pipe);
      if ok {
        PipeConserves(old(procs), old(refs), p, k, m, pipe);
      }
      rfd, wfd := FIRST_USER_FD + k, FIRST_USER_FD + m;
    }

    /** process_allocate. */
    method Launch(p: nat)
      requires Valid() && p < MAX_PROCESSES && procs[p].phase == Unused
      modifies this
      ensures Valid() && procs == old(procs)[p := old(procs)[p].(phase := Running)]
    {
      PhaseConserves(procs, refs, p, Running);
      procs := procs[p := procs[p].(phase := Running)];
    }

    /** syscall_close_user_files. */
    method CloseFiles(p: nat)
      requires Counted() && p < MAX_PROCESSES
      modifies this
      ensures Counted() && procs == old(procs)[p := old(procs)[p].(cells := Cleared(old(procs)[p].cells,
              MAX_OPEN_FILES))]
    {
      assert Cleared(procs[p].cells, 0) == procs[p].cells;
      for i := 0 to MAX_OPEN_FILES
        invariant Counted() && procs == old(procs)[p := old(procs)[p].(cells := Cleared(old(procs)[p].cells, i))]
      {
        assert Cleared(old(procs)[p].cells, i)[i := Empty] == Cleared(old(procs)[p].cells, i + 1);
        Release(p, i);
      }
    }

    /** Drops the four stream fields. */
    method CloseStreams(p: nat)
      requires Counted() && p < MAX_PROCESSES
      modifies this
      ensures Counted() && procs == old(procs)[p := old(procs)[p].(cells :=
        old(procs)[p].cells[STDOUT_PIPE := Empty][STDIN_PIPE := Empty][STDOUT_NODE := Empty][STDIN_NODE := Empty])]
    {
      Release(p, STDOUT_PIPE);
      Release(p, STDIN_PIPE);
      Release(p, STDOUT_NODE);
      Release(p, STDIN_NODE);
    }

    /** The part of process_finish_exit about descriptors: the process holds nothing afterwards. */
    method Exit(p: nat)
      requires Valid() && p < MAX_PROCESSES && procs[p].phase == Running
      modifies this
      ensures Valid() && procs == old(procs)[p := Proc(Nothing(), Zombie)]
    {
      CloseStreams(p);
      CloseFiles(p);
      assert procs[p].cells == Nothing();
      PhaseConserves(procs, refs, p, Zombie);
      procs := procs[p := procs[p].(phase := Zombie)];
    }

    /** Copies one cell to a child that holds nothing there, with a reference of its own. */
    method CopyCell(parent: nat, child: nat, i: nat)
      requires Counted() && parent < MAX_PROCESSES && child < MAX_PROCESSES && parent != child && i < CELLS
      requires procs[child].cells[i] == Empty
      modifies this
      ensures Counted() && procs == Put(old(procs), child, i, old(procs)[parent].cells[i])
    {
      match procs[parent].cells[i]
      case Empty =>
        assert procs[child].cells[i := Empty] == procs[child].cells;
      case Holds(res, offset) =>
        HolderIsCounted(procs, refs, parent, i);
        Share(child, i, res, offset);
    }

    /** syscall_copy_user_files. It overwrites the child's descriptors, which must hold nothing. */
    method CopyFiles(parent: nat, child: nat)
      requires Counted() && parent < MAX_PROCESSES && child < MAX_PROCESSES && parent != child &&
               procs[child].cells == Nothing()
      modifies this
      ensures Counted()
      ensures procs == old(procs)[child := old(procs)[child].(cells := Copied(old(procs)[parent].cells,
              MAX_OPEN_FILES))]
    {
      ghost var from := procs[parent].cells;
      assert Copied(from, 0) == procs[child].cells;
      for i := 0 to MAX_OPEN_FILES
        invariant Counted() && procs == old(procs)[child := old(procs)[child].(cells := Copied(from, i))]
      {
        assert Copied(from, i)[i := from[i]] == Copied(from, i + 1);
        CopyCell(parent, child, i);
      }
    }

    /** The part of process_fork about descriptors. The child holds what the parent holds, each with
        a reference of its own; if no task can be created everything is given back. */
    method Fork(parent: nat, child: nat, taskCreated: bool) returns (ok: bool)
      requires Valid() && parent < MAX_PROCESSES && child < MAX_PROCESSES && procs[parent].phase == Running &&
               procs[child].phase == Unused
      modifies this
      ensures Valid() && ok == taskCreated
      ensures ok ==> procs == old(procs)[child := Proc(old(procs)[parent].cells, Running)]
      ensures !ok ==> procs == old(procs)[child := Proc(Nothing(), Unused)]
    {
      ghost var from := procs[parent].cells;
      assert procs[child].cells == Nothing();
      Launch(child);
      CopyFiles(parent, child);
      CopyCell(parent, child, STDOUT_NODE);
      CopyCell(parent, child, STDIN_NODE);
      CopyCell(parent, child, STDOUT_PIPE);
      CopyCell(parent, child, STDIN_PIPE);
      assert procs[child].cells == from;
      ok := taskCreated;
      if !ok {
        CloseStreams(child);
        CloseFiles(child);
        assert procs[child].cells == Nothing();
        PhaseConserves(procs, refs, child, Unused);
        procs := procs[child := procs[child].(phase := Unused)];
      }
    }

    /** process_release. */
    method Reap(p: nat)
      requires Valid() && p < MAX_PROCESSES && procs[p].phase != Running
      modifies this
      ensures Valid() && procs == old(procs)[p := Proc(Nothing(), Unused)]
    {
      ReapConservesIff(procs, refs, p);
      procs := procs[p := Proc(Nothing(), Unused)];
    }
  }

  function NodeCell(node: nat, offset: nat): Cell
  {
    if node == 0 then Empty else Holds(Node(node), offset)
  }

  /** The table after process_redirect. */
  function Redirected(procs: seq<Proc>, p: nat, outNode: nat, outOffset: nat, inNode: nat): seq<Proc>
    requires p < |procs| && |procs[p].cells| == CELLS
  {
    var cells := procs[p].cells[STDOUT_NODE := NodeCell(outNode, outOffset)][STDIN_NODE := NodeCell(inNode, 0)];
    procs[p := procs[p].(cells := cells)]
  }

  /** process_redirect finds any slot in use, and process_release closes nothing: a zombie that is
      redirected and then reaped leaves the counts right exactly if it was given no node. */
  lemma RedirectedZombie(procs: seq<Proc>, p: nat, outNode: nat, outOffset: nat, inNode: nat, refs: map<Res, nat>)
    requires Sized(procs) && Tidy(procs) && p < |procs| && procs[p].phase == Zombie
    requires Conserved(Redirected(procs, p, outNode, outOffset, inNode), refs)
    ensures var reaped := Redirected(procs, p, outNode, outOffset, inNode)[p := Proc(Nothing(), Unused)];
            Conserved(reaped, refs) <==> outNode == 0 && inNode == 0
  {
    var redirected := Redirected(procs, p, outNode, outOffset, inNode);
    ReapConservesIff(redirected, refs, p);
    assert redirected[p].cells[STDOUT_NODE] == NodeCell(outNode, outOffset) &&
      redirected[p].cells[STDIN_NODE] == NodeCell(inNode, 0);
  }

  /** A zombie in the first slot, and no other process. */
  function OneZombie(): (procs: seq<Proc>)
    ensures Sized(procs) && Tidy(procs) && procs[0] == Proc(Nothing(), Zombie)
    ensures forall p :: 0 <= p < |procs| ==> NoCells(procs[p].cells)
  {
    seq(MAX_PROCESSES, p => Proc(Nothing(), if p == 0 then Zombie else Unused))
  }

  /** For example, its output redirected to node 5: the node stays open with nobody to close it. */
  lemma RedirectLeaks()
    ensures var redirected, refs := Redirected(OneZombie(), 0, 5, 0, 0), map[Node(5) := 1];
            && Conserved(OneZombie(), map[]) && Conserved(redirected, refs)
            && TotalHeld(redirected[0 := Proc(Nothing(), Unused)], Node(5)) == 0 < Refs(refs, Node(5))
  {
    var procs := OneZombie();
    forall r
      ensures Refs(map[], r) == TotalHeld(procs, r)
    {
      NothingHeld(procs, r);
    }
    AcquireConserves(procs, map[], 0, STDOUT_NODE, Node(5), 0);
    var redirected := Redirected(procs, 0, 5, 0, 0);
    assert redirected[0].cells == procs[0].cells[STDOUT_NODE := Holds(Node(5), 0)];
    assert redirected == Put(procs, 0, STDOUT_NODE, Holds(Node(5), 0));
    NothingHeld(redirected[0 := Proc(Nothing(), Unused)], Node(5));
  }

  /** The cells with the first n emptied. */
  function Cleared(cells: seq<Cell>, n: nat): (r: seq<Cell>)
    ensures |r| == |cells| && forall i :: 0 <= i < |cells| ==> r[i] == if i < n then Empty else cells[i]
  {
    seq(|cells|, i requires 0 <= i < |cells| => if i < n then Empty else cells[i])
  }

  /** The first n cells, and nothing in the others. */
  function Copied(cells: seq<Cell>, n: nat): (r: seq<Cell>)
    ensures |r| == |cells| && forall i :: 0 <= i < |cells| ==> r[i] == if i < n then cells[i] else Empty
  {
    seq(|cells|, i requires 0 <= i < |cells| => if i < n then cells[i] else Empty)
  }

  lemma AcquireFree(procs: seq<Proc>, refs: map<Res, nat>, p: nat, res: Res)
    requires Conserved(procs, refs) && Sized(procs) && p < |procs|
    ensures var k := LowestFree(procs[p].cells, 0);
            k < MAX_OPEN_FILES ==> Conserved(Put(procs, p, k, Holds(res, 0)), refs[res := Refs(refs, res) + 1])
  {
    var k := LowestFree(procs[p].cells, 0);
    if k < MAX_OPEN_FILES {
      AcquireConserves(procs, refs, p, k, res, 0);
    }
  }

  /** Two descriptor slots are free. */
  predicate TwoFree(cells: seq<Cell>)
    requires |cells| == CELLS
  {
    var k := LowestFree(cells, 0);
    k < MAX_OPEN_FILES && LowestFree(cells, k + 1) < MAX_OPEN_FILES
  }

  lemma PipeConserves(procs: seq<Proc>, refs: map<Res, nat>, p: nat, k: nat, m: nat, pipe: nat)
    requires Conserved(procs, refs) && Refs(refs, ReadEnd(pipe)) == 0 && Refs(refs, WriteEnd(pipe)) == 0
    requires p < |procs| && k < m < |procs[p].cells| && procs[p].cells[k] == Empty && procs[p].cells[m] == Empty
    ensures Conserved(Put(Put(procs, p, k, Holds(ReadEnd(pipe), 0)), p, m, Holds(WriteEnd(pipe), 0)),
                      refs[ReadEnd(pipe) := 1][WriteEnd(pipe) := 1])
  {
    AcquireConserves(procs, refs, p, k, ReadEnd(pipe), 0);
    AcquireConserves(Put(procs, p, k, Holds(ReadEnd(pipe), 0)), refs[ReadEnd(pipe) := 1], p, m, WriteEnd(pipe), 0);
  }

  /** The cells after sys_dup2, if it succeeds. */
  function Dup2Cells(cells: seq<Cell>, oldfd: int, newfd: int): (r: Option<seq<Cell>>)
    requires |cells| == CELLS
  {
    if !IsFd(oldfd) || cells[oldfd - FIRST_USER_FD] == Empty then None
    else
      var src := cells[oldfd - FIRST_USER_FD];
      if newfd == 1 then
        if src.res.ReadEnd? then None
        else Some(cells[STDOUT_PIPE := Empty][STDOUT_NODE := Empty][if src.res.Node? then STDOUT_NODE
          else STDOUT_PIPE := src])
      else if newfd == 0 then
        if src.res.WriteEnd? then None
        else Some(cells[STDIN_PIPE := Empty][STDIN_NODE := Empty][if src.res.Node? then STDIN_NODE
          else STDIN_PIPE := src])
      else if IsFd(newfd) then Some(cells[newfd - FIRST_USER_FD := src])
      else None
  }

  /** Once the lowest free slot is taken, the next lowest is the lowest. */
  lemma SecondFree(cells: seq<Cell>, k: nat, c: Cell)
    requires |cells| == CELLS && k == LowestFree(cells, 0) < MAX_OPEN_FILES && c != Empty
    ensures LowestFree(cells[k := c], 0) == LowestFree(cells, k + 1)
  {
  }

  predicate IsFd(fd: int)
  {
    FIRST_USER_FD <= fd < FIRST_USER_FD + MAX_OPEN_FILES
  }

  lemma {:induction false} NothingHeld(procs: seq<Proc>, r: Res)
    requires forall p :: 0 <= p < |procs| ==> NoCells(procs[p].cells)
    ensures TotalHeld(procs, r) == 0
  {
    if procs != [] {
      NothingHeld(procs[..|procs| - 1], r);
      HeldNone(procs[|procs| - 1].cells, r);
    }
  }
}
