/** process.c: the loops over the process table, each proved to do what ProcessTable says. The tasks,
    the waiters and the destroyed spaces belong to other parts of the kernel and appear here as
    specification only. */
module Processes {
  import opened ProcessTable

  /** Slot z held a zombie child of that process, with the pid asked for if one was; its pid and status are
      returned, and it is released. */
  ghost predicate Collects(was: seq<Slot>, now: seq<Slot>, z: nat, me: int, filter: int, r: int, status: int)
  {
    && z < |was| && was[z].phase == Zombie && was[z].parent == me && (filter > 0 ==> r == filter)
    && r == was[z].pid && status == was[z].status && now == was[z := Blank()]
  }

  /** The process has no zombie child, or none with the pid asked for. */
  ghost predicate NoZombie(slots: seq<Slot>, me: int, filter: int)
  {
    forall j :: 0 <= j < |slots| && slots[j].phase == Zombie && slots[j].parent == me ==>
      filter > 0 && slots[j].pid != filter
  }

  /** The process has no child, or none with the pid asked for. */
  ghost predicate NoChild(slots: seq<Slot>, me: int, filter: int)
  {
    forall j :: 0 <= j < |slots| && slots[j].phase != Unused && slots[j].parent == me ==>
      filter > 0 && slots[j].pid != filter
  }

  class Table {
    const slots: array<Slot>
    var nextPid: int
    ghost var tasks: map<nat, Task>
    ghost var parked: map<nat, int>
    ghost var adopted: seq<nat>
    ghost var destroyed: seq<nat>

    ghost function Abs(): State
      reads this, slots
    {
      State(slots[..], nextPid, tasks, parked, adopted, destroyed)
    }

    ghost predicate Valid()
      reads this, slots
    {
      slots.Length == MAX_PROCESSES && Inv(Abs())
    }

    constructor ()
      ensures Valid() && fresh(slots) && Abs() == Boot()
    {
      slots := new Slot[MAX_PROCESSES](_ => Blank());
      nextPid := 1;
      tasks, parked, adopted, destroyed := map[], map[], [], [];
      new;
      assert slots[..] == Boot().slots;
    }

    /** process_find. */
    method FindPid(pid: int) returns (k: nat)
      ensures k == Find(slots[..], pid, 0)
    {
      k := 0;
      while k < slots.Length && !(slots[k].phase != Unused && slots[k].pid == pid)
        invariant k <= slots.Length && Find(slots[..], pid, 0) == Find(slots[..], pid, k)
      {
        k := k + 1;
      }
    }

    /** process_allocate_pid. */
    method AllocatePid() returns (pid: int)
      modifies this`nextPid
      ensures (pid, nextPid) == AllocPid(slots[..], old(nextPid), MAX_PROCESSES)
    {
      for attempts := 0 to MAX_PROCESSES
        invariant AllocPid(slots[..], old(nextPid), MAX_PROCESSES) == AllocPid(slots[..], nextPid,
                  MAX_PROCESSES - attempts)
      {
        var candidate := nextPid;
        nextPid := if nextPid == MAX_PID then 1 else nextPid + 1;
        var k := FindPid(candidate);
        if k == slots.Length {
          return candidate;
        }
      }
      return -1;
    }

    /** The slot scan of process_allocate. */
    method FindUnused() returns (k: nat)
      ensures k == FreeSlot(slots[..], 0)
    {
      k := 0;
      while k < slots.Length && slots[k].phase != Unused
        invariant k <= slots.Length && FreeSlot(slots[..], 0) == FreeSlot(slots[..], k)
      {
        k := k + 1;
      }
    }

    /** process_launch and process_fork, for a caller with pid `parent`. Returns the pid, or -1. */
    method Start(parent: int, tid: nat, space: nat, created: bool) returns (pid: int)
      requires Valid() && tid != 0 && tid !in tasks && FreshSpace(Abs(), space)
      requires parent == 0 || IsRunning(slots[..], parent)
      modifies this, slots
      ensures Valid() && Abs() == Launch(old(Abs()), parent, tid, space, created)
      ensures pid > 0 <==> created && FreeSlot(old(slots[..]), 0) < MAX_PROCESSES
      ensures pid > 0 ==> Find(old(slots[..]), pid, 0) == MAX_PROCESSES
    {
      LaunchKeepsInv(Abs(), parent, tid, space, created);
      pid := Allocate(parent, tid, space, created);
    }

    /** ... what it does to the table. */
    method Allocate(parent: int, tid: nat, space: nat, created: bool) returns (pid: int)
      requires slots.Length == MAX_PROCESSES && PidsOk(slots[..]) && 1 <= nextPid <= MAX_PID
      modifies this, slots
      ensures Abs() == Launch(old(Abs()), parent, tid, space, created)
      ensures pid > 0 <==> created && FreeSlot(old(slots[..]), 0) < MAX_PROCESSES
      ensures pid > 0 ==> Find(old(slots[..]), pid, 0) == MAX_PROCESSES
    {
      var i := FindUnused();
      if i == slots.Length {
        return -1;
      }
      PidSearchSucceeds(slots[..], nextPid, i);
      pid := AllocatePid();
      Fill(i, if created then Slot(Running, pid, parent, false, 0, tid, 0, false, space) else Blank());
      if created {
        tasks, adopted := tasks[tid := Task(i, false, space)], adopted + [space];
      } else {
        pid := -1;
      }
    }

    method Fill(i: nat, x: Slot)
      requires i < slots.Length
      modifies slots
      ensures slots[..] == old(slots[..])[i := x]
    {
      slots[i] := x;
    }

    /** The first loop of process_finish_exit. */
    method OrphanChildren(pid: int)
      modifies slots
      ensures slots[..] == Orphan(old(slots[..]), pid)
    {
      for i := 0 to slots.Length
        invariant forall j :: 0 <= j < slots.Length ==>
          slots[j] == if j < i then Orphaned(old(slots[j]), pid) else old(slots[j])
      {
        if slots[i].phase != Unused && slots[i].parent == pid {
          if slots[i].phase == Zombie {
            slots[i] := Blank();
          } else {
            slots[i] := slots[i].(parent := 0, autoReap := true);
          }
        }
      }
    }

    /** process_finish_exit. */
    method FinishExit(i: nat, status: int)
      requires i < slots.Length
      modifies this, slots
      ensures Abs() == Finish(old(Abs()), i, status)
    {
      ghost var s := Abs();
      OrphanChildren(slots[i].pid);
      destroyed := destroyed + [s.slots[i].space];
      Fill(i, slots[i].(phase := Zombie, task := 0, space := 0, status := status));
      if slots[i].parent > 0 {
        var k := FindPid(slots[i].parent);
        parked := WakeWaiters(s, k);
      }
      if slots[i].autoReap {
        Fill(i, Blank());
      }
      assert slots[..] == Finish(s, i, status).slots;
    }

    method LeaveSlot(t: nat, i: nat, thread: bool, status: int)
      requires t in tasks && tasks[t].slot == i < slots.Length && tasks[t].thread == thread
      modifies this, slots
      ensures Abs() == TaskExit(old(Abs()), t, status)
    {
      ghost var s := Abs();
      var p := slots[i];
      tasks, parked := tasks - {t}, parked - {t};
      if thread {
        Fill(i, p.(threads := if p.threads > 0 then p.threads - 1 else 0));
        if slots[i].threads == 0 && slots[i].mainExited {
          FinishExit(i, p.status);
        }
      } else if p.threads > 0 {
        Fill(i, p.(mainExited := true, status := status, task := 0));
      } else {
        assert slots[..] == s.slots[i := p];
        FinishExit(i, status);
      }
    }

    /** process_task_exit and thread_on_exit, for the task t of slot i. */
    method OnExit(t: nat, i: nat, thread: bool, status: int)
      requires Valid() && t in tasks && tasks[t].slot == i && tasks[t].thread == thread
      modifies this, slots
      ensures Valid() && Abs() == TaskExit(old(Abs()), t, status)
    {
      TaskExitKeepsInv(Abs(), t, status);
      LeaveSlot(t, i, thread, status);
    }

    method EnterThread(i: nat, tid: nat)
      requires i < slots.Length
      modifies this, slots
      ensures Abs() == AddThread(old(Abs()), i, tid)
    {
      tasks := tasks[tid := Task(i, true, slots[i].space)];
      Fill(i, slots[i].(threads := slots[i].threads + 1));
    }

    /** process_thread_create by a task of slot i, the task having been created. */
    method CreateThread(i: nat, tid: nat)
      requires Valid() && i < MAX_PROCESSES && slots[i].phase == Running && tid != 0 && tid !in tasks
      modifies this, slots
      ensures Valid() && Abs() == AddThread(old(Abs()), i, tid)
    {
      AddThreadKeepsInv(Abs(), i, tid);
      EnterThread(i, tid);
    }

    method SwapSpace(t: nat, i: nat, space: nat) returns (ok: bool)
      requires t in tasks && tasks[t].slot == i < slots.Length
      modifies this, slots
      ensures Abs() == Exec(old(Abs()), t, space) && (ok <==> old(slots[i]).threads == 0)
    {
      if slots[i].threads > 0 {
        return false;
      }
      tasks := tasks[t := tasks[t].(space := space)];
      adopted, destroyed := adopted + [space], destroyed + [slots[i].space];
      Fill(i, slots[i].(space := space));
      return true;
    }

    /** process_exec_reset by task t of slot i: refused while threads share the space. */
    method ExecReset(t: nat, i: nat, space: nat) returns (ok: bool)
      requires Valid() && t in tasks && tasks[t].slot == i && FreshSpace(Abs(), space)
      modifies this, slots
      ensures Valid() && Abs() == Exec(old(Abs()), t, space) && (ok <==> old(slots[i]).threads == 0)
    {
      ExecKeepsInv(Abs(), t, space);
      ok := SwapSpace(t, i, space);
    }

    /** The scan of process_waitpid. */
    method ScanChildren(parent: int, filter: int) returns (zombie: nat, hasChild: bool)
      ensures zombie == FirstZombie(slots[..], parent, filter, 0)
      ensures zombie == slots.Length ==> (hasChild <==> HasChild(slots[..], parent, filter))
    {
      hasChild := false;
      for i := 0 to slots.Length
        invariant FirstZombie(slots[..], parent, filter, 0) == FirstZombie(slots[..], parent, filter, i)
        invariant hasChild <==> exists j :: 0 <= j < i && Matches(slots[..][j], parent, filter)
      {
        if Matches(slots[i], parent, filter) {
          assert slots[..][i] == slots[i];
          hasChild := true;
          if slots[i].phase == Zombie {
            return i, true;
          }
        }
      }
      return slots.Length, hasChild;
    }

    /** process_waitpid by task t of slot i, up to its return (a pid, 0 or -1) or the next block. */
    method WaitTurn(t: nat, i: nat, filter: int, nohang: bool) returns (blocked: bool, r: int, status: int)
      requires i < slots.Length && t in tasks && tasks[t].slot == i
      modifies this, slots
      ensures Abs() == Waitpid(old(Abs()), t, filter, nohang)
      ensures var z := FirstZombie(old(slots[..]), old(slots[i]).pid, filter, 0);
              if z < slots.Length then !blocked && r == old(slots[..])[z].pid && status == old(slots[..])[z].status
              else if !HasChild(old(slots[..]), old(slots[i]).pid, filter) then !blocked && r == -1
              else blocked == !nohang && r == 0
      ensures var was, me := old(slots[..]), old(slots[i]).pid;
        || (!blocked && exists z :: Collects(was, slots[..], z, me, filter, r, status))
        || (&& NoZombie(was, me, filter) && slots[..] == was
            && r == (if NoChild(was, me, filter) then -1 else 0)
            && blocked == (!nohang && !NoChild(was, me, filter)))
    {
      blocked, r, status := false, 0, 0;
      var z, hasChild := ScanChildren(slots[i].pid, filter);
      if z < slots.Length {
        r, status := slots[z].pid, slots[z].status;
        Fill(z, Blank());
        assert Collects(old(slots[..]), slots[..], z, old(slots[i]).pid, filter, r, status);
        return;
      }
      if !hasChild {
        r := -1;
        return;
      }
      if nohang {
        return;
      }
      parked := parked[t := filter];
      blocked := true;
    }

    method WaitFor(t: nat, i: nat, filter: int, nohang: bool) returns (blocked: bool, r: int, status: int)
      requires Valid() && t in tasks && tasks[t].slot == i
      modifies this, slots
      ensures Valid() && Abs() == Waitpid(old(Abs()), t, filter, nohang)
      ensures blocked ==> t in parked
    {
      WaitpidKeepsInv(Abs(), t, filter, nohang);
      blocked, r, status := WaitTurn(t, i, filter, nohang);
    }

    /** process_detach. */
    method DetachPid(pid: int) returns (r: int)
      requires Valid()
      modifies slots
      ensures Valid() && (r == 0 <==> Find(old(slots[..]), pid, 0) < MAX_PROCESSES)
      ensures Abs() == if r == 0 then Detach(old(Abs()), Find(old(slots[..]), pid, 0)) else old(Abs())
    {
      var j := FindPid(pid);
      if j == slots.Length {
        return -1;
      }
      DetachKeepsInv(Abs(), j);
      Fill(j, if slots[j].phase == Zombie then Blank() else slots[j].(parent := 0, autoReap := true));
      return 0;
    }
  }
}
