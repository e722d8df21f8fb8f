/** What the operations on the process table mean, in the fields of its slots: who a new process belongs
    to, what waitpid returns, what an exit leaves behind, and that the status a parent collects is the
    one its child's main task exited with (process.c). */
module ProcessLaws {
  import opened ProcessTable

  // ---------------------------------------------------------------- launch, thread, exec

  /** The same processes in the same slots. */
  ghost predicate SameProcesses(slots: seq<Slot>, slots': seq<Slot>)
  {
    && |slots'| == |slots|
    && forall j :: 0 <= j < |slots| ==>
         if slots[j].phase == Unused then slots'[j].phase == Unused else slots'[j] == slots[j]
  }

  /** A process just made: running, with a pid that no other has, its parent and its space, one task and no
      thread. */
  ghost predicate Newborn(x: Slot, slots: seq<Slot>, parent: int, tid: nat, space: nat)
  {
    && x.phase == Running && x.parent == parent && !x.autoReap && x.space == space
    && x.task == tid && x.threads == 0 && !x.mainExited && 1 <= x.pid <= MAX_PID
    && forall j :: 0 <= j < |slots| && slots[j].phase != Unused ==> slots[j].pid != x.pid
  }

  /** Slot i gets it, and nothing else changes but the logs. */
  ghost predicate NewProcess(s: State, s': State, i: nat, parent: int, tid: nat, space: nat)
  {
    && i < |s.slots| == |s'.slots| && s.slots[i].phase == Unused && s'.slots == s.slots[i := s'.slots[i]]
    && Newborn(s'.slots[i], s.slots, parent, tid, space)
    && s'.tasks == s.tasks[tid := Task(i, false, space)] && s'.adopted == s.adopted + [space]
    && s'.parked == s.parked && s'.destroyed == s.destroyed
  }

  lemma {:induction false} FreeSlotExists(slots: seq<Slot>, i: nat)
    requires i <= |slots|
    ensures FreeSlot(slots, i) < |slots| <==> exists j :: i <= j < |slots| && slots[j].phase == Unused
    decreases |slots| - i
  {
    if i < |slots| && slots[i].phase != Unused {
      FreeSlotExists(slots, i + 1);
    }
  }

  /** process_launch and process_fork make a process exactly if a slot is unused and a task could be
      created; otherwise every process stays as it is. */
  lemma LaunchLaw(s: State, parent: int, tid: nat, space: nat, created: bool)
    requires Inv(s)
    ensures var s' := Launch(s, parent, tid, space, created);
            if created && exists j :: 0 <= j < |s.slots| && s.slots[j].phase == Unused
            then exists i :: NewProcess(s, s', i, parent, tid, space)
            else SameProcesses(s.slots, s'.slots) && s' == s.(slots := s'.slots, nextPid := s'.nextPid)
  {
    var i, s' := FreeSlot(s.slots, 0), Launch(s, parent, tid, space, created);
    FreeSlotExists(s.slots, 0);
    if i < MAX_PROCESSES {
      PidSearchSucceeds(s.slots, s.nextPid, i);
      if created {
        assert NewProcess(s, s', i, parent, tid, space);
      }
    }
  }

  lemma ThreadLaw(s: State, i: nat, tid: nat)
    requires Inv(s) && i < |s.slots| && s.slots[i].phase == Running && tid !in s.tasks
    ensures var s' := AddThread(s, i, tid);
            && s'.tasks == s.tasks[tid := Task(i, true, s.slots[i].space)]
            && s'.slots == s.slots[i := s'.slots[i]]
            && s'.slots[i] == s.slots[i].(threads := |ThreadsOf(s'.tasks, i)|)
            && s' == s.(slots := s'.slots, tasks := s'.tasks)
  {
    assert Staffed(s.slots[i], s.tasks, i);
    var tasks' := AddThread(s, i, tid).tasks;
    assert ThreadsOf(tasks', i) == ThreadsOf(s.tasks, i) + {tid};
  }

  // ---------------------------------------------------------------- waitpid

  /** Slot j is a child of the process `parent` that waitpid(filter) asks for. */
  ghost predicate AskedFor(slots: seq<Slot>, j: nat, parent: int, filter: int)
  {
    && j < |slots| && slots[j].phase != Unused && slots[j].parent == parent
    && (filter > 0 ==> slots[j].pid == filter)
  }

  /** waitpid releases the first zombie it asks for, blocks only while there is such a child and no such
      zombie, and changes nothing else. */
  lemma WaitpidLaw(s: State, t: nat, filter: int, nohang: bool)
    requires t in s.tasks && s.tasks[t].slot < |s.slots|
    ensures var s', me := Waitpid(s, t, filter, nohang), s.slots[s.tasks[t].slot].pid;
            || (exists z: nat ::
                  && AskedFor(s.slots, z, me, filter) && s.slots[z].phase == Zombie
                  && (forall j: nat :: j < z && AskedFor(s.slots, j, me, filter) ==> s.slots[j].phase != Zombie)
                  && s' == s.(slots := s.slots[z := Blank()]))
            || ((forall j: nat :: AskedFor(s.slots, j, me, filter) ==> s.slots[j].phase != Zombie) &&
                s' == if !nohang && (exists j: nat :: AskedFor(s.slots, j, me, filter))
                      then s.(parked := s.parked[t := filter]) else s)
  {
    var me := s.slots[s.tasks[t].slot].pid;
    var z := FirstZombie(s.slots, me, filter, 0);
    assert forall j: nat :: j < |s.slots| ==> (AskedFor(s.slots, j, me, filter) <==> Matches(s.slots[j], me, filter));
    if z == |s.slots| {
      assert HasChild(s.slots, me, filter) <==> exists j: nat :: AskedFor(s.slots, j, me, filter);
    }
  }

  /** process_wait releases a zombie with that pid and process_detach also frees a running one from its
      parent; no other process notices. */
  lemma ReapAndDetachLaw(s: State, pid: int, j: nat)
    requires Inv(s) && j < |s.slots|
    ensures var x, reaped, detached := s.slots[j], Next(s, DoReap(pid)).slots[j], Next(s, DoDetach(pid)).slots[j];
            if x.phase == Unused || x.pid != pid then reaped == x && detached == x
            else if x.phase == Zombie then reaped.phase == Unused && detached.phase == Unused
            else reaped == x && detached == x.(parent := 0, autoReap := true)
  {
    assert PidsOk(s.slots);
  }

  // ---------------------------------------------------------------- exit

  /** Task t is its process's only task. */
  ghost predicate OnlyTask(s: State, t: nat)
    requires t in s.tasks
  {
    forall u :: u in s.tasks && s.tasks[u].slot == s.tasks[t].slot ==> u == t
  }

  lemma OnlyTaskIffLast(s: State, t: nat)
    requires Inv(s) && t in s.tasks
    ensures OnlyTask(s, t) <==> IsLast(s, t)
  {
    SpaceDestroyedOnce(s, t, 0);
    SameSpaceSameSlot(s);
    var i := s.tasks[t].slot;
    assert forall u :: u in s.tasks && s.tasks[u].slot == i ==> s.tasks[u].space == s.slots[i].space;
  }

  /** A process ends: a parent finds its zombie with that status, unless it reaps itself; its zombie
      children are released and its running ones will reap themselves; the others do not notice. */
  ghost predicate Ends(slots: seq<Slot>, slots': seq<Slot>, i: nat, status: int)
    requires i < |slots|
  {
    var me := slots[i];
    && |slots'| == |slots|
    && (if me.autoReap then slots'[i].phase == Unused
        else && slots'[i].phase == Zombie && slots'[i].status == status && slots'[i].pid == me.pid
             && slots'[i].parent == me.parent && !slots'[i].autoReap)
    && forall j :: 0 <= j < |slots| && j != i ==>
         if slots[j].phase == Unused || slots[j].parent != me.pid then slots'[j] == slots[j]
         else if slots[j].phase == Zombie then slots'[j].phase == Unused
         else slots'[j] == slots[j].(parent := 0, autoReap := true)
  }

  /** A task other than the last goes: a main task leaves its status behind. */
  ghost predicate Shrinks(slots: seq<Slot>, slots': seq<Slot>, i: nat, thread: bool, status: int)
    requires i < |slots|
  {
    && |slots'| == |slots| && slots' == slots[i := slots'[i]]
    && (thread ==> slots'[i] == slots[i].(threads := slots'[i].threads) && slots'[i].threads == slots[i].threads - 1)
    && (!thread ==> slots'[i] == slots[i].(mainExited := true, status := status, task := 0))
  }

  lemma FinishLaw(s: State, i: nat, status: int)
    requires i < |s.slots| && s.slots[i].phase == Running && s.slots[i].parent != s.slots[i].pid
    ensures Ends(s.slots, Finish(s, i, status).slots, i, status)
  {
  }

  lemma EndsOf(slots: seq<Slot>, slots1: seq<Slot>, slots': seq<Slot>, i: nat, status: int)
    requires i < |slots| == |slots1| && slots1 == slots[i := slots1[i]] && Ends(slots1, slots', i, status)
    requires slots1[i].autoReap == slots[i].autoReap && slots1[i].pid == slots[i].pid &&
             slots1[i].parent == slots[i].parent
    ensures Ends(slots, slots', i, status)
  {
  }

  /** The process ends exactly with its last task, with the status its main task exited with. */
  lemma ExitLaw(s: State, t: nat, status: int)
    requires Inv(s) && t in s.tasks
    ensures var i, s' := s.tasks[t].slot, TaskExit(s, t, status);
            && s'.tasks == s.tasks - {t}
            && (if OnlyTask(s, t)
               then Ends(s.slots, s'.slots, i, if s.tasks[t].thread then s.slots[i].status else status)
                else Shrinks(s.slots, s'.slots, i, s.tasks[t].thread, status))
            && s'.destroyed == if OnlyTask(s, t) then s.destroyed + [s.slots[i].space] else s.destroyed
  {
    var i, x := s.tasks[t].slot, SlotAfter(s, t, status);
    OnlyTaskIffLast(s, t);
    assert Used(s.slots[i]);
    if s.tasks[t].thread {
      ThreadIsCounted(s, t);
    }
    if IsLast(s, t) {
      var s1, final := Without(s, t, x), if s.tasks[t].thread then s.slots[i].status else status;
      FinishLaw(s1, i, final);
      EndsOf(s.slots, s1.slots, TaskExit(s, t, status).slots, i, final);
    }
  }

  // ---------------------------------------------------------------- the status a parent collects

  /** The main task of the process in slot i has exited. */
  predicate MainGone(slot: Slot)
  {
    slot.phase == Zombie || (slot.phase == Running && slot.mainExited)
  }

  /** Step k is the exit of the main task of the process that is in slot i in state n, with the status that
      the slot has there; the process has been in the slot since. */
  ghost predicate ExitedAt(ops: seq<Op>, states: seq<State>, k: nat, n: nat, i: nat)
  {
    && k < n < |states| && k < |ops| && i < |states[n].slots| && ops[k].DoExit? && ops[k].t in states[k].tasks
    && var task := states[k].tasks[ops[k].t];
       !task.thread && task.slot == i && ops[k].status == states[n].slots[i].status &&
       forall m :: k <= m <= n ==> InSlot(states[m], i, states[n].slots[i].pid)
  }

  predicate InSlot(s: State, i: nat, pid: int)
  {
    i < |s.slots| && s.slots[i].phase != Unused && s.slots[i].pid == pid
  }

  /** The same process, whose main task was gone already or has just exited with that status. */
  ghost predicate StatusFrom(s: State, op: Op, i: nat, x': Slot)
    requires i < |s.slots|
  {
    var x := s.slots[i];
    && x.phase != Unused && x'.pid == x.pid
    && (|| (MainGone(x) && x'.status == x.status)
        || (op.DoExit? && op.t in s.tasks && s.tasks[op.t] == Task(i, false, x.space) && x'.status == op.status))
  }

  lemma ExitStatus(s: State, t: nat, status: int, i: nat)
    requires Inv(s) && t in s.tasks && i < |s.slots| && MainGone(TaskExit(s, t, status).slots[i])
    ensures StatusFrom(s, DoExit(t, status), i, TaskExit(s, t, status).slots[i])
  {
    ExitLaw(s, t, status);
    OnlyTaskIffLast(s, t);
    assert s.tasks[t].space == s.slots[s.tasks[t].slot].space;
  }

  lemma LaunchStatus(s: State, parent: int, tid: nat, space: nat, created: bool, i: nat)
    requires Inv(s) && i < |s.slots| && MainGone(Launch(s, parent, tid, space, created).slots[i])
    ensures Launch(s, parent, tid, space, created).slots[i] == s.slots[i]
  {
    LaunchLaw(s, parent, tid, space, created);
  }

  /** A slot whose main task is gone keeps pid and status until it is released; a slot gets into that state
      by the exit of its main task only. */
  lemma StatusKept(s: State, op: Op, s': State, i: nat)
    requires Inv(s) && Enabled(s, op) && s' == Next(s, op) && i < |s.slots| == |s'.slots| && MainGone(s'.slots[i])
    ensures StatusFrom(s, op, i, s'.slots[i])
  {
    match op
    case DoLaunch(caller, tid, space, created) =>
      LaunchStatus(s, if caller == 0 then 0 else s.slots[s.tasks[caller].slot].pid, tid, space, created, i);
    case DoExit(t, status) => ExitStatus(s, t, status, i);
    case DoThread(caller, tid) => ThreadStatus(s, s.tasks[caller].slot, tid, i);
    case DoExec(t, space) => ExecStatus(s, t, space, i);
    case DoWaitpid(t, filter, nohang) => WaitpidStatus(s, t, filter, nohang, i);
    case DoReap(pid) => ReleaseStatus(s, Find(s.slots, pid, 0), i);
    case DoDetach(pid) => ReleaseStatus(s, Find(s.slots, pid, 0), i);
    case DoWake(t) =>
  }

  /** The same process, as far as its end goes. */
  predicate SameEnd(x: Slot, x': Slot)
  {
    MainGone(x') ==> MainGone(x) && x'.pid == x.pid && x'.status == x.status
  }

  lemma ThreadStatus(s: State, j: nat, tid: nat, i: nat)
    requires j < |s.slots| && i < |s.slots|
    ensures SameEnd(s.slots[i], AddThread(s, j, tid).slots[i])
  {
  }

  lemma ExecStatus(s: State, t: nat, space: nat, i: nat)
    requires t in s.tasks && s.tasks[t].slot < |s.slots| && i < |s.slots|
    ensures SameEnd(s.slots[i], Exec(s, t, space).slots[i])
  {
  }

  lemma ReleaseStatus(s: State, j: nat, i: nat)
    requires i < |s.slots|
    ensures j < |s.slots| ==> SameEnd(s.slots[i], Release(s, j).slots[i]) && SameEnd(s.slots[i], Detach(s, j).slots[i])
  {
  }

  lemma WaitpidStatus(s: State, t: nat, filter: int, nohang: bool, i: nat)
    requires t in s.tasks && s.tasks[t].slot < |s.slots| && i < |s.slots|
    ensures SameEnd(s.slots[i], Waitpid(s, t, filter, nohang).slots[i])
  {
    ReleaseStatus(s, FirstZombie(s.slots, s.slots[s.tasks[t].slot].pid, filter, 0), i);
  }

  lemma ExitedOn(ops: seq<Op>, states: seq<State>, k: nat, n: nat, i: nat)
    requires ExitedAt(ops, states, k, n, i) && n + 1 < |states| && i < |states[n + 1].slots|
    requires var x, x' := states[n].slots[i], states[n + 1].slots[i];
             x'.phase != Unused && x'.pid == x.pid && x'.status == x.status
    ensures ExitedAt(ops, states, k, n + 1, i)
  {
  }

  lemma FollowStatus(s: State, op: Op, s': State, i: nat)
    requires Inv(s) && Follows(s, op, s') && i < |s.slots| == |s'.slots| && MainGone(s'.slots[i])
    ensures StatusFrom(s, op, i, s'.slots[i])
  {
    StatusKept(s, op, s', i);
  }

  /** In every state of every run, a process whose main task is gone, a zombie above all, has the status with
      which its main task exited. With WaitpidLaw: that is the status its parent collects. */
  lemma {:induction false} StatusIsTheExit(ops: seq<Op>, states: seq<State>, n: nat, i: nat) returns (k: nat)
    requires IsRun(ops, states) && n <= |ops| && i < MAX_PROCESSES == |states[n].slots| && MainGone(states[n].slots[i])
    ensures ExitedAt(ops, states, k, n, i)
    decreases n
  {
    assert n > 0;
    TableSize(ops, states, n - 1);
    RunStatus(ops, states, n - 1, i);
    if MainGone(states[n - 1].slots[i]) && states[n].slots[i].status == states[n - 1].slots[i].status {
      k := StatusIsTheExit(ops, states, n - 1, i);
      ExitedOn(ops, states, k, n - 1, i);
    } else {
      k := n - 1;
    }
  }

  lemma TableSize(ops: seq<Op>, states: seq<State>, n: nat)
    requires IsRun(ops, states) && n <= |ops|
    ensures |states[n].slots| == MAX_PROCESSES
  {
    TableIsSound(ops, states, n);
  }

  lemma RunStatus(ops: seq<Op>, states: seq<State>, n: nat, i: nat)
    requires IsRun(ops, states) && n < |ops| && i < MAX_PROCESSES == |states[n].slots| == |states[n + 1].slots|
    requires MainGone(states[n + 1].slots[i])
    ensures StatusFrom(states[n], ops[n], i, states[n + 1].slots[i])
  {
    TableIsSound(ops, states, n);
    FollowStatus(states[n], ops[n], states[n + 1], i);
  }
}
