/** The process table (process.c): pids, parents, zombies, threads, address spaces and waiters, and
    what every operation does to them. Each operation runs with interrupts off and is one step. */
module ProcessTable {
  const MAX_PROCESSES := 16
  const MAX_PID := 0x7FFF_FFFF

  datatype Phase = Unused | Running | Zombie

  /** A slot of the table: `task` is the main task, or 0; `space` the address space, or 0. */
  datatype Slot = Slot(phase: Phase, pid: int, parent: int, autoReap: bool, status: int, task: nat, threads: nat,
                       mainExited: bool, space: nat)

  /** A live task of a process. */
  datatype Task = Task(slot: nat, thread: bool, space: nat)

  /** The table and the pid counter; the live tasks that belong to processes; the tasks parked in
      waitpid with the pid they wait for; and the address spaces that were given to processes and those
      that were destroyed, in order. A space is named by its block, which is used again once the space
      has been destroyed. */
  datatype State = State(slots: seq<Slot>, nextPid: int, tasks: map<nat, Task>, parked: map<nat, int>,
                         adopted: seq<nat>, destroyed: seq<nat>)

  function Blank(): Slot
  {
    Slot(Unused, 0, 0, false, 0, 0, 0, false, 0)
  }

  function Used(slot: Slot): bool
  {
    slot.phase != Unused
  }

  // ---------------------------------------------------------------- invariant

  ghost predicate PidsOk(slots: seq<Slot>)
  {
    && |slots| == MAX_PROCESSES
    && (forall i :: 0 <= i < |slots| && Used(slots[i]) ==> 1 <= slots[i].pid <= MAX_PID)
    && (forall i, j :: 0 <= i < j < |slots| && Used(slots[i]) && Used(slots[j]) ==> slots[i].pid != slots[j].pid)
  }

  ghost predicate IsRunning(slots: seq<Slot>, pid: int)
  {
    exists j :: 0 <= j < |slots| && slots[j].phase == Running && slots[j].pid == pid
  }

  /** A positive parent pid names another process, which is running; a process that will reap itself
      has no parent and is not a zombie. */
  ghost predicate ParentsOk(slots: seq<Slot>)
  {
    forall i :: 0 <= i < |slots| && Used(slots[i]) ==>
      && slots[i].parent >= 0 && slots[i].parent != slots[i].pid
      && (slots[i].parent > 0 ==> IsRunning(slots, slots[i].parent))
      && (slots[i].autoReap ==> slots[i].parent == 0 && slots[i].phase == Running)
  }

  function ThreadsOf(tasks: map<nat, Task>, i: nat): set<nat>
  {
    set t | t in tasks && tasks[t].slot == i && tasks[t].thread
  }

  /** Tasks belong to running processes and use their process's space. */
  ghost predicate Homes(slots: seq<Slot>, tasks: map<nat, Task>)
  {
    0 !in tasks && forall t :: t in tasks ==>
      && tasks[t].slot < |slots| && slots[tasks[t].slot].phase == Running
      && tasks[t].space == slots[tasks[t].slot].space && (!tasks[t].thread ==> slots[tasks[t].slot].task == t)
  }

  /** The slot names its main task and counts its threads; a process whose main task is gone has
      threads left. */
  ghost predicate Staffed(slot: Slot, tasks: map<nat, Task>, i: nat)
  {
    && (slot.task == 0 <==> slot.mainExited)
    && (slot.task != 0 ==> slot.task in tasks && tasks[slot.task].slot == i && !tasks[slot.task].thread)
    && slot.threads == |ThreadsOf(tasks, i)| && (slot.mainExited ==> slot.threads > 0)
  }

  ghost predicate TasksOk(slots: seq<Slot>, tasks: map<nat, Task>)
  {
    Homes(slots, tasks) && forall i :: 0 <= i < |slots| && slots[i].phase == Running ==> Staffed(slots[i], tasks, i)
  }

  /** Running processes have spaces of their own. */
  ghost predicate SpacesOk(slots: seq<Slot>)
  {
    && (forall i :: 0 <= i < |slots| && slots[i].phase == Running ==> slots[i].space != 0)
    && (forall i, j :: 0 <= i < j < |slots| && slots[i].phase == Running && slots[j].phase == Running ==>
       slots[i].space != slots[j].space)
  }

  predicate Matches(slot: Slot, parent: int, filter: int)
  {
    Used(slot) && slot.parent == parent && (filter <= 0 || slot.pid == filter)
  }

  /** Nobody is parked in waitpid while a zombie it waits for is there. */
  ghost predicate WaitersOk(slots: seq<Slot>, tasks: map<nat, Task>, parked: map<nat, int>)
  {
    forall t :: t in parked ==>
      && t in tasks && tasks[t].slot < |slots|
      && forall j :: 0 <= j < |slots| && slots[j].phase == Zombie ==>
         !Matches(slots[j], slots[tasks[t].slot].pid, parked[t])
  }

  ghost predicate Inv(s: State)
  {
    && PidsOk(s.slots) && ParentsOk(s.slots) && TasksOk(s.slots, s.tasks) && SpacesOk(s.slots)
    && WaitersOk(s.slots, s.tasks, s.parked) && 1 <= s.nextPid <= MAX_PID
  }

  // ---------------------------------------------------------------- pids

  /** process_find: the slot with that pid, or MAX_PROCESSES. */
  function Find(slots: seq<Slot>, pid: int, i: nat): (k: nat)
    requires i <= |slots|
    ensures i <= k <= |slots|
    ensures k < |slots| ==> Used(slots[k]) && slots[k].pid == pid
    ensures forall j :: i <= j < k ==> !(Used(slots[j]) && slots[j].pid == pid)
    decreases |slots| - i
  {
    if i == |slots| || (Used(slots[i]) && slots[i].pid == pid) then i else Find(slots, pid, i + 1)
  }

  function Step(pid: int): int
  {
    if pid == MAX_PID then 1 else pid + 1
  }

  /** process_allocate_pid with that many attempts left: the pid found (or -1) and the counter. */
  function AllocPid(slots: seq<Slot>, next: int, attempts: nat): (int, int)
    decreases attempts
  {
    if attempts == 0 then (-1, next)
    else if Find(slots, next, 0) == |slots| then (next, Step(next))
    else AllocPid(slots, Step(next), attempts - 1)
  }

  /** After how many candidates, counting from `first`, pid p is tried. */
  function Turns(first: int, p: int): int
  {
    if p >= first then p - first else p - first + MAX_PID
  }

  /** If `taken` are as many slots as candidates were tried, and hold just those, the search goes on
      to succeed. */
  lemma {:induction false} AllocPidFinds(slots: seq<Slot>, first: int, next: int, taken: set<nat>, free: nat)
    requires PidsOk(slots) && 1 <= first <= MAX_PID && 1 <= next <= MAX_PID && free < |slots| && !Used(slots[free])
    requires |taken| == Turns(first, next) <= MAX_PROCESSES
    requires forall i :: i in taken ==>
             i < |slots| && i != free && Used(slots[i]) && Turns(first, slots[i].pid) < Turns(first, next)
    ensures var r := AllocPid(slots, next, MAX_PROCESSES - Turns(first, next));
            1 <= r.0 <= MAX_PID && 1 <= r.1 <= MAX_PID && Find(slots, r.0, 0) == |slots|
    decreases MAX_PROCESSES - Turns(first, next)
  {
    var k := Find(slots, next, 0);
    TakenIsSmall(taken, free, |slots|);
    if k < |slots| {
      assert k !in taken;
      assert Turns(first, Step(next)) == Turns(first, next) + 1;
      AllocPidFinds(slots, first, Step(next), taken + {k}, free);
    }
  }

  /** Pigeonhole: indices below n other than `free` number fewer than n. */
  lemma TakenIsSmall(taken: set<nat>, free: nat, n: nat)
    requires free < n && free !in taken && forall i :: i in taken ==> i < n
    ensures |taken| < n
  {
    var all := taken + {free};
    BoundedSet(all, n);
    assert |all| == |taken| + 1;
  }

  lemma {:induction false} BoundedSet(s: set<nat>, n: nat)
    requires forall i :: i in s ==> i < n
    ensures |s| <= n
  {
    if n == 0 {
      assert s == {};
    } else {
      var rest := s - {n - 1};
      BoundedSet(rest, n - 1);
      assert |s| <= |rest| + 1 by {
        if n - 1 in s {
          assert s == rest + {n - 1};
        } else {
          assert s == rest;
        }
      }
    }
  }

  /** While a slot is free a pid is found, it is positive, and no process has it. */
  lemma PidSearchSucceeds(slots: seq<Slot>, next: int, free: nat)
    requires PidsOk(slots) && 1 <= next <= MAX_PID && free < |slots| && !Used(slots[free])
    ensures var r := AllocPid(slots, next, MAX_PROCESSES);
            1 <= r.0 <= MAX_PID && 1 <= r.1 <= MAX_PID && Find(slots, r.0, 0) == |slots|
  {
    AllocPidFinds(slots, next, next, {}, free);
  }

  // ---------------------------------------------------------------- operations

  function FreeSlot(slots: seq<Slot>, i: nat): (k: nat)
    requires i <= |slots|
    ensures i <= k <= |slots| && (k < |slots| ==> !Used(slots[k]))
    decreases |slots| - i
  {
    if i == |slots| || !Used(slots[i]) then i else FreeSlot(slots, i + 1)
  }

  /** process_launch, and process_fork as far as the table goes. `created` says whether a task could
      be created for the process. */
  function Launch(s: State, parent: int, tid: nat, space: nat, created: bool): State
    requires |s.slots| == MAX_PROCESSES
  {
    var i := FreeSlot(s.slots, 0);
    if i == MAX_PROCESSES then s
    else
      var (pid, next) := AllocPid(s.slots, s.nextPid, MAX_PROCESSES);
      if pid < 1 then s.(nextPid := next)
      else if !created then s.(slots := s.slots[i := Blank()], nextPid := next)
      else s.(slots := s.slots[i := Slot(Running, pid, parent, false, 0, tid, 0, false, space)], nextPid := next,
              tasks := s.tasks[tid := Task(i, false, space)], adopted := s.adopted + [space])
  }

  /** process_thread_create by a task of slot i. */
  function AddThread(s: State, i: nat, tid: nat): State
    requires i < |s.slots|
  {
    s.(slots := s.slots[i := s.slots[i].(threads := s.slots[i].threads + 1)],
       tasks := s.tasks[tid := Task(i, true, s.slots[i].space)])
  }

  /** What becomes of a child of `pid` when that process ends. */
  function Orphaned(slot: Slot, pid: int): Slot
  {
    if !Used(slot) || slot.parent != pid then slot
    else if slot.phase == Zombie then Blank()
    else slot.(parent := 0, autoReap := true)
  }

  function Orphan(slots: seq<Slot>, pid: int): (r: seq<Slot>)
    ensures |r| == |slots| && forall i :: 0 <= i < |slots| ==> r[i] == Orphaned(slots[i], pid)
  {
    seq(|slots|, i requires 0 <= i < |slots| => Orphaned(slots[i], pid))
  }

  /** task_wake_all on the waitpid channel of slot k. */
  function WakeWaiters(s: State, k: nat): map<nat, int>
  {
    map t | t in s.parked && !(t in s.tasks && s.tasks[t].slot == k) :: s.parked[t]
  }

  /** process_finish_exit. */
  function Finish(s: State, i: nat, status: int): State
    requires i < |s.slots|
  {
    var slots := Orphan(s.slots, s.slots[i].pid);
    var me := slots[i].(phase := Zombie, task := 0, space := 0, status := status);
    s.(slots := slots[i := if me.autoReap then Blank() else me],
       destroyed := s.destroyed + [s.slots[i].space],
       parked := if me.parent > 0 then WakeWaiters(s, Find(slots[i := me], me.parent, 0)) else s.parked)
  }

  /** process_exec_reset by task t. */
  function Exec(s: State, t: nat, space: nat): State
    requires t in s.tasks && s.tasks[t].slot < |s.slots|
  {
    var i := s.tasks[t].slot;
    if s.slots[i].threads > 0 then s
    else s.(slots := s.slots[i := s.slots[i].(space := space)], tasks := s.tasks[t := s.tasks[t].(space := space)],
            adopted := s.adopted + [space], destroyed := s.destroyed + [s.slots[i].space])
  }

  /** process_release. */
  function Release(s: State, j: nat): State
    requires j < |s.slots|
  {
    s.(slots := s.slots[j := Blank()])
  }

  /** process_detach of the process in slot j. */
  function Detach(s: State, j: nat): State
    requires j < |s.slots|
  {
    if s.slots[j].phase == Zombie then Release(s, j)
      else s.(slots := s.slots[j := s.slots[j].(parent := 0, autoReap := true)])
  }

  /** The first matching zombie, or MAX_PROCESSES. */
  function FirstZombie(slots: seq<Slot>, parent: int, filter: int, i: nat): (k: nat)
    requires i <= |slots|
    ensures i <= k <= |slots|
    ensures k < |slots| ==> slots[k].phase == Zombie && Matches(slots[k], parent, filter)
    ensures forall j :: i <= j < k ==> !(slots[j].phase == Zombie && Matches(slots[j], parent, filter))
    decreases |slots| - i
  {
    if i == |slots| || (slots[i].phase == Zombie && Matches(slots[i], parent, filter)) then i
      else FirstZombie(slots, parent, filter, i + 1)
  }

  ghost predicate HasChild(slots: seq<Slot>, parent: int, filter: int)
  {
    exists j :: 0 <= j < |slots| && Matches(slots[j], parent, filter)
  }

  /** process_waitpid by task t, up to its return or to the next block. */
  ghost function Waitpid(s: State, t: nat, filter: int, nohang: bool): State
    requires t in s.tasks && s.tasks[t].slot < |s.slots|
  {
    var pid := s.slots[s.tasks[t].slot].pid;
    var z := FirstZombie(s.slots, pid, filter, 0);
    if z < |s.slots| then Release(s, z)
    else if nohang || !HasChild(s.slots, pid, filter) then s
    else s.(parked := s.parked[t := filter])
  }

  // ---------------------------------------------------------------- every operation keeps the invariant

  lemma StillRunning(slots: seq<Slot>, slots': seq<Slot>, pid: int)
    requires IsRunning(slots, pid) && |slots'| == |slots|
    requires forall j :: 0 <= j < |slots| && slots[j].phase == Running && slots[j].pid == pid ==>
               slots'[j].phase == Running && slots'[j].pid == pid
    ensures IsRunning(slots', pid)
  {
    var j :| 0 <= j < |slots| && slots[j].phase == Running && slots[j].pid == pid;
    assert slots'[j].phase == Running && slots'[j].pid == pid;
  }

  // One lemma for each part of the invariant, for a change of slot j to x.

  lemma PidsUpdate(slots: seq<Slot>, j: nat, x: Slot)
    requires PidsOk(slots) && j < |slots|
    requires Used(x) ==> 1 <= x.pid <= MAX_PID && forall i :: 0 <= i < |slots| && i != j && Used(slots[i]) ==>
             slots[i].pid != x.pid
    ensures PidsOk(slots[j := x])
  {
  }

  lemma ParentsUpdate(slots: seq<Slot>, j: nat, x: Slot)
    requires ParentsOk(slots) && j < |slots|
    requires slots[j].phase == Running ==> x.phase == Running && x.pid == slots[j].pid
    requires Used(x) ==> x.parent >= 0 && x.parent != x.pid && (x.autoReap ==> x.parent == 0 && x.phase == Running)
    requires Used(x) && x.parent > 0 ==> IsRunning(slots, x.parent)
    ensures ParentsOk(slots[j := x])
  {
    var slots' := slots[j := x];
    forall i | 0 <= i < |slots'| && Used(slots'[i]) && slots'[i].parent > 0
      ensures IsRunning(slots', slots'[i].parent)
    {
      StillRunning(slots, slots', slots'[i].parent);
    }
  }

  lemma TasksUpdate(slots: seq<Slot>, tasks: map<nat, Task>, j: nat, x: Slot)
    requires TasksOk(slots, tasks) && j < |slots|
    requires slots[j].phase == Running <==> x.phase == Running
    requires slots[j].phase == Running ==> x == slots[j].(parent := x.parent, autoReap := x.autoReap)
    ensures TasksOk(slots[j := x], tasks)
  {
  }

  lemma SpacesUpdate(slots: seq<Slot>, j: nat, x: Slot)
    requires SpacesOk(slots) && j < |slots|
    requires x.phase == Running ==> x.space != 0
    requires x.phase == Running ==> forall i :: 0 <= i < |slots| && i != j && slots[i].phase == Running ==>
             slots[i].space != x.space
    ensures SpacesOk(slots[j := x])
  {
  }

  lemma WaitersUpdate(slots: seq<Slot>, tasks: map<nat, Task>, parked: map<nat, int>, j: nat, x: Slot)
    requires WaitersOk(slots, tasks, parked) && j < |slots| && x.phase != Zombie
    requires forall t :: t in parked && t in tasks && tasks[t].slot == j ==> x.pid == slots[j].pid
    ensures WaitersOk(slots[j := x], tasks, parked)
  {
  }

  lemma WaitersExtend(slots: seq<Slot>, tasks: map<nat, Task>, parked: map<nat, int>, tid: nat, x: Task)
    requires WaitersOk(slots, tasks, parked) && tid !in tasks
    ensures WaitersOk(slots, tasks[tid := x], parked)
  {
  }

  lemma NoTaskHere(slots: seq<Slot>, tasks: map<nat, Task>, j: nat)
    requires TasksOk(slots, tasks) && j < |slots| && slots[j].phase != Running
    ensures forall t :: t in tasks ==> tasks[t].slot != j
  {
  }

  lemma ReleaseKeepsInv(s: State, j: nat)
    requires Inv(s) && j < |s.slots| && s.slots[j].phase == Zombie
    ensures Inv(Release(s, j))
  {
    PidsUpdate(s.slots, j, Blank());
    ParentsUpdate(s.slots, j, Blank());
    TasksUpdate(s.slots, s.tasks, j, Blank());
    SpacesUpdate(s.slots, j, Blank());
    NoTaskHere(s.slots, s.tasks, j);
    WaitersUpdate(s.slots, s.tasks, s.parked, j, Blank());
  }

  lemma DetachKeepsInv(s: State, j: nat)
    requires Inv(s) && j < |s.slots| && Used(s.slots[j])
    ensures Inv(Detach(s, j))
  {
    if s.slots[j].phase == Zombie {
      ReleaseKeepsInv(s, j);
    } else {
      var x := s.slots[j].(parent := 0, autoReap := true);
      PidsUpdate(s.slots, j, x);
      ParentsUpdate(s.slots, j, x);
      TasksUpdate(s.slots, s.tasks, j, x);
      SpacesUpdate(s.slots, j, x);
      WaitersUpdate(s.slots, s.tasks, s.parked, j, x);
    }
  }

  lemma ParkKeepsInv(s: State, t: nat, filter: int)
    requires Inv(s) && t in s.tasks && FirstZombie(s.slots, s.slots[s.tasks[t].slot].pid, filter, 0) == |s.slots|
    ensures Inv(s.(parked := s.parked[t := filter]))
  {
    assert WaitersOk(s.slots, s.tasks, s.parked[t := filter]);
  }

  lemma WaitpidKeepsInv(s: State, t: nat, filter: int, nohang: bool)
    requires Inv(s) && t in s.tasks
    ensures Inv(Waitpid(s, t, filter, nohang))
  {
    var pid := s.slots[s.tasks[t].slot].pid;
    var z := FirstZombie(s.slots, pid, filter, 0);
    if z < |s.slots| {
      ReleaseKeepsInv(s, z);
    } else if !nohang && HasChild(s.slots, pid, filter) {
      ParkKeepsInv(s, t, filter);
    }
  }

  // ---------------------------------------------------------------- launch

  lemma NewProcessTasks(slots: seq<Slot>, tasks: map<nat, Task>, i: nat, x: Slot, tid: nat)
    requires TasksOk(slots, tasks) && i < |slots| && !Used(slots[i]) && tid != 0 && tid !in tasks
    requires x.phase == Running && x.task == tid && x.threads == 0 && !x.mainExited
    ensures TasksOk(slots[i := x], tasks[tid := Task(i, false, x.space)])
  {
    var tasks' := tasks[tid := Task(i, false, x.space)];
    forall j: nat | j < |slots|
      ensures ThreadsOf(tasks', j) == ThreadsOf(tasks, j)
    {
    }
    NoTaskHere(slots, tasks, i);
    assert ThreadsOf(tasks', i) == {};
  }

  lemma EnterKeepsInv(s: State, i: nat, pid: int, parent: int, tid: nat, space: nat)
    requires Inv(s) && i < |s.slots| && !Used(s.slots[i]) && tid != 0 && tid !in s.tasks && space != 0
    requires forall j :: 0 <= j < |s.slots| && s.slots[j].phase == Running ==> s.slots[j].space != space
    requires 1 <= pid <= MAX_PID && forall j :: 0 <= j < |s.slots| && Used(s.slots[j]) ==> s.slots[j].pid != pid
    requires parent == 0 || IsRunning(s.slots, parent)
    ensures Inv(s.(slots := s.slots[i := Slot(Running, pid, parent, false, 0, tid, 0, false, space)],
                   tasks := s.tasks[tid := Task(i, false, space)], adopted := s.adopted + [space]))
  {
    var x := Slot(Running, pid, parent, false, 0, tid, 0, false, space);
    NoTaskHere(s.slots, s.tasks, i);
    PidsUpdate(s.slots, i, x);
    ParentsUpdate(s.slots, i, x);
    SpacesUpdate(s.slots, i, x);
    NewProcessTasks(s.slots, s.tasks, i, x, tid);
    WaitersUpdate(s.slots, s.tasks, s.parked, i, x);
    WaitersExtend(s.slots[i := x], s.tasks, s.parked, tid, Task(i, false, space));
  }

  lemma ClearKeepsInv(s: State, i: nat)
    requires Inv(s) && i < |s.slots| && !Used(s.slots[i])
    ensures Inv(s.(slots := s.slots[i := Blank()]))
  {
    NoTaskHere(s.slots, s.tasks, i);
    PidsUpdate(s.slots, i, Blank());
    ParentsUpdate(s.slots, i, Blank());
    TasksUpdate(s.slots, s.tasks, i, Blank());
    SpacesUpdate(s.slots, i, Blank());
    WaitersUpdate(s.slots, s.tasks, s.parked, i, Blank());
  }

  /** A new process gets a fresh pid; its parent is running, or 0. */
  lemma LaunchKeepsInv(s: State, parent: int, tid: nat, space: nat, created: bool)
    requires Inv(s) && tid != 0 && tid !in s.tasks && space != 0
    requires forall i :: 0 <= i < |s.slots| && s.slots[i].phase == Running ==> s.slots[i].space != space
    requires parent == 0 || IsRunning(s.slots, parent)
    ensures Inv(Launch(s, parent, tid, space, created))
  {
    var i := FreeSlot(s.slots, 0);
    if i < |s.slots| {
      PidSearchSucceeds(s.slots, s.nextPid, i);
      var (pid, next) := AllocPid(s.slots, s.nextPid, MAX_PROCESSES);
      var s1 := s.(nextPid := next);
      if created {
        EnterKeepsInv(s1, i, pid, parent, tid, space);
      } else {
        ClearKeepsInv(s1, i);
      }
    }
  }

  // ---------------------------------------------------------------- threads and exec

  lemma ThreadAdded(tasks: map<nat, Task>, i: nat, tid: nat, space: nat, j: nat)
    requires tid !in tasks
    ensures |ThreadsOf(tasks[tid := Task(i, true, space)], j)| == |ThreadsOf(tasks, j)| + if j == i then 1 else 0
  {
    var tasks' := tasks[tid := Task(i, true, space)];
    if j == i {
      assert ThreadsOf(tasks', j) == ThreadsOf(tasks, j) + {tid};
    } else {
      assert ThreadsOf(tasks', j) == ThreadsOf(tasks, j);
    }
  }

  lemma ThreadTasks(s: State, i: nat, tid: nat, s': State)
    requires TasksOk(s.slots, s.tasks) && i < |s.slots| && s.slots[i].phase == Running && tid != 0 && tid !in s.tasks
    requires s' == AddThread(s, i, tid)
    ensures TasksOk(s'.slots, s'.tasks)
  {
    forall j: nat | j < |s.slots|
      ensures |ThreadsOf(s'.tasks, j)| == |ThreadsOf(s.tasks, j)| + if j == i then 1 else 0
    {
      ThreadAdded(s.tasks, i, tid, s.slots[i].space, j);
    }
    forall j | 0 <= j < |s'.slots| && s'.slots[j].phase == Running
      ensures Staffed(s'.slots[j], s'.tasks, j)
    {
      assert Staffed(s.slots[j], s.tasks, j);
    }
  }

  lemma Together(s: State)
    requires PidsOk(s.slots) && ParentsOk(s.slots) && TasksOk(s.slots, s.tasks) && SpacesOk(s.slots)
    requires WaitersOk(s.slots, s.tasks, s.parked) && 1 <= s.nextPid <= MAX_PID
    ensures Inv(s)
  {
  }

  /** The tables differ only in which tasks the processes have. */
  ghost predicate SameShape(slots: seq<Slot>, slots': seq<Slot>)
  {
    |slots'| == |slots| && forall i :: 0 <= i < |slots| ==>
      && slots'[i].phase == slots[i].phase && slots'[i].pid == slots[i].pid && slots'[i].parent == slots[i].parent
      && slots'[i].autoReap == slots[i].autoReap && slots'[i].space == slots[i].space
  }

  lemma ShapePids(slots: seq<Slot>, slots': seq<Slot>)
    requires SameShape(slots, slots') && PidsOk(slots)
    ensures PidsOk(slots')
  {
  }

  lemma ShapeParents(slots: seq<Slot>, slots': seq<Slot>)
    requires SameShape(slots, slots') && ParentsOk(slots)
    ensures ParentsOk(slots')
  {
    forall i | 0 <= i < |slots'| && Used(slots'[i]) && slots'[i].parent > 0
      ensures IsRunning(slots', slots'[i].parent)
    {
      StillRunning(slots, slots', slots[i].parent);
    }
  }

  lemma ShapeSpaces(slots: seq<Slot>, slots': seq<Slot>)
    requires SameShape(slots, slots') && SpacesOk(slots)
    ensures SpacesOk(slots')
  {
  }

  lemma ShapeWaiters(slots: seq<Slot>, slots': seq<Slot>, tasks: map<nat, Task>, parked: map<nat, int>, tasks': map<nat,
                     Task>, parked': map<nat, int>)
    requires SameShape(slots, slots') && WaitersOk(slots, tasks, parked)
    requires forall t :: t in parked' ==>
             t in parked && parked'[t] == parked[t] && t in tasks && t in tasks' && tasks'[t].slot == tasks[t].slot
    ensures WaitersOk(slots', tasks', parked')
  {
    forall t | t in parked'
      ensures tasks'[t].slot < |slots'|
      ensures forall j :: 0 <= j < |slots'| && slots'[j].phase == Zombie ==>
              !Matches(slots'[j], slots'[tasks'[t].slot].pid, parked'[t])
    {
      assert t in parked;
    }
  }

  /** Only tasks changed: the rest of the invariant carries over. */
  lemma ShapeKeepsInv(s: State, s': State)
    requires PidsOk(s.slots) && ParentsOk(s.slots) && SpacesOk(s.slots) && WaitersOk(s.slots, s.tasks, s.parked)
    requires SameShape(s.slots, s'.slots) && 1 <= s'.nextPid <= MAX_PID
    requires forall t :: t in s'.parked ==>
      t in s.parked && s'.parked[t] == s.parked[t] && t in s.tasks && t in s'.tasks &&
        s'.tasks[t].slot == s.tasks[t].slot
    ensures PidsOk(s'.slots) && ParentsOk(s'.slots) && SpacesOk(s'.slots) && WaitersOk(s'.slots, s'.tasks, s'.parked)
  {
    ShapePids(s.slots, s'.slots);
    ShapeParents(s.slots, s'.slots);
    ShapeSpaces(s.slots, s'.slots);
    ShapeWaiters(s.slots, s'.slots, s.tasks, s.parked, s'.tasks, s'.parked);
  }

  lemma AddThreadKeepsInv(s: State, i: nat, tid: nat)
    requires Inv(s) && i < |s.slots| && s.slots[i].phase == Running && tid != 0 && tid !in s.tasks
    ensures Inv(AddThread(s, i, tid))
  {
    var s' := AddThread(s, i, tid);
    ShapeKeepsInv(s, s');
    ThreadTasks(s, i, tid, s');
    Together(s');
  }

  /** Without threads, the main task is the only one. */
  lemma OnlyMain(slots: seq<Slot>, tasks: map<nat, Task>, t: nat)
    requires TasksOk(slots, tasks) && t in tasks && slots[tasks[t].slot].threads == 0
    ensures !tasks[t].thread && forall u :: u in tasks && tasks[u].slot == tasks[t].slot ==> u == t
  {
    var i := tasks[t].slot;
    assert ThreadsOf(tasks, i) == {};
    forall u | u in tasks && tasks[u].slot == i
      ensures !tasks[u].thread && u == slots[i].task
    {
      assert tasks[u].thread ==> u in ThreadsOf(tasks, i);
    }
  }

  lemma ExecTasks(slots: seq<Slot>, tasks: map<nat, Task>, t: nat, space: nat)
    requires TasksOk(slots, tasks) && t in tasks && slots[tasks[t].slot].threads == 0
    ensures TasksOk(slots[tasks[t].slot := slots[tasks[t].slot].(space := space)],
            tasks[t := tasks[t].(space := space)])
  {
    OnlyMain(slots, tasks, t);
    var tasks' := tasks[t := tasks[t].(space := space)];
    forall j: nat | j < |slots|
      ensures ThreadsOf(tasks', j) == ThreadsOf(tasks, j)
    {
    }
  }

  lemma ExecKeepsInv(s: State, t: nat, space: nat)
    requires Inv(s) && t in s.tasks && space != 0
    requires forall i :: 0 <= i < |s.slots| && s.slots[i].phase == Running ==> s.slots[i].space != space
    ensures Inv(Exec(s, t, space))
  {
    var i := s.tasks[t].slot;
    if s.slots[i].threads == 0 {
      var x := s.slots[i].(space := space);
      ExecTasks(s.slots, s.tasks, t, space);
      PidsUpdate(s.slots, i, x);
      ParentsUpdate(s.slots, i, x);
      SpacesUpdate(s.slots, i, x);
      ExecWaiters(s, t, x);
    }
  }

  lemma ExecWaiters(s: State, t: nat, x: Slot)
    requires WaitersOk(s.slots, s.tasks, s.parked) && t in s.tasks && s.tasks[t].slot < |s.slots|
    requires x == s.slots[s.tasks[t].slot].(space := x.space) && x.phase == Running
    ensures WaitersOk(s.slots[s.tasks[t].slot := x], s.tasks[t := s.tasks[t].(space := x.space)], s.parked)
  {
    WaitersUpdate(s.slots, s.tasks, s.parked, s.tasks[t].slot, x);
  }

  /** exec frees the old space only when no other task uses it. */
  lemma ExecFreesOwnSpace(s: State, t: nat, space: nat)
    requires Inv(s) && t in s.tasks && space != s.slots[s.tasks[t].slot].space
    ensures var old' := s.slots[s.tasks[t].slot].space;
            if s.slots[s.tasks[t].slot].threads > 0 then Exec(s, t, space) == s
            else Exec(s, t, space).destroyed == s.destroyed + [old'] &&
                 (forall u :: u in s.tasks && s.tasks[u].space == old' ==> u == t) &&
                 (forall u :: u in Exec(s, t, space).tasks ==> Exec(s, t, space).tasks[u].space != old')
  {
    if s.slots[s.tasks[t].slot].threads == 0 {
      OnlyMain(s.slots, s.tasks, t);
    }
  }

  // ---------------------------------------------------------------- exit

  /** The last task of slot i is gone; everything else is as it should be. */
  ghost predicate Deserted(s: State, i: nat)
  {
    && PidsOk(s.slots) && ParentsOk(s.slots) && SpacesOk(s.slots) && WaitersOk(s.slots, s.tasks, s.parked)
    && 1 <= s.nextPid <= MAX_PID && i < |s.slots| && s.slots[i].phase == Running && Homes(s.slots, s.tasks)
    && (forall j :: 0 <= j < |s.slots| && j != i && s.slots[j].phase == Running ==> Staffed(s.slots[j], s.tasks, j))
    && (forall t :: t in s.tasks ==> s.tasks[t].slot != i)
  }

  /** The table after process_finish_exit. */
  function Ended(slots: seq<Slot>, i: nat, status: int): (r: seq<Slot>)
    requires i < |slots|
    ensures |r| == |slots|
  {
    var slots1 := Orphan(slots, slots[i].pid);
    var me := slots1[i].(phase := Zombie, task := 0, space := 0, status := status);
    slots1[i := if me.autoReap then Blank() else me]
  }

  lemma EndedPids(slots: seq<Slot>, i: nat, status: int)
    requires PidsOk(slots) && i < |slots| && slots[i].phase == Running
    ensures PidsOk(Ended(slots, i, status))
  {
    var slots1 := Orphan(slots, slots[i].pid);
    assert PidsOk(slots1);
    PidsUpdate(slots1, i, Ended(slots, i, status)[i]);
  }

  lemma EndedParents(slots: seq<Slot>, i: nat, status: int)
    requires PidsOk(slots) && ParentsOk(slots) && i < |slots| && slots[i].phase == Running
    ensures ParentsOk(Ended(slots, i, status))
  {
    var slots' := Ended(slots, i, status);
    forall k | 0 <= k < |slots'| && Used(slots'[k]) && slots'[k].parent > 0
      ensures IsRunning(slots', slots'[k].parent)
    {
      assert slots'[k].parent == slots[k].parent != slots[i].pid;
      StillRunning(slots, slots', slots'[k].parent);
    }
  }

  lemma EndedTasks(slots: seq<Slot>, tasks: map<nat, Task>, i: nat, status: int)
    requires i < |slots| && Homes(slots, tasks) && forall t :: t in tasks ==> tasks[t].slot != i
    requires forall j :: 0 <= j < |slots| && j != i && slots[j].phase == Running ==> Staffed(slots[j], tasks, j)
    ensures TasksOk(Ended(slots, i, status), tasks)
  {
    var slots' := Ended(slots, i, status);
    forall j | 0 <= j < |slots| && slots'[j].phase == Running
      ensures Staffed(slots'[j], tasks, j)
    {
      assert Staffed(slots[j], tasks, j);
    }
  }

  lemma EndedSpaces(slots: seq<Slot>, i: nat, status: int)
    requires SpacesOk(slots) && i < |slots| && slots[i].phase == Running
    ensures SpacesOk(Ended(slots, i, status))
  {
    var slots' := Ended(slots, i, status);
    assert forall j :: 0 <= j < |slots| && slots'[j].phase == Running ==>
      j != i && slots[j].phase == Running && slots'[j].space == slots[j].space;
  }

  /** The table as process_finish_exit looks up the parent in it. */
  function Ending(slots: seq<Slot>, i: nat, status: int): (r: seq<Slot>)
    requires i < |slots|
    ensures |r| == |slots|
  {
    var slots1 := Orphan(slots, slots[i].pid);
    slots1[i := slots1[i].(phase := Zombie, task := 0, space := 0, status := status)]
  }

  /** A running process other than the one that ended is found under its pid. */
  lemma ParentFound(slots: seq<Slot>, i: nat, status: int, m: nat)
    requires PidsOk(slots) && i < |slots| && slots[i].phase == Running && m < |slots| && m != i &&
             slots[m].phase == Running
    ensures Find(Ending(slots, i, status), slots[m].pid, 0) == m
  {
    var r := Ending(slots, i, status);
    assert forall j :: 0 <= j < |slots| && Used(r[j]) ==> Used(slots[j]) && r[j].pid == slots[j].pid;
    FindUnique(r, slots[m].pid, m);
  }

  lemma OldZombies(slots: seq<Slot>, i: nat, status: int, j: nat, m: nat, filter: int)
    requires i < |slots| && j < |slots| && m < |slots| && j != i && m != i && slots[m].phase == Running
    requires slots[j].phase == Zombie ==> !Matches(slots[j], slots[m].pid, filter)
    ensures Ended(slots, i, status)[j].phase == Zombie ==>
            !Matches(Ended(slots, i, status)[j], Ended(slots, i, status)[m].pid, filter)
  {
  }

  /** Everyone waiting for the process that ended has been woken. */
  lemma EndedWaiters(s: State, i: nat, status: int)
    requires PidsOk(s.slots) && ParentsOk(s.slots) && i < |s.slots| && s.slots[i].phase == Running
    requires WaitersOk(s.slots, s.tasks, s.parked) && Homes(s.slots, s.tasks) && forall t :: t in s.tasks ==>
             s.tasks[t].slot != i
    ensures WaitersOk(Ended(s.slots, i, status), s.tasks, Finish(s, i, status).parked)
  {
    var slots', parked' := Ended(s.slots, i, status), Finish(s, i, status).parked;
    forall t | t in parked'
      ensures t in s.tasks && s.tasks[t].slot < |slots'|
      ensures forall j :: 0 <= j < |slots'| && slots'[j].phase == Zombie ==>
              !Matches(slots'[j], slots'[s.tasks[t].slot].pid, parked'[t])
    {
      var m := s.tasks[t].slot;
      forall j | 0 <= j < |slots'| && slots'[j].phase == Zombie
        ensures !Matches(slots'[j], slots'[m].pid, parked'[t])
      {
        if j != i {
          OldZombies(s.slots, i, status, j, m, parked'[t]);
        } else {
          ParentFound(s.slots, i, status, m);
        }
      }
    }
  }

  lemma FindUnique(slots: seq<Slot>, pid: int, m: nat)
    requires m < |slots| && Used(slots[m]) && slots[m].pid == pid
    requires forall j :: 0 <= j < |slots| && Used(slots[j]) && slots[j].pid == pid ==> j == m
    ensures Find(slots, pid, 0) == m
  {
  }

  lemma FinishKeepsInv(s: State, i: nat, status: int)
    requires Deserted(s, i)
    ensures Inv(Finish(s, i, status))
  {
    EndedPids(s.slots, i, status);
    EndedParents(s.slots, i, status);
    EndedTasks(s.slots, s.tasks, i, status);
    EndedSpaces(s.slots, i, status);
    EndedWaiters(s, i, status);
  }

  lemma ThreadRemoved(tasks: map<nat, Task>, t: nat, j: nat)
    requires t in tasks
    ensures ThreadsOf(tasks - {t}, j) == ThreadsOf(tasks, j) - {t}
    ensures |ThreadsOf(tasks - {t}, j)| == |ThreadsOf(tasks, j)| - if tasks[t].slot == j && tasks[t].thread then 1
            else 0
  {
    assert ThreadsOf(tasks - {t}, j) == ThreadsOf(tasks, j) - {t};
    if tasks[t].slot == j && tasks[t].thread {
      assert t in ThreadsOf(tasks, j);
    }
  }

  /** Without task t, slot i having become x. */
  lemma LeaveTasks(slots: seq<Slot>, tasks: map<nat, Task>, t: nat, x: Slot)
    requires TasksOk(slots, tasks) && t in tasks
    requires x.phase == Running && x.space == slots[tasks[t].slot].space
    requires tasks[t].thread ==> x.task == slots[tasks[t].slot].task
    ensures Homes(slots[tasks[t].slot := x], tasks - {t})
    ensures forall j :: 0 <= j < |slots| && j != tasks[t].slot && slots[j].phase == Running ==>
            Staffed(slots[j], tasks - {t}, j)
  {
    forall j | 0 <= j < |slots| && j != tasks[t].slot && slots[j].phase == Running
      ensures Staffed(slots[j], tasks - {t}, j)
    {
      ThreadRemoved(tasks, t, j);
      assert Staffed(slots[j], tasks, j);
    }
  }

  /** A task leaves and others of its process remain. */
  lemma LeaveStaffed(slots: seq<Slot>, tasks: map<nat, Task>, t: nat, x: Slot)
    requires TasksOk(slots, tasks) && t in tasks && x.phase == Running
    requires var p := slots[tasks[t].slot];
             if tasks[t].thread then p.threads > 0 && x == p.(threads := p.threads - 1) &&
               !(x.threads == 0 && x.mainExited)
             else p.threads > 0 && x == p.(mainExited := true, status := x.status, task := 0)
    ensures Staffed(x, tasks - {t}, tasks[t].slot)
  {
    ThreadRemoved(tasks, t, tasks[t].slot);
    assert Staffed(slots[tasks[t].slot], tasks, tasks[t].slot);
  }

  /** A task leaves a process that has no other. */
  lemma LastTask(slots: seq<Slot>, tasks: map<nat, Task>, t: nat)
    requires TasksOk(slots, tasks) && t in tasks
    requires var p := slots[tasks[t].slot]; if tasks[t].thread then p.threads == 1 && p.mainExited else p.threads == 0
    ensures forall u :: u in tasks - {t} ==> tasks[u].slot != tasks[t].slot
  {
    var i := tasks[t].slot;
    assert Staffed(slots[i], tasks, i);
    assert forall u :: u in tasks && tasks[u].slot == i ==> (tasks[u].thread <==> u in ThreadsOf(tasks, i));
    ThreadRemoved(tasks, t, i);
    assert ThreadsOf(tasks - {t}, i) == {};
  }

  /** The state once task t is off the lists and its slot has become x. */
  function Without(s: State, t: nat, x: Slot): State
    requires t in s.tasks && s.tasks[t].slot < |s.slots|
  {
    s.(slots := s.slots[s.tasks[t].slot := x], tasks := s.tasks - {t}, parked := s.parked - {t})
  }

  lemma LeaveShape(s: State, t: nat, x: Slot, s': State)
    requires PidsOk(s.slots) && ParentsOk(s.slots) && SpacesOk(s.slots) && WaitersOk(s.slots, s.tasks, s.parked)
    requires t in s.tasks && s.tasks[t].slot < |s.slots| && s' == Without(s, t, x) && 1 <= s.nextPid <= MAX_PID
    requires var p := s.slots[s.tasks[t].slot];
             x == p.(threads := x.threads, mainExited := x.mainExited, status := x.status, task := x.task)
    ensures PidsOk(s'.slots) && ParentsOk(s'.slots) && SpacesOk(s'.slots) && WaitersOk(s'.slots, s'.tasks, s'.parked)
  {
    ShapeKeepsInv(s, s');
  }

  lemma LeaveTasksOk(s: State, t: nat, x: Slot, s': State)
    requires TasksOk(s.slots, s.tasks) && t in s.tasks && x.phase == Running && s' == Without(s, t, x)
    requires var p := s.slots[s.tasks[t].slot];
             if s.tasks[t].thread then p.threads > 0 && x == p.(threads := p.threads - 1) &&
               !(x.threads == 0 && x.mainExited)
             else p.threads > 0 && x == p.(mainExited := true, status := x.status, task := 0)
    ensures TasksOk(s'.slots, s'.tasks)
  {
    LeaveTasks(s.slots, s.tasks, t, x);
    LeaveStaffed(s.slots, s.tasks, t, x);
  }

  lemma LeaveKeepsInv(s: State, t: nat, x: Slot)
    requires Inv(s) && t in s.tasks && x.phase == Running
    requires var p := s.slots[s.tasks[t].slot];
             if s.tasks[t].thread then p.threads > 0 && x == p.(threads := p.threads - 1) &&
               !(x.threads == 0 && x.mainExited)
             else p.threads > 0 && x == p.(mainExited := true, status := x.status, task := 0)
    ensures Inv(Without(s, t, x))
  {
    var s' := Without(s, t, x);
    LeaveShape(s, t, x, s');
    LeaveTasksOk(s, t, x, s');
    Together(s');
  }

  lemma LastTasks(s: State, t: nat, x: Slot, s': State)
    requires TasksOk(s.slots, s.tasks) && t in s.tasks && s' == Without(s, t, x)
    requires var p := s.slots[s.tasks[t].slot];
             if s.tasks[t].thread then p.threads == 1 && p.mainExited && x == p.(threads := 0)
             else p.threads == 0 && x == p
    ensures Homes(s'.slots, s'.tasks) && forall u :: u in s'.tasks ==> s'.tasks[u].slot != s.tasks[t].slot
    ensures forall j :: 0 <= j < |s'.slots| && j != s.tasks[t].slot && s'.slots[j].phase == Running ==>
            Staffed(s'.slots[j], s'.tasks, j)
  {
    LeaveTasks(s.slots, s.tasks, t, x);
    LastTask(s.slots, s.tasks, t);
  }

  lemma LastLeaves(s: State, t: nat, x: Slot)
    requires Inv(s) && t in s.tasks
    requires var p := s.slots[s.tasks[t].slot];
             if s.tasks[t].thread then p.threads == 1 && p.mainExited && x == p.(threads := 0)
             else p.threads == 0 && x == p
    ensures Deserted(Without(s, t, x), s.tasks[t].slot)
  {
    var s' := Without(s, t, x);
    LeaveShape(s, t, x, s');
    LastTasks(s, t, x, s');
  }

  lemma ThreadIsCounted(s: State, t: nat)
    requires TasksOk(s.slots, s.tasks) && t in s.tasks && s.tasks[t].thread
    ensures s.slots[s.tasks[t].slot].threads > 0
  {
    var i := s.tasks[t].slot;
    assert Staffed(s.slots[i], s.tasks, i) && t in ThreadsOf(s.tasks, i);
  }

  /** The slot of task t once t is off the lists. */
  function SlotAfter(s: State, t: nat, status: int): Slot
    requires t in s.tasks && s.tasks[t].slot < |s.slots|
  {
    var p := s.slots[s.tasks[t].slot];
    if s.tasks[t].thread then p.(threads := if p.threads > 0 then p.threads - 1 else 0)
    else if p.threads > 0 then p.(mainExited := true, status := status, task := 0)
    else p
  }

  /** Task t is the last of its process. */
  predicate IsLast(s: State, t: nat)
    requires t in s.tasks && s.tasks[t].slot < |s.slots|
  {
    var p := s.slots[s.tasks[t].slot];
    if s.tasks[t].thread then p.threads <= 1 && p.mainExited else p.threads == 0
  }

  /** process_task_exit and thread_on_exit: task t has left the scheduler's lists; the process ends
      with its last task. */
  function TaskExit(s: State, t: nat, status: int): State
    requires t in s.tasks && s.tasks[t].slot < |s.slots|
  {
    var i := s.tasks[t].slot;
    var s' := Without(s, t, SlotAfter(s, t, status));
    if IsLast(s, t) then Finish(s', i, if s.tasks[t].thread then s.slots[i].status else status) else s'
  }

  lemma TaskExitKeepsInv(s: State, t: nat, status: int)
    requires Inv(s) && t in s.tasks
    ensures Inv(TaskExit(s, t, status))
  {
    var i, x := s.tasks[t].slot, SlotAfter(s, t, status);
    if s.tasks[t].thread {
      ThreadIsCounted(s, t);
    }
    if IsLast(s, t) {
      LastLeaves(s, t, x);
      FinishKeepsInv(Without(s, t, x), i, if s.tasks[t].thread then s.slots[i].status else status);
    } else {
      LeaveKeepsInv(s, t, x);
    }
  }

  /** A space is destroyed when the last task of its process goes, and not before; afterwards no task
      and no process has it. */
  lemma SpaceDestroyedOnce(s: State, t: nat, status: int)
    requires Inv(s) && t in s.tasks
    ensures var i := s.tasks[t].slot;
            var s' := TaskExit(s, t, status);
            && s'.destroyed == (if IsLast(s, t) then s.destroyed + [s.slots[i].space] else s.destroyed)
            && (IsLast(s, t) <==> forall u :: u in s.tasks && s.tasks[u].space == s.slots[i].space ==> u == t)
            && (IsLast(s, t) ==> forall u :: u in s'.tasks ==> s'.tasks[u].space != s.slots[i].space)
            && (IsLast(s, t) ==> forall j :: 0 <= j < |s'.slots| && s'.slots[j].phase == Running ==>
               s'.slots[j].space != s.slots[i].space)
  {
    var i := s.tasks[t].slot;
    TaskExitKeepsInv(s, t, status);
    SameSpaceSameSlot(s);
    if IsLast(s, t) {
      if s.tasks[t].thread {
        ThreadIsCounted(s, t);
      }
      LastTask(s.slots, s.tasks, t);
      assert forall u :: u in s.tasks && u != t ==> u in s.tasks - {t};
    } else {
      OthersRemain(s, t);
    }
  }

  lemma SameSpaceSameSlot(s: State)
    requires Homes(s.slots, s.tasks) && SpacesOk(s.slots)
    ensures forall t, u :: t in s.tasks && u in s.tasks && s.tasks[u].space == s.tasks[t].space ==>
            s.tasks[u].slot == s.tasks[t].slot
  {
  }

  lemma OthersRemain(s: State, t: nat)
    requires TasksOk(s.slots, s.tasks) && t in s.tasks && !IsLast(s, t)
    ensures exists u :: u in s.tasks && u != t && s.tasks[u].slot == s.tasks[t].slot
  {
    var i := s.tasks[t].slot;
    var p := s.slots[i];
    assert Staffed(p, s.tasks, i);
    if s.tasks[t].thread && !p.mainExited {
      assert p.task in s.tasks && p.task != t;
    } else {
      ThreadRemoved(s.tasks, t, i);
      var rest := ThreadsOf(s.tasks - {t}, i);
      assert |rest| > 0;
      var u :| u in rest;
      assert u in s.tasks && u != t && s.tasks[u].slot == i;
    }
  }

  // ---------------------------------------------------------------- runs

  datatype Op =
    | DoLaunch(caller: nat, tid: nat, space: nat, created: bool) | DoThread(caller: nat, tid: nat) | DoExit(t: nat,
      status: int)
    | DoExec(t: nat, space: nat) | DoWaitpid(t: nat, filter: int, nohang: bool) | DoReap(pid: int) | DoDetach(pid: int)
    | DoWake(t: nat)

  ghost predicate FreshSpace(s: State, space: nat)
  {
    && space != 0
    && forall i :: 0 <= i < |s.slots| && s.slots[i].phase == Running ==> s.slots[i].space != space
  }

  ghost predicate IsActive(s: State, t: nat)
  {
    t in s.tasks && t !in s.parked
  }

  /** Task 0 is the kernel itself. New tasks and spaces have blocks that are not in use; a parked task
      does nothing. */
  ghost predicate Enabled(s: State, op: Op)
  {
    match op
    case DoLaunch(caller, tid, space, _) => (caller == 0 || IsActive(s, caller)) && tid != 0 && tid !in s.tasks &&
      FreshSpace(s, space)
    case DoThread(caller, tid) => IsActive(s, caller) && tid != 0 && tid !in s.tasks
    case DoExit(t, _) => IsActive(s, t)
    case DoExec(t, space) => IsActive(s, t) && FreshSpace(s, space)
    case DoWaitpid(t, _, _) => IsActive(s, t)
    case DoReap(pid) => true
    case DoDetach(pid) => true
    case DoWake(t) => true
  }

  ghost function Next(s: State, op: Op): State
    requires Inv(s) && Enabled(s, op)
  {
    match op
    case DoLaunch(caller, tid, space, created) => Launch(s, if caller == 0 then 0
      else s.slots[s.tasks[caller].slot].pid, tid, space, created)
    case DoThread(caller, tid) => AddThread(s, s.tasks[caller].slot, tid)
    case DoExit(t, status) => TaskExit(s, t, status)
    case DoExec(t, space) => Exec(s, t, space)
    case DoWaitpid(t, filter, nohang) => Waitpid(s, t, filter, nohang)
    case DoReap(pid) =>
      var j := Find(s.slots, pid, 0);
      if j < |s.slots| && s.slots[j].phase == Zombie then Release(s, j) else s
    case DoDetach(pid) =>
      var j := Find(s.slots, pid, 0);
      if j < |s.slots| then Detach(s, j) else s
    case DoWake(t) => s.(parked := s.parked - {t})
  }

  lemma WakeKeepsInv(s: State, t: nat)
    requires Inv(s)
    ensures Inv(s.(parked := s.parked - {t}))
  {
    assert WaitersOk(s.slots, s.tasks, s.parked - {t});
  }

  lemma StepKeepsInv(s: State, op: Op)
    requires Inv(s) && Enabled(s, op)
    ensures Inv(Next(s, op))
  {
    match op
    case DoLaunch(caller, tid, space, created) =>
      var parent := if caller == 0 then 0 else s.slots[s.tasks[caller].slot].pid;
      assert caller != 0 ==> s.slots[s.tasks[caller].slot].phase == Running;
      LaunchKeepsInv(s, parent, tid, space, created);
    case DoThread(caller, tid) => AddThreadKeepsInv(s, s.tasks[caller].slot, tid);
    case DoExit(t, status) => TaskExitKeepsInv(s, t, status);
    case DoExec(t, space) => ExecKeepsInv(s, t, space);
    case DoWaitpid(t, filter, nohang) => WaitpidKeepsInv(s, t, filter, nohang);
    case DoReap(pid) =>
      var j := Find(s.slots, pid, 0);
      if j < |s.slots| && s.slots[j].phase == Zombie {
        ReleaseKeepsInv(s, j);
      }
    case DoDetach(pid) =>
      var j := Find(s.slots, pid, 0);
      if j < |s.slots| {
        DetachKeepsInv(s, j);
      }
    case DoWake(t) => WakeKeepsInv(s, t);
  }

  function Boot(): State
  {
    State(seq(MAX_PROCESSES, _ => Blank()), 1, map[], map[], [], [])
  }

  ghost predicate Follows(s: State, op: Op, s': State)
  {
    Enabled(s, op) && (Inv(s) ==> s' == Next(s, op))
  }

  ghost predicate IsRun(ops: seq<Op>, states: seq<State>)
  {
    && |states| == |ops| + 1 && states[0] == Boot()
    && forall i :: 0 <= i < |ops| ==> Follows(states[i], ops[i], states[i + 1])
  }

  /** In every state of every run: pids in use are positive and distinct, positive parents are
      running processes, thread counts are right, running processes have live spaces of their own,
      and nobody is parked in waitpid while a zombie it waits for is there. */
  lemma {:induction false} TableIsSound(ops: seq<Op>, states: seq<State>, i: nat)
    requires IsRun(ops, states) && i <= |ops|
    ensures Inv(states[i])
  {
    if i > 0 {
      TableIsSound(ops, states, i - 1);
      assert Follows(states[i - 1], ops[i - 1], states[i]);
      StepKeepsInv(states[i - 1], ops[i - 1]);
    }
  }

  /** No zombie will reap itself, and none has children. */
  lemma ZombiesAreAlone(s: State, z: nat, j: nat)
    requires Inv(s) && z < |s.slots| && s.slots[z].phase == Zombie && j < |s.slots| && Used(s.slots[j])
    ensures !s.slots[z].autoReap && s.slots[j].parent != s.slots[z].pid
  {
    if s.slots[j].parent > 0 {
      var k :| 0 <= k < |s.slots| && s.slots[k].phase == Running && s.slots[k].pid == s.slots[j].parent;
      assert Used(s.slots[k]) && k != z;
    }
  }

  // ---------------------------------------------------------------- spaces are conserved

  /** The space of a running process. */
  function Own(slot: Slot): set<nat>
  {
    if slot.phase == Running then {slot.space} else {}
  }

  ghost function LiveSpaces(slots: seq<Slot>): set<nat>
  {
    set i | 0 <= i < |slots| && slots[i].phase == Running :: slots[i].space
  }

  /** Every space given to a process has been destroyed once or is a running process's. */
  ghost predicate SpacesBalance(s: State)
  {
    multiset(s.adopted) == multiset(s.destroyed) + multiset(LiveSpaces(s.slots))
  }

  /** Outside slot i the same processes run in the same spaces. */
  ghost predicate SpacesAgree(slots: seq<Slot>, slots': seq<Slot>, i: nat)
  {
    && |slots'| == |slots|
    && forall j :: 0 <= j < |slots| && j != i ==> Own(slots'[j]) == Own(slots[j])
  }

  lemma LiveChanges(slots: seq<Slot>, slots': seq<Slot>, i: nat)
    requires SpacesOk(slots) && SpacesAgree(slots, slots', i) && i < |slots|
    ensures Own(slots[i]) <= LiveSpaces(slots) &&
            LiveSpaces(slots') == LiveSpaces(slots) - Own(slots[i]) + Own(slots'[i])
  {
    forall x
      ensures x in LiveSpaces(slots') <==> x in LiveSpaces(slots) - Own(slots[i]) + Own(slots'[i])
    {
      if x in LiveSpaces(slots') {
        var j :| 0 <= j < |slots'| && slots'[j].phase == Running && slots'[j].space == x;
        assert x in Own(slots'[j]) && (j != i ==> x in Own(slots[j]));
      }
      if x in LiveSpaces(slots) - Own(slots[i]) {
        var j :| 0 <= j < |slots| && slots[j].phase == Running && slots[j].space == x;
        assert x in Own(slots[j]) && x in Own(slots'[j]);
      }
    }
  }

  /** Slot i changes hands, and the logs with it. */
  lemma BalanceKept(s: State, s': State, i: nat)
    requires SpacesOk(s.slots) && SpacesAgree(s.slots, s'.slots, i) && i < |s.slots| && SpacesBalance(s)
    requires Own(s'.slots[i]) !! LiveSpaces(s.slots) - Own(s.slots[i])
    requires multiset(s'.adopted) + multiset(s.destroyed) + multiset(Own(s.slots[i])) ==
             multiset(s.adopted) + multiset(s'.destroyed) + multiset(Own(s'.slots[i]))
    ensures SpacesBalance(s')
  {
    LiveChanges(s.slots, s'.slots, i);
    SetsToMultisets(LiveSpaces(s.slots), Own(s.slots[i]), Own(s'.slots[i]));
    var live, live' := multiset(LiveSpaces(s.slots)), multiset(LiveSpaces(s'.slots));
    var a, a', d, d' := multiset(s.adopted), multiset(s'.adopted), multiset(s.destroyed), multiset(s'.destroyed);
    var o, o' := multiset(Own(s.slots[i])), multiset(Own(s'.slots[i]));
    forall x
      ensures a'[x] == (d' + live')[x]
    {
      assert (a' + d + o)[x] == (a + d' + o')[x] && (live' + o)[x] == (live + o')[x] && a[x] == (d + live)[x];
    }
    assert a' == d' + live';
  }

  lemma SetsToMultisets(live: set<nat>, x: set<nat>, y: set<nat>)
    requires x <= live && y !! live - x
    ensures multiset(live - x + y) + multiset(x) == multiset(live) + multiset(y)
  {
  }

  /** A slot that no process ran in gets one, in a fresh space. */
  lemma AdoptBalances(s: State, s': State, i: nat, x: Slot)
    requires SpacesOk(s.slots) && SpacesBalance(s) && i < |s.slots| && s.slots[i].phase != Running
    requires x.phase == Running && FreshSpace(s, x.space) && s'.slots == s.slots[i := x]
    requires s'.adopted == s.adopted + [x.space] && s'.destroyed == s.destroyed
    ensures SpacesBalance(s')
  {
    assert multiset(Own(s.slots[i])) == multiset{};
    assert multiset(Own(x)) == multiset{x.space};
    BalanceKept(s, s', i);
  }

  lemma LaunchBalances(s: State, parent: int, tid: nat, space: nat, created: bool)
    requires |s.slots| == MAX_PROCESSES && SpacesOk(s.slots) && SpacesBalance(s) && FreshSpace(s, space)
    ensures SpacesBalance(Launch(s, parent, tid, space, created))
  {
    var i, s' := FreeSlot(s.slots, 0), Launch(s, parent, tid, space, created);
    var pid := AllocPid(s.slots, s.nextPid, MAX_PROCESSES).0;
    if i < MAX_PROCESSES && pid >= 1 {
      if created {
        AdoptBalances(s, s', i, Slot(Running, pid, parent, false, 0, tid, 0, false, space));
      } else {
        SlotBalances(s, s', i, Blank());
      }
    }
  }

  lemma ExecBalances(s: State, t: nat, space: nat)
    requires Inv(s) && SpacesBalance(s) && FreshSpace(s, space) && t in s.tasks
    ensures SpacesBalance(Exec(s, t, space))
  {
    BalanceKept(s, Exec(s, t, space), s.tasks[t].slot);
  }

  /** A slot whose process and space stay. */
  lemma SlotBalances(s: State, s': State, i: nat, x: Slot)
    requires SpacesOk(s.slots) && SpacesBalance(s) && i < |s.slots| && s'.slots == s.slots[i := x] &&
             Own(x) == Own(s.slots[i])
    requires s'.adopted == s.adopted && s'.destroyed == s.destroyed
    ensures SpacesBalance(s')
  {
    BalanceKept(s, s', i);
  }

  lemma ExitBalances(s: State, t: nat, status: int)
    requires Inv(s) && SpacesBalance(s) && t in s.tasks
    ensures SpacesBalance(TaskExit(s, t, status))
  {
    var i, x := s.tasks[t].slot, SlotAfter(s, t, status);
    var s1 := Without(s, t, x);
    SlotBalances(s, s1, i, x);
    if IsLast(s, t) {
      FinishBalances(s1, i, if s.tasks[t].thread then s.slots[i].status else status);
    }
  }

  lemma FinishBalances(s: State, i: nat, status: int)
    requires i < |s.slots| && SpacesOk(s.slots) && SpacesBalance(s) && s.slots[i].phase == Running
    ensures SpacesBalance(Finish(s, i, status))
  {
    BalanceKept(s, Finish(s, i, status), i);
  }

  lemma ThreadBalances(s: State, i: nat, tid: nat)
    requires SpacesOk(s.slots) && SpacesBalance(s) && i < |s.slots|
    ensures SpacesBalance(AddThread(s, i, tid))
  {
    SlotBalances(s, AddThread(s, i, tid), i, s.slots[i].(threads := s.slots[i].threads + 1));
  }

  lemma ReleaseBalances(s: State, j: nat)
    requires SpacesOk(s.slots) && SpacesBalance(s) && j < |s.slots| && s.slots[j].phase == Zombie
    ensures SpacesBalance(Release(s, j))
  {
    SlotBalances(s, Release(s, j), j, Blank());
  }

  lemma DetachBalances(s: State, j: nat)
    requires SpacesOk(s.slots) && SpacesBalance(s) && j < |s.slots|
    ensures SpacesBalance(Detach(s, j))
  {
    if s.slots[j].phase == Zombie {
      ReleaseBalances(s, j);
    } else {
      SlotBalances(s, Detach(s, j), j, s.slots[j].(parent := 0, autoReap := true));
    }
  }

  lemma WaitpidBalances(s: State, t: nat, filter: int, nohang: bool)
    requires SpacesOk(s.slots) && SpacesBalance(s) && t in s.tasks && s.tasks[t].slot < |s.slots|
    ensures SpacesBalance(Waitpid(s, t, filter, nohang))
  {
    var z := FirstZombie(s.slots, s.slots[s.tasks[t].slot].pid, filter, 0);
    if z < |s.slots| {
      ReleaseBalances(s, z);
    }
  }

  lemma StepBalances(s: State, op: Op)
    requires Inv(s) && Enabled(s, op) && SpacesBalance(s)
    ensures SpacesBalance(Next(s, op))
  {
    match op
    case DoLaunch(caller, tid, space, created) =>
      LaunchBalances(s, if caller == 0 then 0 else s.slots[s.tasks[caller].slot].pid, tid, space, created);
    case DoThread(caller, tid) => ThreadBalances(s, s.tasks[caller].slot, tid);
    case DoExit(t, status) => ExitBalances(s, t, status);
    case DoExec(t, space) => ExecBalances(s, t, space);
    case DoWaitpid(t, filter, nohang) => WaitpidBalances(s, t, filter, nohang);
    case DoReap(pid) =>
      var j := Find(s.slots, pid, 0);
      if j < |s.slots| && s.slots[j].phase == Zombie {
        ReleaseBalances(s, j);
      }
    case DoDetach(pid) =>
      var j := Find(s.slots, pid, 0);
      if j < |s.slots| {
        DetachBalances(s, j);
      }
    case DoWake(t) =>
  }

  lemma BootBalances()
    ensures SpacesBalance(Boot())
  {
    assert LiveSpaces(Boot().slots) == {};
  }

  /** In every state of every run the spaces given to processes are those destroyed, once for each
      time given, and those of the running processes. */
  lemma {:induction false} SpacesAreConserved(ops: seq<Op>, states: seq<State>, i: nat)
    requires IsRun(ops, states) && i <= |ops|
    ensures SpacesBalance(states[i])
  {
    if i > 0 {
      TableIsSound(ops, states, i - 1);
      SpacesAreConserved(ops, states, i - 1);
      assert Follows(states[i - 1], ops[i - 1], states[i]);
      StepBalances(states[i - 1], ops[i - 1]);
    } else {
      BootBalances();
    }
  }
}
