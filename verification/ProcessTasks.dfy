/** The scheduler's lists and the process table together: which tasks of the lists belong to which
    process, who is parked in waitpid, and that a space is destroyed only once no task in a list runs in
    it (process.c, task.c). Each step runs with interrupts off; the current task is the one that acts. */
module ProcessTasks {
  import T = TaskLists
  import P = ProcessTable
  import Rings

  const SLOTS := P.MAX_PROCESSES

  datatype Kernel = Kernel(lists: T.State, table: P.State)

  // ---------------------------------------------------------------- wait channels

  /** &process->waitpid_event, &process itself and &process->thread_count, for the process in a slot. */
  function WaitChannel(slot: nat): nat
  {
    slot + 1
  }

  function ProcessChannel(slot: nat): nat
  {
    SLOTS + 1 + slot
  }

  function ThreadChannel(slot: nat): nat
  {
    2 * SLOTS + 1 + slot
  }

  /** Somebody's waitpid_event. */
  predicate IsWait(ch: nat)
  {
    1 <= ch <= SLOTS
  }

  // ---------------------------------------------------------------- how the two hang together

  /** The task is in one of the lists. */
  predicate Alive(s: T.State, t: nat)
  {
    t in s.ring || t in s.blocked
  }

  /** The tasks of processes are the tasks in the lists that have a process. */
  ghost predicate Belong(s: T.State, tasks: map<nat, P.Task>)
  {
    && (forall t :: t in tasks ==> Alive(s, t) && t in s.info && s.info[t].process == tasks[t].slot + 1)
    && (forall t :: Alive(s, t) && t in s.info && s.info[t].process != 0 ==> t in tasks)
  }

  /** Those parked in waitpid are the ones blocked on the waitpid_event of their process. */
  ghost predicate Wait(s: T.State, tasks: map<nat, P.Task>, parked: map<nat, int>)
  {
    && (forall t :: t in parked <==> t in s.blocked && t in s.info && IsWait(s.info[t].channel))
    && (forall t :: t in parked && t in s.info ==> t in tasks && s.info[t].channel == WaitChannel(tasks[t].slot))
  }

  ghost predicate Linked(s: T.State, tasks: map<nat, P.Task>, parked: map<nat, int>)
  {
    Belong(s, tasks) && Wait(s, tasks, parked)
  }

  ghost predicate Inv(k: Kernel, idle: nat)
  {
    T.Inv(k.lists, idle) && P.Inv(k.table) && Linked(k.lists, k.table.tasks, k.table.parked)
  }

  /** Nobody enters or leaves the lists, and whoever is still blocked is blocked as before. */
  ghost predicate Quiet(s: T.State, s': T.State)
  {
    && (forall t :: Alive(s', t) <==> Alive(s, t))
    && (forall t :: Alive(s, t) && t in s.info ==> t in s'.info && s'.info[t].process == s.info[t].process)
    && (forall t :: t in s'.blocked ==> t in s.blocked && t in s.info && t in s'.info && s'.info[t] == s.info[t])
  }

  ghost predicate SameBlocks(s: T.State, s': T.State)
  {
    s'.info.Keys == s.info.Keys && s'.created == s.created && s'.freed == s.freed
  }

  lemma UnblockIsQuiet(s: T.State, idle: nat, i: nat, kill: bool)
    requires T.Inv(s, idle) && i < |s.blocked|
    ensures s.blocked[i] in s.info && Quiet(s, T.Unblock(s, i, kill))
  {
    assert s.blocked[i] in s.blocked;
    Rings.WithoutMembers(s.blocked, i);
    Rings.InsertedMembers(s.ring, 0, s.blocked[i]);
  }

  lemma QuietTransitive(s: T.State, s1: T.State, s2: T.State)
    requires Quiet(s, s1) && Quiet(s1, s2) && forall t :: Alive(s, t) ==> t in s.info
    ensures Quiet(s, s2)
  {
  }

  lemma {:induction false} UnblockAllIsQuiet(s: T.State, idle: nat, i: nat, wanted: T.Task -> bool, kill: bool)
    requires T.Inv(s, idle)
    ensures Quiet(s, T.UnblockAll(s, i, wanted, kill))
    decreases |s.blocked| - i
  {
    if i < |s.blocked| {
      if wanted(s.info[s.blocked[i]]) {
        var s1 := T.Unblock(s, i, kill);
        UnblockIsQuiet(s, idle, i, kill);
        T.UnblockKeepsInv(s, idle, i, kill);
        UnblockAllIsQuiet(s1, idle, i, wanted, kill);
        QuietTransitive(s, s1, T.UnblockAll(s1, i, wanted, kill));
      } else {
        UnblockAllIsQuiet(s, idle, i + 1, wanted, kill);
      }
    }
  }

  lemma KillIsQuiet(s: T.State, idle: nat, p: nat)
    requires T.Inv(s, idle)
    ensures Quiet(s, T.KillBlocked(s, p))
  {
    var s1 := T.Mark(s, p, 0);
    T.MarkFrame(s, p, 0);
    T.MarkKeepsInv(s, idle, p);
    UnblockAllIsQuiet(s1, idle, 0, T.OfProcess(p), true);
    assert Quiet(s, s1);
    QuietTransitive(s, s1, T.UnblockAll(s1, 0, T.OfProcess(p), true));
  }

  /** Wake-ups, kills and scheduling are quiet. */
  lemma QuietStep(s: T.State, idle: nat, step: T.Step)
    requires T.Inv(s, idle) && T.Enabled(s, idle, step) && !step.DoBlock? && !step.DoExit? && !step.DoCreate?
    ensures Quiet(s, T.Next(s, idle, step))
  {
    match step
    case DoWakeOne(ch) =>
      var k := T.FirstWanted(s, 0, T.OnChannel(ch));
      if k < |s.blocked| {
        UnblockIsQuiet(s, idle, k, false);
      }
    case DoWakeAll(ch) => UnblockAllIsQuiet(s, idle, 0, T.OnChannel(ch), false);
    case DoWakeTask(t) =>
      if t in s.blocked {
        UnblockIsQuiet(s, idle, T.IndexOf(s.blocked, t), false);
      }
    case DoKill(p) => KillIsQuiet(s, idle, p);
    case DoSchedule =>
  }

  // ---------------------------------------------------------------- steps

  datatype Step =
    | Lists(step: T.Step)
    | Launch(tid: nat, space: nat, created: bool)
    | AddThread(tid: nat)
    | Exit(status: int)
    | Exec(space: nat)
    | Waitpid(filter: int, nohang: bool)
    | Reap(pid: int)
    | Detach(pid: int)

  /** The caller of the process functions: the current task, or 0 for a task of the kernel. */
  function Caller(k: Kernel): nat
  {
    if k.lists.current in k.table.tasks then k.lists.current else 0
  }

  /** process_waitpid would block. */
  ghost predicate Parks(table: P.State, t: nat, filter: int, nohang: bool)
    requires t in table.tasks && table.tasks[t].slot < |table.slots|
  {
    t in P.Waitpid(table, t, filter, nohang).parked
  }

  /** Only waitpid blocks on a waitpid_event, only the process functions make and end tasks of
      processes, and new tasks and spaces have blocks that are not in use. */
  ghost predicate Enabled(k: Kernel, idle: nat, step: Step)
  {
    match step
    case Lists(st) =>
      && T.Enabled(k.lists, idle, st) && !st.DoExit?
      && (st.DoCreate? ==> st.process == 0) && (st.DoBlock? ==> !IsWait(st.ch))
    case Launch(tid, space, _) => tid != 0 && tid !in k.lists.info && P.FreshSpace(k.table, space)
    case AddThread(tid) => tid != 0 && tid !in k.lists.info && Caller(k) != 0
    case Exit(_) => T.Enabled(k.lists, idle, T.DoExit)
    case Exec(space) => Caller(k) != 0 && P.FreshSpace(k.table, space)
    case Waitpid(filter, nohang) =>
      && Caller(k) != 0 && Caller(k) in k.table.tasks && k.table.tasks[Caller(k)].slot < |k.table.slots|
      && (Parks(k.table, Caller(k), filter, nohang) ==> T.Enabled(k.lists, idle, T.DoBlock(0)))
    case Reap(_) => true
    case Detach(_) => true
  }

  /** task_wake_all. */
  ghost function Woken(s: T.State, idle: nat, ch: nat): (r: T.State)
    requires T.Inv(s, idle)
    ensures T.Inv(r, idle) && Quiet(s, r) && SameBlocks(s, r)
    ensures forall u :: u in s.blocked && u in s.info ==> (u in r.blocked <==> s.info[u].channel != ch)
  {
    WokenFacts(s, idle, ch);
    T.WakeAll(s, ch)
  }

  lemma WokenFacts(s: T.State, idle: nat, ch: nat)
    requires T.Inv(s, idle)
    ensures var r := T.WakeAll(s, ch);
            && T.Inv(r, idle) && Quiet(s, r) && SameBlocks(s, r)
            && forall u :: u in s.blocked && u in s.info ==> (u in r.blocked <==> s.info[u].channel != ch)
  {
    T.UnblockAllKeepsInv(s, idle, 0, T.OnChannel(ch), false);
    UnblockAllIsQuiet(s, idle, 0, T.OnChannel(ch), false);
    T.UnblockAllBlocks(s, 0, T.OnChannel(ch), false);
    forall u | u in s.blocked && u in s.info
      ensures u in T.WakeAll(s, ch).blocked <==> s.info[u].channel != ch
    {
      T.WakeAllWakes(s, idle, ch, u);
    }
  }

  /** task_wake_task. */
  ghost function WokenTask(s: T.State, idle: nat, t: nat): (r: T.State)
    requires T.Inv(s, idle)
    ensures T.Inv(r, idle) && Quiet(s, r) && SameBlocks(s, r)
    ensures forall u :: u in s.blocked ==> (u in r.blocked <==> u != t)
  {
    WokenTaskFacts(s, idle, t);
    T.WakeTask(s, t)
  }

  lemma WokenTaskFacts(s: T.State, idle: nat, t: nat)
    requires T.Inv(s, idle)
    ensures var r := T.WakeTask(s, t);
            && T.Inv(r, idle) && Quiet(s, r) && SameBlocks(s, r)
            && forall u :: u in s.blocked ==> (u in r.blocked <==> u != t)
  {
    if t in s.blocked {
      var i := T.IndexOf(s.blocked, t);
      UnblockIsQuiet(s, idle, i, false);
      T.UnblockKeepsInv(s, idle, i, false);
      Rings.WithoutMembers(s.blocked, i);
    }
  }

  /** The table of a process that ends, just before its parent is told. */
  function Ended(table: P.State, i: nat, status: int): seq<P.Slot>
    requires i < |table.slots|
  {
    var slots := P.Orphan(table.slots, table.slots[i].pid);
    slots[i := slots[i].(phase := P.Zombie, task := 0, space := 0, status := status)]
  }

  /** The parent of the process in slot i is told: SIGCHLD wakes its main task, then its waitpid_event
      is signalled. */
  ghost function Told(s: T.State, idle: nat, slots: seq<P.Slot>, i: nat): (r: T.State)
    requires T.Inv(s, idle) && i < |slots|
    ensures T.Inv(r, idle) && SameBlocks(s, r)
  {
    var parent := P.Find(slots, slots[i].parent, 0);
    if slots[i].parent > 0 && parent < |slots|
    then Woken(WokenTask(s, idle, slots[parent].task), idle, WaitChannel(parent)) else s
  }

  /** The wake-ups of process_finish_exit: the parent, then whoever waits for the process itself. */
  ghost function Notified(s: T.State, idle: nat, slots: seq<P.Slot>, i: nat): (r: T.State)
    requires T.Inv(s, idle) && i < |slots|
    ensures T.Inv(r, idle) && SameBlocks(s, r)
  {
    Woken(Told(s, idle, slots, i), idle, ProcessChannel(i))
  }

  /** The slots just before the parent is told, and the parent's. */
  function EndedSlots(table: P.State, t: nat, status: int): seq<P.Slot>
    requires t in table.tasks && table.tasks[t].slot < |table.slots|
  {
    var i := table.tasks[t].slot;
    Ended(P.Without(table, t, P.SlotAfter(table, t, status)), i, if table.tasks[t].thread then table.slots[i].status
      else status)
  }

  /** The lists once the threads' joiners are told. */
  ghost function Joined(s: T.State, idle: nat, thread: bool, i: nat): (r: T.State)
    requires T.Inv(s, idle)
    ensures T.Inv(r, idle) && SameBlocks(s, r)
  {
    if thread then Woken(s, idle, ThreadChannel(i)) else s
  }

  /** on_exit of task t, which has left the lists. */
  ghost function OnExit(s: T.State, idle: nat, table: P.State, t: nat, status: int): (r: T.State)
    requires T.Inv(s, idle) && t in table.tasks && table.tasks[t].slot < |table.slots|
    ensures T.Inv(r, idle) && SameBlocks(s, r)
  {
    var i := table.tasks[t].slot;
    var s1 := Joined(s, idle, table.tasks[t].thread, i);
    if P.IsLast(table, t) then Notified(s1, idle, EndedSlots(table, t, status), i) else s1
  }

  /** The waiters that are still blocked. */
  function StillParked(parked: map<nat, int>, s: T.State): map<nat, int>
  {
    map t | t in parked && t in s.blocked :: parked[t]
  }

  /** The lists after a launch. */
  function WithNew(s: T.State, tasks: map<nat, P.Task>, tid: nat): T.State
    requires |s.ring| > 0
  {
    if tid in tasks then T.Create(s, tid, tasks[tid].slot + 1) else s
  }

  /** The lists after a waitpid. */
  function WithParked(s: T.State, parks: bool, slot: nat): T.State
    requires s.current in s.ring && s.current in s.info
  {
    if parks then T.Block(s, T.Current(s), WaitChannel(slot)) else s
  }

  /** The pid a new process gets as its parent's. */
  function ParentPid(table: P.State, me: nat): int
    requires me in table.tasks ==> table.tasks[me].slot < |table.slots|
  {
    if me in table.tasks then table.slots[table.tasks[me].slot].pid else 0
  }

  /** A thread more of the process in slot i. */
  function Threaded(k: Kernel, i: nat, tid: nat): Kernel
    requires |k.lists.ring| > 0 && i < |k.table.slots|
  {
    Kernel(T.Create(k.lists, tid, i + 1), P.AddThread(k.table, i, tid))
  }

  ghost function Next(k: Kernel, idle: nat, step: Step): Kernel
    requires Inv(k, idle) && Enabled(k, idle, step)
  {
    var s, table, me := k.lists, k.table, Caller(k);
    CallerIsActive(k, idle);
    match step
    case Lists(st) =>
      var s' := T.Next(s, idle, st);
      Kernel(s', table.(parked := StillParked(table.parked, s')))
    case Launch(tid, space, created) =>
      var table' := P.Launch(table, ParentPid(table, me), tid, space, created);
      Kernel(WithNew(s, table'.tasks, tid), table')
    case AddThread(tid) => Threaded(k, table.tasks[me].slot, tid)
    case Exit(status) =>
      var s' := Left(s, idle);
      if me == 0 then Kernel(s', table)
      else Kernel(OnExit(s', idle, table, me, status), P.TaskExit(table, me, status))
    case Exec(space) => Kernel(s, P.Exec(table, me, space))
    case Waitpid(filter, nohang) =>
      Kernel(WithParked(s, Parks(table, me, filter, nohang), table.tasks[me].slot),
        P.Waitpid(table, me, filter, nohang))
    case Reap(pid) => Kernel(s, P.Next(table, P.DoReap(pid)))
    case Detach(pid) => Kernel(s, P.Next(table, P.DoDetach(pid)))
  }

  /** task_exit up to on_exit. */
  ghost function Left(s: T.State, idle: nat): (r: T.State)
    requires T.Inv(s, idle) && s.current != idle
    ensures T.Inv(r, idle)
  {
    T.ExitKeepsInv(s, idle, T.Current(s));
    T.Exit(s, T.Current(s))
  }

  /** The caller is not parked. */
  lemma CallerIsActive(k: Kernel, idle: nat)
    requires Inv(k, idle)
    ensures Caller(k) != 0 ==> P.IsActive(k.table, Caller(k)) && Caller(k) == k.lists.current
    ensures forall t :: t != 0 && t !in k.lists.info ==> t !in k.table.tasks
    ensures k.lists.current in k.lists.info && 0 !in k.table.tasks
    ensures forall t :: t in k.table.tasks ==> k.table.tasks[t].slot < |k.table.slots| == SLOTS
  {
  }

  // ---------------------------------------------------------------- every step keeps them together

  lemma UnparkKeepsInv(table: P.State, parked: map<nat, int>)
    requires P.Inv(table) && forall t :: t in parked ==> t in table.parked && parked[t] == table.parked[t]
    ensures P.Inv(table.(parked := parked))
  {
    assert P.WaitersOk(table.slots, table.tasks, parked);
  }

  lemma QuietKeepsLink(s: T.State, s': T.State, tasks: map<nat, P.Task>, parked: map<nat, int>)
    requires Linked(s, tasks, parked) && Quiet(s, s') && forall t :: Alive(s, t) ==> t in s.info
    ensures Linked(s', tasks, StillParked(parked, s'))
  {
  }

  lemma Created(s: T.State, idle: nat, tid: nat, p: nat)
    requires T.Inv(s, idle) && tid !in s.info
    ensures var r := T.Create(s, tid, p);
            && r.blocked == s.blocked && tid !in r.blocked && !Alive(s, tid)
            && (forall t :: Alive(r, t) <==> Alive(s, t) || t == tid)
            && tid in r.info && r.info[tid].process == p && forall t :: t in s.info ==>
               t in r.info && r.info[t] == s.info[t]
  {
    assert tid !in s.ring && tid !in s.blocked;
    Rings.InsertedMembers(s.ring, 0, tid);
  }

  lemma CreateKeepsLink(s: T.State, idle: nat, tasks: map<nat, P.Task>, parked: map<nat, int>, tid: nat, p: nat,
                        tasks': map<nat, P.Task>)
    requires T.Inv(s, idle) && Linked(s, tasks, parked) && tid !in s.info && tid !in tasks
    requires if p == 0 then tasks' == tasks
             else tid in tasks' && tasks' == tasks[tid := tasks'[tid]] && p == tasks'[tid].slot + 1
    ensures Linked(T.Create(s, tid, p), tasks', parked)
  {
    Created(s, idle, tid, p);
    AddedLinks(s, T.Create(s, tid, p), tasks, parked, tid, p, tasks');
  }

  lemma AddedLinks(s: T.State, r: T.State, tasks: map<nat, P.Task>, parked: map<nat, int>, tid: nat, p: nat,
                   tasks': map<nat, P.Task>)
    requires Linked(s, tasks, parked) && tid !in s.info && tid !in tasks && forall t :: Alive(s, t) ==> t in s.info
    requires if p == 0 then tasks' == tasks
             else tid in tasks' && tasks' == tasks[tid := tasks'[tid]] && p == tasks'[tid].slot + 1
    requires r.blocked == s.blocked && tid !in r.blocked && forall t :: Alive(r, t) <==> Alive(s, t) || t == tid
    requires tid in r.info && r.info[tid].process == p && forall t :: t in s.info ==>
             t in r.info && r.info[t] == s.info[t]
    ensures Linked(r, tasks', parked)
  {
    assert Belong(r, tasks');
    forall t
      ensures t in parked <==> t in r.blocked && t in r.info && IsWait(r.info[t].channel)
    {
      assert t in s.blocked ==> Alive(s, t);
    }
  }

  lemma Blocked(s: T.State, idle: nat, ch: nat)
    requires T.Inv(s, idle) && s.current in s.info
    ensures var r := T.Block(s, T.Current(s), ch);
            && s.current !in s.blocked && r.blocked == s.blocked + [s.current]
            && (forall t :: Alive(r, t) <==> Alive(s, t))
            && r.info == s.info[s.current := s.info[s.current].(ready := false, channel := ch)]
  {
    assert s.current !in s.blocked;
    Rings.WithoutMembers(s.ring, T.Current(s));
  }

  lemma BlockKeepsLink(s: T.State, idle: nat, tasks: map<nat, P.Task>, parked: map<nat, int>, ch: nat, parked': map<nat,
                       int>)
    requires T.Inv(s, idle) && Linked(s, tasks, parked) && s.current in s.info
    requires if IsWait(ch) then s.current in parked' && parked' == parked[s.current := parked'[s.current]]
             else parked' == parked
    requires IsWait(ch) ==> s.current in tasks && ch == WaitChannel(tasks[s.current].slot)
    ensures Linked(T.Block(s, T.Current(s), ch), tasks, parked')
  {
    Blocked(s, idle, ch);
    ParkedLinks(s, T.Block(s, T.Current(s), ch), tasks, parked, s.current, ch, parked');
  }

  lemma ParkedLinks(s: T.State, r: T.State, tasks: map<nat, P.Task>, parked: map<nat, int>, me: nat, ch: nat,
                    parked': map<nat, int>)
    requires Linked(s, tasks, parked) && me in s.info && me !in s.blocked
    requires if IsWait(ch) then me in parked' && parked' == parked[me := parked'[me]] else parked' == parked
    requires IsWait(ch) ==> me in tasks && ch == WaitChannel(tasks[me].slot)
    requires r.blocked == s.blocked + [me] && forall t :: Alive(r, t) <==> Alive(s, t)
    requires r.info == s.info[me := s.info[me].(ready := false, channel := ch)]
    ensures Linked(r, tasks, parked')
  {
    assert Belong(r, tasks);
    forall t
      ensures t in r.blocked <==> t in s.blocked || t == me
    {
    }
  }

  /** The current task leaves the lists. */
  lemma LeftFacts(s: T.State, idle: nat)
    requires T.Inv(s, idle) && s.current != idle
    ensures var r := Left(s, idle);
            && r.blocked == s.blocked && s.current !in r.blocked
            && (forall t :: Alive(r, t) <==> Alive(s, t) && t != s.current)
            && (forall t :: Alive(r, t) && t in s.info ==> t in r.info && r.info[t] == s.info[t])
  {
    Rings.WithoutMembers(s.ring, T.Current(s));
    assert s.current !in s.blocked;
  }

  lemma LeftKeepsLink(s: T.State, idle: nat, tasks: map<nat, P.Task>, parked: map<nat, int>)
    requires T.Inv(s, idle) && s.current != idle && Linked(s, tasks, parked)
    ensures Linked(Left(s, idle), tasks - {s.current}, parked - {s.current})
  {
    LeftFacts(s, idle);
  }

  /** A wake-up that is not for waitpid. */
  lemma WokenKeepsLink(s: T.State, idle: nat, tasks: map<nat, P.Task>, parked: map<nat, int>, ch: nat)
    requires T.Inv(s, idle) && Linked(s, tasks, parked) && !IsWait(ch)
    ensures Linked(Woken(s, idle, ch), tasks, parked)
  {
    var r := Woken(s, idle, ch);
    QuietKeepsLink(s, r, tasks, parked);
    AllStillParked(s, r, tasks, parked, ch);
  }

  lemma AllStillParked(s: T.State, r: T.State, tasks: map<nat, P.Task>, parked: map<nat, int>, ch: nat)
    requires Wait(s, tasks, parked) && !IsWait(ch)
    requires forall u :: u in s.blocked && u in s.info ==> (u in r.blocked <==> s.info[u].channel != ch)
    ensures StillParked(parked, r) == parked
  {
    forall t | t in parked
      ensures t in r.blocked
    {
      assert t in s.blocked && t in s.info;
    }
    assert StillParked(parked, r).Keys == parked.Keys;
  }

  /** The parent is told: exactly its waiters are no longer parked. */
  lemma TellKeepsLink(s: T.State, idle: nat, tasks: map<nat, P.Task>, parked: map<nat, int>, main: nat, parent: nat,
                      parked': map<nat, int>)
    requires T.Inv(s, idle) && Linked(s, tasks, parked) && parent < SLOTS
    requires main in tasks ==> tasks[main].slot == parent
    requires parked' == map t | t in parked && !(t in tasks && tasks[t].slot == parent) :: parked[t]
    ensures Linked(Woken(WokenTask(s, idle, main), idle, WaitChannel(parent)), tasks, parked')
  {
    var s1 := WokenTask(s, idle, main);
    var s2 := Woken(s1, idle, WaitChannel(parent));
    QuietKeepsLink(s, s1, tasks, parked);
    QuietKeepsLink(s1, s2, tasks, StillParked(parked, s1));
    forall t | t in parked
      ensures t in s2.blocked <==> !(t in tasks && tasks[t].slot == parent)
    {
      ToldWaiter(s, s1, s2, tasks, parked, main, parent, t);
    }
    SameParked(parked, s1, s2, parked');
  }

  lemma ToldWaiter(s: T.State, s1: T.State, s2: T.State, tasks: map<nat, P.Task>, parked: map<nat, int>, main: nat,
                   parent: nat, t: nat)
    requires Wait(s, tasks, parked) && Quiet(s, s1) && Quiet(s1, s2) && t in parked
    requires main in tasks ==> tasks[main].slot == parent
    requires forall u :: u in s.blocked ==> (u in s1.blocked <==> u != main)
    requires forall u :: u in s1.blocked && u in s1.info ==>
             (u in s2.blocked <==> s1.info[u].channel != WaitChannel(parent))
    ensures t in s2.blocked <==> !(t in tasks && tasks[t].slot == parent)
  {
    assert t in s.blocked && t in s.info && t in tasks;
    if t != main {
      assert t in s1.blocked;
    }
  }

  lemma SameParked(parked: map<nat, int>, s1: T.State, s2: T.State, parked': map<nat, int>)
    requires forall t :: t in s2.blocked ==> t in s1.blocked
    requires forall t :: t in parked' <==> t in parked && t in s2.blocked
    requires forall t :: t in parked' ==> parked'[t] == parked[t]
    ensures StillParked(StillParked(parked, s1), s2) == parked'
  {
    assert StillParked(StillParked(parked, s1), s2).Keys == parked'.Keys;
  }

  // ---------------------------------------------------------------- a task of a process ends

  lemma EndedSelf(table: P.State, t: nat, status: int, i: nat)
    requires t in table.tasks && i == table.tasks[t].slot < |table.slots| && table.slots[i].parent != table.slots[i].pid
    ensures var e := EndedSlots(table, t, status);
            |e| == |table.slots| && e[i].parent == table.slots[i].parent && e[i].task == 0
  {
  }

  /** Nothing but the ended process and its children differs there. */
  lemma EndedOther(table: P.State, t: nat, status: int, j: nat)
    requires t in table.tasks && table.tasks[t].slot < |table.slots| && j < |table.slots| && j != table.tasks[t].slot
    ensures var e, was := EndedSlots(table, t, status), table.slots[j];
            |e| == |table.slots| && (P.Used(e[j]) ==> P.Used(was) && e[j].pid == was.pid && e[j].task == was.task)
  {
  }

  /** The main task that SIGCHLD wakes is one of the parent's. */
  lemma ParentsMain(table: P.State, t: nat, e: seq<P.Slot>, i: nat, status: int)
    requires P.Inv(table) && t in table.tasks && i == table.tasks[t].slot && e == EndedSlots(table, t, status)
    requires e[i].parent > 0
    ensures var parent := P.Find(e, e[i].parent, 0);
            parent < |e| && e[parent].task in table.tasks ==> table.tasks[e[parent].task].slot == parent
  {
    var parent := P.Find(e, e[i].parent, 0);
    assert P.Used(table.slots[i]);
    EndedSelf(table, t, status, i);
    if parent != i && parent < |e| {
      EndedOther(table, t, status, parent);
      RunningParent(table, i, parent);
      assert P.Staffed(table.slots[parent], table.tasks, parent);
    }
  }

  lemma RunningParent(table: P.State, i: nat, parent: nat)
    requires P.PidsOk(table.slots) && P.ParentsOk(table.slots) && i < |table.slots| && parent < |table.slots|
    requires P.Used(table.slots[i]) && table.slots[i].parent > 0
    requires P.Used(table.slots[parent]) && table.slots[parent].pid == table.slots[i].parent
    ensures table.slots[parent].phase == P.Running
  {
    var j :| 0 <= j < |table.slots| && table.slots[j].phase == P.Running && table.slots[j].pid == table.slots[i].parent;
    assert P.Used(table.slots[j]);
  }

  /** The waiters that are parked once the process in slot i of e has told its parent. */
  function Untold(tasks: map<nat, P.Task>, parked: map<nat, int>, e: seq<P.Slot>, i: nat): map<nat, int>
    requires i < |e|
  {
    var parent := P.Find(e, e[i].parent, 0);
    if e[i].parent > 0 then map u | u in parked && !(u in tasks && tasks[u].slot == parent) :: parked[u] else parked
  }

  /** What the table says of the tasks afterwards. */
  lemma ExitTasks(table: P.State, t: nat, status: int)
    requires t in table.tasks && table.tasks[t].slot < |table.slots|
    ensures var table' := P.TaskExit(table, t, status);
            && table'.tasks == table.tasks - {t}
            && (!P.IsLast(table, t) ==> table'.parked == table.parked - {t})
            && (P.IsLast(table, t) ==>
                  table'.parked == Untold(table.tasks - {t}, table.parked - {t}, EndedSlots(table, t, status),
                    table.tasks[t].slot))
  {
  }

  lemma NotifiedLinks(s: T.State, idle: nat, tasks: map<nat, P.Task>, parked: map<nat, int>, e: seq<P.Slot>, i: nat)
    requires T.Inv(s, idle) && Linked(s, tasks, parked) && i < |e| == SLOTS && forall u :: u in tasks ==>
             tasks[u].slot < SLOTS
    requires var parent := P.Find(e, e[i].parent, 0);
             e[i].parent > 0 && parent < |e| && e[parent].task in tasks ==> tasks[e[parent].task].slot == parent
    ensures Linked(Notified(s, idle, e, i), tasks, Untold(tasks, parked, e, i))
  {
    ToldLinks(s, idle, tasks, parked, e, i);
    WokenKeepsLink(Told(s, idle, e, i), idle, tasks, Untold(tasks, parked, e, i), ProcessChannel(i));
  }

  lemma ToldLinks(s: T.State, idle: nat, tasks: map<nat, P.Task>, parked: map<nat, int>, e: seq<P.Slot>, i: nat)
    requires T.Inv(s, idle) && Linked(s, tasks, parked) && i < |e| == SLOTS && forall u :: u in tasks ==>
             tasks[u].slot < SLOTS
    requires var parent := P.Find(e, e[i].parent, 0);
             e[i].parent > 0 && parent < |e| && e[parent].task in tasks ==> tasks[e[parent].task].slot == parent
    ensures Linked(Told(s, idle, e, i), tasks, Untold(tasks, parked, e, i))
  {
    var parent, parked' := P.Find(e, e[i].parent, 0), Untold(tasks, parked, e, i);
    if e[i].parent > 0 {
      if parent < |e| {
        TellKeepsLink(s, idle, tasks, parked, e[parent].task, parent, parked');
      } else {
        NobodyThere(tasks, parked, parent, parked');
      }
    }
  }

  lemma NobodyThere(tasks: map<nat, P.Task>, parked: map<nat, int>, k: nat, parked': map<nat, int>)
    requires forall u :: u in tasks ==> tasks[u].slot < k
    requires parked' == map u | u in parked && !(u in tasks && tasks[u].slot == k) :: parked[u]
    ensures parked' == parked
  {
    assert parked'.Keys == parked.Keys;
  }

  lemma LastLinks(s: T.State, idle: nat, table: P.State, t: nat, status: int)
    requires T.Inv(s, idle) && P.Inv(table) && t in table.tasks && Linked(s, table.tasks - {t}, table.parked - {t})
    ensures var i, e := table.tasks[t].slot, EndedSlots(table, t, status);
            Linked(Notified(s, idle, e, i), table.tasks - {t}, Untold(table.tasks - {t}, table.parked - {t}, e, i))
  {
    var i, e := table.tasks[t].slot, EndedSlots(table, t, status);
    if e[i].parent > 0 {
      ParentsMain(table, t, e, i, status);
    }
    NotifiedLinks(s, idle, table.tasks - {t}, table.parked - {t}, e, i);
  }

  lemma JoinedLinks(s: T.State, idle: nat, tasks: map<nat, P.Task>, parked: map<nat, int>, thread: bool, i: nat)
    requires T.Inv(s, idle) && Linked(s, tasks, parked)
    ensures Linked(Joined(s, idle, thread, i), tasks, parked)
  {
    if thread {
      WokenKeepsLink(s, idle, tasks, parked, ThreadChannel(i));
    }
  }

  lemma ExitKeepsLink(s: T.State, idle: nat, table: P.State, status: int)
    requires T.Inv(s, idle) && P.Inv(table) && Linked(s, table.tasks, table.parked) && s.current != idle &&
             s.current in table.tasks
    ensures var table' := P.TaskExit(table, s.current, status);
            Linked(OnExit(Left(s, idle), idle, table, s.current, status), table'.tasks, table'.parked)
  {
    var t := s.current;
    LeftKeepsLink(s, idle, table.tasks, table.parked);
    JoinedLinks(Left(s, idle), idle, table.tasks - {t}, table.parked - {t}, table.tasks[t].thread, table.tasks[t].slot);
    ExitTasks(table, t, status);
    if P.IsLast(table, t) {
      LastLinks(Joined(Left(s, idle), idle, table.tasks[t].thread, table.tasks[t].slot), idle, table, t, status);
    }
  }

  // ---------------------------------------------------------------- every step

  lemma ListsKeepInv(k: Kernel, idle: nat, st: T.Step)
    requires Inv(k, idle) && Enabled(k, idle, Lists(st))
    ensures Inv(Next(k, idle, Lists(st)), idle)
  {
    var s, s' := k.lists, T.Next(k.lists, idle, st);
    T.StepKeepsInv(s, idle, st);
    UnparkKeepsInv(k.table, StillParked(k.table.parked, s'));
    if st.DoBlock? {
      Blocked(s, idle, st.ch);
      BlockKeepsLink(s, idle, k.table.tasks, k.table.parked, st.ch, k.table.parked);
      Unchanged(s, s', k.table.tasks, k.table.parked);
    } else if st.DoCreate? {
      Created(s, idle, st.t, 0);
      CreateKeepsLink(s, idle, k.table.tasks, k.table.parked, st.t, 0, k.table.tasks);
      Unchanged(s, s', k.table.tasks, k.table.parked);
    } else {
      QuietStep(s, idle, st);
      QuietKeepsLink(s, s', k.table.tasks, k.table.parked);
    }
  }

  lemma Unchanged(s: T.State, s': T.State, tasks: map<nat, P.Task>, parked: map<nat, int>)
    requires Wait(s, tasks, parked) && forall t :: t in s.blocked ==> t in s'.blocked
    ensures StillParked(parked, s') == parked
  {
    assert StillParked(parked, s').Keys == parked.Keys;
  }

  /** Only who has which slot matters. */
  lemma SameHomes(s: T.State, tasks: map<nat, P.Task>, tasks': map<nat, P.Task>, parked: map<nat, int>)
    requires Linked(s, tasks, parked) && tasks'.Keys == tasks.Keys && forall t :: t in tasks ==>
             tasks'[t].slot == tasks[t].slot
    ensures Linked(s, tasks', parked)
  {
  }

  lemma LaunchTasks(table: P.State, parent: int, tid: nat, space: nat, created: bool)
    requires |table.slots| == SLOTS && tid !in table.tasks
    ensures var table' := P.Launch(table, parent, tid, space, created);
            && table'.parked == table.parked
            && table'.tasks == if tid in table'.tasks then table.tasks[tid := table'.tasks[tid]] else table.tasks
  {
  }

  lemma LaunchLinks(s: T.State, idle: nat, table: P.State, parent: int, tid: nat, space: nat, created: bool)
    requires T.Inv(s, idle) && Linked(s, table.tasks, table.parked) && |table.slots| == SLOTS && tid != 0 &&
             tid !in s.info
    requires tid !in table.tasks
    ensures var table' := P.Launch(table, parent, tid, space, created);
            var s' := WithNew(s, table'.tasks, tid);
            T.Inv(s', idle) && Linked(s', table'.tasks, table'.parked)
  {
    var table' := P.Launch(table, parent, tid, space, created);
    LaunchTasks(table, parent, tid, space, created);
    NewLinks(s, idle, table.tasks, table.parked, tid, table'.tasks);
  }

  lemma NewLinks(s: T.State, idle: nat, tasks: map<nat, P.Task>, parked: map<nat, int>, tid: nat, tasks': map<nat,
                 P.Task>)
    requires T.Inv(s, idle) && Linked(s, tasks, parked) && tid != 0 && tid !in s.info && tid !in tasks
    requires tasks' == if tid in tasks' then tasks[tid := tasks'[tid]] else tasks
    ensures T.Inv(WithNew(s, tasks', tid), idle) && Linked(WithNew(s, tasks', tid), tasks', parked)
  {
    if tid in tasks' {
      T.CreateKeepsInv(s, idle, tid, tasks'[tid].slot + 1);
      CreateKeepsLink(s, idle, tasks, parked, tid, tasks'[tid].slot + 1, tasks');
    }
  }

  lemma LaunchKeepsInv(k: Kernel, idle: nat, tid: nat, space: nat, created: bool)
    requires Inv(k, idle) && Enabled(k, idle, Launch(tid, space, created))
    ensures Inv(Next(k, idle, Launch(tid, space, created)), idle)
  {
    CallerIsActive(k, idle);
    var me := Caller(k);
    P.StepKeepsInv(k.table, P.DoLaunch(me, tid, space, created));
    LaunchLinks(k.lists, idle, k.table, ParentPid(k.table, me), tid, space, created);
  }

  lemma ThreadKeepsInv(k: Kernel, idle: nat, tid: nat)
    requires Inv(k, idle) && Enabled(k, idle, AddThread(tid))
    ensures Inv(Next(k, idle, AddThread(tid)), idle)
  {
    CallerIsActive(k, idle);
    ThreadedIsSound(k, idle, k.table.tasks[Caller(k)].slot, tid);
  }

  lemma ThreadedIsSound(k: Kernel, idle: nat, i: nat, tid: nat)
    requires Inv(k, idle) && i < |k.table.slots| && k.table.slots[i].phase == P.Running
    requires tid != 0 && tid !in k.lists.info && tid !in k.table.tasks
    ensures Inv(Threaded(k, i, tid), idle)
  {
    P.AddThreadKeepsInv(k.table, i, tid);
    ThreadLinks(k.lists, idle, k.table, i, tid);
  }

  lemma ThreadLinks(s: T.State, idle: nat, table: P.State, i: nat, tid: nat)
    requires T.Inv(s, idle) && Linked(s, table.tasks, table.parked) && i < |table.slots| && tid != 0 && tid !in s.info
    requires tid !in table.tasks
    ensures var table' := P.AddThread(table, i, tid);
            var s' := T.Create(s, tid, i + 1);
            T.Inv(s', idle) && Linked(s', table'.tasks, table'.parked)
  {
    T.CreateKeepsInv(s, idle, tid, i + 1);
    CreateKeepsLink(s, idle, table.tasks, table.parked, tid, i + 1, P.AddThread(table, i, tid).tasks);
  }

  lemma KernelExitLinks(s: T.State, idle: nat, tasks: map<nat, P.Task>, parked: map<nat, int>)
    requires T.Inv(s, idle) && s.current != idle && Linked(s, tasks, parked) && s.current !in tasks &&
             s.current !in parked
    ensures Linked(Left(s, idle), tasks, parked)
  {
    LeftKeepsLink(s, idle, tasks, parked);
    NotThere(tasks, s.current);
    NotThere(parked, s.current);
  }

  lemma NotThere<V>(m: map<nat, V>, x: nat)
    requires x !in m
    ensures m - {x} == m
  {
  }

  lemma ExitKeepsInv(k: Kernel, idle: nat, status: int)
    requires Inv(k, idle) && Enabled(k, idle, Exit(status))
    ensures Inv(Next(k, idle, Exit(status)), idle)
  {
    CallerIsActive(k, idle);
    if Caller(k) == 0 {
      KernelExitLinks(k.lists, idle, k.table.tasks, k.table.parked);
    } else {
      P.StepKeepsInv(k.table, P.DoExit(Caller(k), status));
      ExitKeepsLink(k.lists, idle, k.table, status);
    }
  }

  lemma WaitpidLinks(s: T.State, idle: nat, table: P.State, filter: int, nohang: bool)
    requires T.Inv(s, idle) && Linked(s, table.tasks, table.parked) && s.current in table.tasks
    requires table.tasks[s.current].slot < |table.slots| == SLOTS && s.current !in table.parked
    requires Parks(table, s.current, filter, nohang) ==> T.Enabled(s, idle, T.DoBlock(0))
    ensures s.current in s.info
    ensures var table' := P.Waitpid(table, s.current, filter, nohang);
            var s' := WithParked(s, Parks(table, s.current, filter, nohang), table.tasks[s.current].slot);
            T.Inv(s', idle) && Linked(s', table'.tasks, table'.parked)
  {
    if Parks(table, s.current, filter, nohang) {
      var ch := WaitChannel(table.tasks[s.current].slot);
      T.BlockKeepsInv(s, idle, T.Current(s), ch);
      BlockKeepsLink(s, idle, table.tasks, table.parked, ch, P.Waitpid(table, s.current, filter, nohang).parked);
    }
  }

  lemma WaitpidKeepsInv(k: Kernel, idle: nat, filter: int, nohang: bool)
    requires Inv(k, idle) && Enabled(k, idle, Waitpid(filter, nohang))
    ensures Inv(Next(k, idle, Waitpid(filter, nohang)), idle)
  {
    CallerIsActive(k, idle);
    P.StepKeepsInv(k.table, P.DoWaitpid(Caller(k), filter, nohang));
    WaitpidLinks(k.lists, idle, k.table, filter, nohang);
  }

  lemma ExecKeepsInv(k: Kernel, idle: nat, space: nat)
    requires Inv(k, idle) && Enabled(k, idle, Exec(space))
    ensures Inv(Next(k, idle, Exec(space)), idle)
  {
    CallerIsActive(k, idle);
    P.StepKeepsInv(k.table, P.DoExec(Caller(k), space));
    ExecLinks(k.lists, k.table, Caller(k), space);
  }

  lemma ExecLinks(s: T.State, table: P.State, me: nat, space: nat)
    requires Linked(s, table.tasks, table.parked) && me in table.tasks && table.tasks[me].slot < |table.slots|
    ensures var table' := P.Exec(table, me, space);
            Linked(s, table'.tasks, table'.parked)
  {
    SameHomes(s, table.tasks, P.Exec(table, me, space).tasks, table.parked);
  }

  /** The collecting of process_wait and process_detach leave tasks and waiters alone. */
  lemma ReapKeepsInv(k: Kernel, idle: nat, pid: int)
    requires Inv(k, idle)
    ensures Inv(Kernel(k.lists, P.Next(k.table, P.DoReap(pid))), idle)
  {
    P.StepKeepsInv(k.table, P.DoReap(pid));
    SlotTasks(k.table, P.Find(k.table.slots, pid, 0));
  }

  lemma DetachKeepsInv(k: Kernel, idle: nat, pid: int)
    requires Inv(k, idle)
    ensures Inv(Kernel(k.lists, P.Next(k.table, P.DoDetach(pid))), idle)
  {
    P.StepKeepsInv(k.table, P.DoDetach(pid));
    SlotTasks(k.table, P.Find(k.table.slots, pid, 0));
  }

  lemma SlotTasks(table: P.State, j: nat)
    ensures j < |table.slots| ==> P.Release(table, j).tasks == table.tasks && P.Release(table, j).parked == table.parked
    ensures j < |table.slots| ==> P.Detach(table, j).tasks == table.tasks && P.Detach(table, j).parked == table.parked
  {
  }

  lemma StepKeepsInv(k: Kernel, idle: nat, step: Step)
    requires Inv(k, idle) && Enabled(k, idle, step)
    ensures Inv(Next(k, idle, step), idle)
  {
    match step
    case Lists(st) => ListsKeepInv(k, idle, st);
    case Launch(tid, space, created) => LaunchKeepsInv(k, idle, tid, space, created);
    case AddThread(tid) => ThreadKeepsInv(k, idle, tid);
    case Exit(status) => ExitKeepsInv(k, idle, status);
    case Exec(space) => ExecKeepsInv(k, idle, space);
    case Waitpid(filter, nohang) => WaitpidKeepsInv(k, idle, filter, nohang);
    case Reap(pid) => ReapKeepsInv(k, idle, pid);
    case Detach(pid) => DetachKeepsInv(k, idle, pid);
  }

  // ---------------------------------------------------------------- what that means

  /** The space the scheduler activates for a listed task is one that a running process owns. */
  lemma ListedTaskHasSpace(k: Kernel, idle: nat, t: nat)
    requires Inv(k, idle) && Alive(k.lists, t) && t in k.lists.info && k.lists.info[t].process != 0
    ensures t in k.table.tasks && k.table.tasks[t].space in P.LiveSpaces(k.table.slots)
  {
    var i := k.table.tasks[t].slot;
    assert k.table.slots[i].phase == P.Running && k.table.slots[i].space == k.table.tasks[t].space;
  }

  /** A task blocked in waitpid has no zombie to wait for: no wake-up is lost. */
  lemma NoWaiterIsForgotten(k: Kernel, idle: nat, t: nat, j: nat)
    requires Inv(k, idle) && t in k.lists.blocked && IsWait(k.lists.info[t].channel)
    requires j < SLOTS && k.table.slots[j].phase == P.Zombie
    ensures t in k.table.parked && t in k.table.tasks && k.table.tasks[t].slot < SLOTS
    ensures !P.Matches(k.table.slots[j], k.table.slots[k.table.tasks[t].slot].pid, k.table.parked[t])
  {
    assert t in k.table.parked;
  }

  /** The task is of the parent of the process in slot i and waits for a child, or is its main task. */
  ghost predicate OfParent(table: P.State, i: nat, u: nat, ch: nat)
    requires i < |table.slots|
  {
    exists p :: 0 <= p < |table.slots| && IsParent(table.slots, i, p) &&
      (ch == WaitChannel(p) || u == table.slots[p].task)
  }

  predicate IsParent(slots: seq<P.Slot>, i: nat, p: nat)
    requires i < |slots| && p < |slots|
  {
    P.Used(slots[p]) && slots[p].pid == slots[i].parent && slots[i].parent > 0
  }

  /** The parent is found once the process has ended. */
  lemma FoundParent(table: P.State, t: nat, i: nat, status: int, p: nat)
    requires P.Inv(table) && t in table.tasks && i == table.tasks[t].slot < |table.slots| && p < |table.slots|
    ensures var e := EndedSlots(table, t, status);
            && |e| == |table.slots| && e[i].parent == table.slots[i].parent
            && (IsParent(table.slots, i, p) <==> e[i].parent > 0 && P.Find(e, e[i].parent, 0) == p)
            && (IsParent(table.slots, i, p) ==> e[p].task == table.slots[p].task)
  {
    var e := EndedSlots(table, t, status);
    assert P.Used(table.slots[i]);
    EndedSelf(table, t, status, i);
    var found := P.Find(e, e[i].parent, 0);
    if e[i].parent > 0 && found < |e| && found != i {
      EndedOther(table, t, status, found);
    }
    if IsParent(table.slots, i, p) {
      RunningParent(table, i, p);
      assert p != i && P.Used(e[p]) && e[p].pid == table.slots[p].pid && e[p].task == table.slots[p].task;
    }
  }

  /** The same task, of the parent that is found in the slots e. */
  ghost predicate FoundOf(e: seq<P.Slot>, i: nat, u: nat, ch: nat)
    requires i < |e|
  {
    var p := P.Find(e, e[i].parent, 0);
    e[i].parent > 0 && p < |e| && (ch == WaitChannel(p) || u == e[p].task)
  }

  lemma FoundIff(table: P.State, t: nat, status: int, u: nat, ch: nat)
    requires P.Inv(table) && t in table.tasks && table.tasks[t].slot < |table.slots|
    ensures |EndedSlots(table, t, status)| == |table.slots|
    ensures var i := table.tasks[t].slot; OfParent(table, i, u, ch) <==> FoundOf(EndedSlots(table, t, status), i, u, ch)
  {
    var i, e := table.tasks[t].slot, EndedSlots(table, t, status);
    var p := P.Find(e, e[i].parent, 0);
    if FoundOf(e, i, u, ch) {
      FoundParent(table, t, i, status, p);
      assert IsParent(table.slots, i, p);
    }
    if OfParent(table, i, u, ch) {
      var q :| 0 <= q < |table.slots| && IsParent(table.slots, i, q) &&
        (ch == WaitChannel(q) || u == table.slots[q].task);
      FoundParent(table, t, i, status, q);
    }
  }

  lemma ToldIff(s: T.State, idle: nat, e: seq<P.Slot>, i: nat, u: nat)
    requires T.Inv(s, idle) && i < |e| && u in s.blocked && u in s.info
    ensures var r := Told(s, idle, e, i);
            && (u in r.blocked <==> !FoundOf(e, i, u, s.info[u].channel))
            && (u in r.blocked ==> u in r.info && r.info[u] == s.info[u])
  {
  }

  lemma NotifiedIff(s: T.State, idle: nat, e: seq<P.Slot>, i: nat, u: nat)
    requires T.Inv(s, idle) && i < |e| && u in s.blocked && u in s.info
    ensures u in Notified(s, idle, e, i).blocked <==>
            s.info[u].channel != ProcessChannel(i) && !FoundOf(e, i, u, s.info[u].channel)
  {
    ToldIff(s, idle, e, i, u);
    var r := Told(s, idle, e, i);
    if u !in r.blocked {
      assert Quiet(r, Woken(r, idle, ProcessChannel(i)));
    }
  }

  /** The tasks that are told of the end of task t. */
  ghost predicate Concerned(table: P.State, t: nat, u: nat, ch: nat)
    requires t in table.tasks && table.tasks[t].slot < |table.slots|
  {
    var i := table.tasks[t].slot;
    || (table.tasks[t].thread && ch == ThreadChannel(i))
    || (P.IsLast(table, t) && (ch == ProcessChannel(i) || OfParent(table, i, u, ch)))
  }

  /** When a task of a process ends, a blocked task is woken exactly if it waits for a thread of that
      process and this was one, or if the process ends with it and the task waits for that, waits for
      a child of the parent, or is the parent's main task. */
  lemma ExitWakes(k: Kernel, idle: nat, status: int, u: nat)
    requires Inv(k, idle) && Enabled(k, idle, Exit(status)) && Caller(k) != 0 && u in k.lists.blocked
    ensures Caller(k) in k.table.tasks && k.table.tasks[Caller(k)].slot < |k.table.slots| && u in k.lists.info
    ensures u in Next(k, idle, Exit(status)).lists.blocked <==>
            !Concerned(k.table, Caller(k), u, k.lists.info[u].channel)
  {
    CallerIsActive(k, idle);
    LeftFacts(k.lists, idle);
    var s, t := Left(k.lists, idle), Caller(k);
    assert Alive(k.lists, u) && Alive(s, u);
    OnExitIff(s, idle, k.table, t, status, u);
  }

  lemma OnExitIff(s: T.State, idle: nat, table: P.State, t: nat, status: int, u: nat)
    requires T.Inv(s, idle) && P.Inv(table) && t in table.tasks && table.tasks[t].slot < |table.slots|
    requires u in s.blocked && u in s.info
    ensures u in OnExit(s, idle, table, t, status).blocked <==> !Concerned(table, t, u, s.info[u].channel)
  {
    var i, ch, e := table.tasks[t].slot, s.info[u].channel, EndedSlots(table, t, status);
    FoundIff(table, t, status, u, ch);
    EndsIff(s, idle, table.tasks[t].thread, i, P.IsLast(table, t), e, u);
  }

  lemma EndsIff(s: T.State, idle: nat, thread: bool, i: nat, last: bool, e: seq<P.Slot>, u: nat)
    requires T.Inv(s, idle) && i < |e| && u in s.blocked && u in s.info
    ensures var s1, ch := Joined(s, idle, thread, i), s.info[u].channel;
            var r := if last then Notified(s1, idle, e, i) else s1;
            u in r.blocked <==>
              !(thread && ch == ThreadChannel(i)) && !(last && (ch == ProcessChannel(i) || FoundOf(e, i, u, ch)))
  {
    var s1 := Joined(s, idle, thread, i);
    JoinedIff(s, idle, thread, i, u);
    if last && u in s1.blocked {
      NotifiedIff(s1, idle, e, i, u);
    } else if last {
      NotifiedIsQuiet(s1, idle, e, i, u);
    }
  }

  lemma JoinedIff(s: T.State, idle: nat, thread: bool, i: nat, u: nat)
    requires T.Inv(s, idle) && u in s.blocked && u in s.info
    ensures var r := Joined(s, idle, thread, i);
            && (u in r.blocked <==> !(thread && s.info[u].channel == ThreadChannel(i)))
            && (u in r.blocked ==> u in r.info && r.info[u] == s.info[u])
  {
  }

  lemma NotifiedIsQuiet(s: T.State, idle: nat, e: seq<P.Slot>, i: nat, u: nat)
    requires T.Inv(s, idle) && i < |e| && u !in s.blocked
    ensures u !in Notified(s, idle, e, i).blocked
  {
    var r := Told(s, idle, e, i);
    assert u !in r.blocked;
    assert Quiet(r, Woken(r, idle, ProcessChannel(i)));
  }

  /** One space has been destroyed, and it is not this one. */
  ghost predicate OtherDestroyed(destroyed: seq<nat>, destroyed': seq<nat>, space: nat)
  {
    |destroyed'| == |destroyed| + 1 && destroyed'[..|destroyed|] == destroyed && destroyed'[|destroyed|] != space
  }

  lemma ExitDestroys(table: P.State, t: nat, status: int, u: nat)
    requires P.Inv(table) && t in table.tasks && u in P.TaskExit(table, t, status).tasks
    requires P.TaskExit(table, t, status).destroyed != table.destroyed
    ensures var table' := P.TaskExit(table, t, status);
            OtherDestroyed(table.destroyed, table'.destroyed, table'.tasks[u].space)
  {
    P.SpaceDestroyedOnce(table, t, status);
  }

  lemma ExecDestroys(table: P.State, t: nat, space: nat, u: nat)
    requires P.Inv(table) && t in table.tasks && P.FreshSpace(table, space) && u in table.tasks
    requires P.Exec(table, t, space).destroyed != table.destroyed
    ensures var table' := P.Exec(table, t, space);
            u in table'.tasks && OtherDestroyed(table.destroyed, table'.destroyed, table'.tasks[u].space)
  {
    P.OnlyMain(table.slots, table.tasks, t);
    P.SameSpaceSameSlot(table);
  }

  lemma LaunchDestroys(table: P.State, parent: int, tid: nat, space: nat, created: bool)
    requires |table.slots| == SLOTS
    ensures P.Launch(table, parent, tid, space, created).destroyed == table.destroyed
  {
  }

  lemma WaitpidDestroys(table: P.State, t: nat, filter: int, nohang: bool)
    requires t in table.tasks && table.tasks[t].slot < |table.slots|
    ensures P.Waitpid(table, t, filter, nohang).destroyed == table.destroyed
  {
  }

  lemma SlotDestroys(table: P.State, j: nat)
    requires j < |table.slots|
    ensures P.Release(table, j).destroyed == P.Detach(table, j).destroyed == table.destroyed
  {
  }

  /** Only an exit or an exec destroys a space, and then one that no task of the table runs in. */
  lemma OpDestroys(table: P.State, op: P.Op, u: nat)
    requires P.Inv(table) && P.Enabled(table, op) && u in P.Next(table, op).tasks
    requires P.Next(table, op).destroyed != table.destroyed
    ensures OtherDestroyed(table.destroyed, P.Next(table, op).destroyed, P.Next(table, op).tasks[u].space)
  {
    match op
    case DoLaunch(caller, tid, space, created) =>
      LaunchDestroys(table, if caller == 0 then 0 else table.slots[table.tasks[caller].slot].pid, tid, space, created);
    case DoExit(t, status) => ExitDestroys(table, t, status, u);
    case DoExec(t, space) => ExecDestroys(table, t, space, u);
    case DoWaitpid(t, filter, nohang) => WaitpidDestroys(table, t, filter, nohang);
    case DoReap(pid) =>
      if P.Find(table.slots, pid, 0) < |table.slots| {
        SlotDestroys(table, P.Find(table.slots, pid, 0));
      }
    case DoDetach(pid) =>
      if P.Find(table.slots, pid, 0) < |table.slots| {
        SlotDestroys(table, P.Find(table.slots, pid, 0));
      }
    case _ =>
  }

  /** What a step is to the table. */
  ghost function OpOf(k: Kernel, step: Step): P.Op
  {
    var me := Caller(k);
    match step
    case Launch(tid, space, created) => P.DoLaunch(me, tid, space, created)
    case AddThread(tid) => P.DoThread(me, tid)
    case Exit(status) => P.DoExit(me, status)
    case Exec(space) => P.DoExec(me, space)
    case Waitpid(filter, nohang) => P.DoWaitpid(me, filter, nohang)
    case Reap(pid) => P.DoReap(pid)
    case Detach(pid) => P.DoDetach(pid)
    case Lists(_) => P.DoWake(0)
  }

  /** A step changes the table as one of its operations does, or not but for the waiters. */
  lemma StepOnTable(k: Kernel, idle: nat, step: Step)
    requires Inv(k, idle) && Enabled(k, idle, step)
    ensures var table' := Next(k, idle, step).table;
            || (table' == k.table.(parked := table'.parked))
            || (P.Enabled(k.table, OpOf(k, step)) && table' == P.Next(k.table, OpOf(k, step)))
  {
    CallerIsActive(k, idle);
    match step
    case Lists(_) => ListsOnTable(k, idle, step.step);
    case Exit(_) => assert Caller(k) == 0 || P.Enabled(k.table, OpOf(k, step));
    case _ => assert P.Enabled(k.table, OpOf(k, step));
  }

  lemma ListsOnTable(k: Kernel, idle: nat, st: T.Step)
    requires Inv(k, idle) && Enabled(k, idle, Lists(st))
    ensures var table' := Next(k, idle, Lists(st)).table;
            table' == k.table.(parked := table'.parked)
  {
  }

  /** A step that destroys a space leaves no task in a list that runs in it, so the task that is current
      then does not. */
  lemma DestroyedSpaceIsUnused(k: Kernel, idle: nat, step: Step, k': Kernel, u: nat)
    requires Inv(k, idle) && Enabled(k, idle, step) && k' == Next(k, idle, step)
    requires k'.table.destroyed != k.table.destroyed
    requires Alive(k'.lists, u) && u in k'.lists.info && k'.lists.info[u].process != 0
    ensures Alive(k'.lists, k'.lists.current)
    ensures u in k'.table.tasks && OtherDestroyed(k.table.destroyed, k'.table.destroyed, k'.table.tasks[u].space)
  {
    StepKeepsInv(k, idle, step);
    StepOnTable(k, idle, step);
    OpDestroys(k.table, OpOf(k, step), u);
  }

  // ---------------------------------------------------------------- runs

  function Boot(main: nat, idle: nat): Kernel
  {
    Kernel(T.Start(main, idle), P.Boot())
  }

  ghost predicate Follows(k: Kernel, idle: nat, step: Step, k': Kernel)
  {
    Enabled(k, idle, step) && (Inv(k, idle) ==> k' == Next(k, idle, step))
  }

  ghost predicate IsRun(main: nat, idle: nat, steps: seq<Step>, states: seq<Kernel>)
  {
    && |states| == |steps| + 1 && states[0] == Boot(main, idle) && main != 0 && idle != 0 && main != idle
    && forall i :: 0 <= i < |steps| ==> Follows(states[i], idle, steps[i], states[i + 1])
  }

  lemma BootIsSound(main: nat, idle: nat)
    requires main != 0 && idle != 0 && main != idle
    ensures Sound(Boot(main, idle), idle)
  {
    T.SchedulerIsSound(main, idle, [], [T.Start(main, idle)], 0);
    P.TableIsSound([], [P.Boot()], 0);
    P.BootBalances();
  }

  lemma StepBalances(k: Kernel, idle: nat, step: Step)
    requires Inv(k, idle) && Enabled(k, idle, step) && P.SpacesBalance(k.table)
    ensures P.SpacesBalance(Next(k, idle, step).table)
  {
    StepOnTable(k, idle, step);
    if P.Enabled(k.table, OpOf(k, step)) {
      P.StepBalances(k.table, OpOf(k, step));
    }
  }

  ghost predicate Sound(k: Kernel, idle: nat)
  {
    Inv(k, idle) && P.SpacesBalance(k.table)
  }

  lemma FollowKeepsSound(k: Kernel, idle: nat, step: Step, k': Kernel)
    requires Sound(k, idle) && Follows(k, idle, step, k')
    ensures Sound(k', idle)
  {
    StepKeepsInv(k, idle, step);
    StepBalances(k, idle, step);
  }

  /** In every state of every run the lists and the table are sound, every task of a process is in a list
      and every listed task with a process is one of the table's, and the tasks parked in waitpid are
      those blocked on their process's waitpid_event. The spaces given to processes are those destroyed,
      once for each time given, and those of the running processes. */
  lemma {:induction false} KernelIsSound(main: nat, idle: nat, steps: seq<Step>, states: seq<Kernel>, i: nat)
    requires IsRun(main, idle, steps, states) && i <= |steps|
    ensures Sound(states[i], idle)
  {
    if i > 0 {
      KernelIsSound(main, idle, steps, states, i - 1);
      FollowKeepsSound(states[i - 1], idle, steps[i - 1], states[i]);
    } else {
      BootIsSound(main, idle);
    }
  }
}
