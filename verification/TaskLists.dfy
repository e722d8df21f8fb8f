/** The scheduler's lists (task.c, and task_block_killable of task.h) and what every operation does to
    them. A task is named by the block it was allocated, which is used again once it has been freed; 0
    names no task. */
module TaskLists {
  import opened Common
  import opened Rings

  /** `ready` is the task state, `kill` its kill_pending flag. */
  datatype Task = Task(process: nat, channel: nat, ready: bool, kill: bool)

  /** The ready ring from ready_queue on, the blocked list from its head, every task not yet freed,
      the current task, the task waiting to be reaped (or 0), the blocks allocated for tasks and those
      freed, in order, and when each task last blocked. */
  datatype State = State(ring: seq<nat>, blocked: seq<nat>, info: map<nat, Task>, current: nat, retired: nat,
                         created: seq<nat>, freed: seq<nat>, since: map<nat, nat>, clock: nat)

  // ---------------------------------------------------------------- invariant

  /** Each live task is once in exactly one of the two lists, in the matching state. */
  ghost predicate Placed(s: State)
  {
    && Distinct(s.ring) && Distinct(s.blocked) && 0 !in s.info
    && (forall t :: t in s.ring ==> t in s.info && s.info[t].ready && t !in s.blocked && t != s.retired)
    && (forall t :: t in s.blocked ==> t in s.info && !s.info[t].ready && t != s.retired)
    && (forall t :: t in s.info ==> t in s.ring || t in s.blocked || t == s.retired)
    && (s.retired != 0 ==> s.retired in s.info)
  }

  /** Nobody waits who has been told to die. */
  ghost predicate NoneDoomed(s: State)
  {
    forall t :: t in s.blocked && t in s.info ==> !s.info[t].kill
  }

  /** The blocked list runs from the longest-blocked task to the latest. */
  ghost predicate OldestFirst(s: State)
  {
    && (forall t :: t in s.blocked ==> t in s.since && s.since[t] < s.clock)
    && (forall i, j :: 0 <= i < j < |s.blocked| ==> s.since[s.blocked[i]] < s.since[s.blocked[j]])
  }

  ghost predicate Inv(s: State, idle: nat)
  {
    Placed(s) && NoneDoomed(s) && OldestFirst(s) && s.current in s.ring && idle in s.ring
  }

  // ---------------------------------------------------------------- operations

  /** add_ready_task: behind the head of the ring. */
  function AddReady(s: State, t: nat): State
    requires |s.ring| > 0 && t in s.info
  {
    s.(ring := Inserted(s.ring, 0, t), info := s.info[t := s.info[t].(ready := true, channel := 0)])
  }

  /** The i-th blocked task leaves the list. */
  function Detach(s: State, i: nat): State
    requires i < |s.blocked|
  {
    s.(blocked := Without(s.blocked, i))
  }

  /** Task t is marked for termination. */
  function Doom(s: State, t: nat): State
    requires t in s.info
  {
    s.(info := s.info[t := s.info[t].(kill := true)])
  }

  /** The i-th blocked task becomes ready, marked for termination if `kill`. */
  function Unblock(s: State, i: nat, kill: bool): State
    requires |s.ring| > 0 && i < |s.blocked| && s.blocked[i] in s.info
  {
    var t := s.blocked[i];
    AddReady(Detach(if kill then Doom(s, t) else s, i), t)
  }

  /** Every blocked task from index i on that is `wanted` becomes ready. */
  ghost function UnblockAll(s: State, i: nat, wanted: Task -> bool, kill: bool): State
    requires |s.ring| > 0 && forall t :: t in s.blocked ==> t in s.info
    decreases |s.blocked| - i
  {
    if i >= |s.blocked| then s
    else if wanted(s.info[s.blocked[i]]) then
      assert forall t :: t in Without(s.blocked, i) ==> t in s.blocked by { WithoutSubset(s.blocked, i); }
      UnblockAll(Unblock(s, i, kill), i, wanted, kill)
    else UnblockAll(s, i + 1, wanted, kill)
  }

  lemma WithoutSubset(list: seq<nat>, k: nat)
    requires k < |list|
    ensures forall x :: x in Without(list, k) ==> x in list
  {
  }

  /** The first blocked task from index i on that is `wanted`, or the length of the list. */
  function FirstWanted(s: State, i: nat, wanted: Task -> bool): (k: nat)
    requires i <= |s.blocked| && forall t :: t in s.blocked ==> t in s.info
    ensures i <= k <= |s.blocked|
    ensures forall j :: i <= j < k ==> !wanted(s.info[s.blocked[j]])
    ensures k < |s.blocked| ==> wanted(s.info[s.blocked[k]])
    decreases |s.blocked| - i
  {
    if i == |s.blocked| || wanted(s.info[s.blocked[i]]) then i else FirstWanted(s, i + 1, wanted)
  }

  function OnChannel(ch: nat): Task -> bool
  {
    (t: Task) => t.channel == ch
  }

  function OfProcess(p: nat): Task -> bool
  {
    (t: Task) => t.process == p
  }

  /** task_wake_one. */
  function WakeOne(s: State, ch: nat): State
    requires |s.ring| > 0 && forall t :: t in s.blocked ==> t in s.info
  {
    var i := FirstWanted(s, 0, OnChannel(ch));
    if i < |s.blocked| then Unblock(s, i, false) else s
  }

  function IndexOf(list: seq<nat>, x: nat): (i: nat)
    requires x in list
    ensures i < |list| && list[i] == x
  {
    if list[0] == x then 0 else IndexOf(list[1..], x) + 1
  }

  lemma IndexIsUnique(list: seq<nat>, i: nat)
    requires Distinct(list) && i < |list|
    ensures IndexOf(list, list[i]) == i
  {
  }

  /** task_wake_task. */
  function WakeTask(s: State, t: nat): State
    requires |s.ring| > 0 && forall u :: u in s.blocked ==> u in s.info
  {
    if t in s.blocked then Unblock(s, IndexOf(s.blocked, t), false) else s
  }

  /** task_wake_all. */
  ghost function WakeAll(s: State, ch: nat): State
    requires |s.ring| > 0 && forall t :: t in s.blocked ==> t in s.info
  {
    UnblockAll(s, 0, OnChannel(ch), false)
  }

  /** Marks the ready tasks of process p, from the k-th on. */
  function Mark(s: State, p: nat, k: nat): State
    requires forall t :: t in s.ring ==> t in s.info
    decreases |s.ring| - k
  {
    if k >= |s.ring| then s
    else Mark(if s.info[s.ring[k]].process == p then Doom(s, s.ring[k]) else s, p, k + 1)
  }

  /** task_kill_blocked. */
  ghost function KillBlocked(s: State, p: nat): State
    requires |s.ring| > 0 && forall t :: t in s.ring || t in s.blocked ==> t in s.info
  {
    MarkFrame(s, p, 0);
    if p == 0 then s else UnblockAll(Mark(s, p, 0), 0, OfProcess(p), true)
  }

  /** Marking changes nothing but the flags of ready tasks of the process. */
  lemma {:induction false} MarkFrame(s: State, p: nat, k: nat)
    requires forall t :: t in s.ring ==> t in s.info
    ensures Mark(s, p, k) == s.(info := Mark(s, p, k).info) && Mark(s, p, k).info.Keys == s.info.Keys
    ensures forall t :: t in s.info ==>
      var was, now := s.info[t], Mark(s, p, k).info[t];
      (now == was || (now == was.(kill := true) && t in s.ring && was.process == p))
    decreases |s.ring| - k
  {
    if k < |s.ring| {
      MarkFrame(if s.info[s.ring[k]].process == p then Doom(s, s.ring[k]) else s, p, k + 1);
    }
  }

  lemma {:induction false} MarkReaches(s: State, p: nat, k: nat, i: nat)
    requires (forall t :: t in s.ring ==> t in s.info) && i < |s.ring| && s.info[s.ring[i]].process == p
    requires i < k ==> s.info[s.ring[i]].kill
    ensures s.ring[i] in Mark(s, p, k).info && Mark(s, p, k).info[s.ring[i]].kill
    decreases |s.ring| - k
  {
    if k < |s.ring| {
      var s1 := if s.info[s.ring[k]].process == p then Doom(s, s.ring[k]) else s;
      MarkReaches(s1, p, k + 1, i);
    }
  }

  /** task_block_current, i being the current task's index in the ring. */
  function Block(s: State, i: nat, ch: nat): State
    requires i < |s.ring| && s.ring[i] in s.info
  {
    var t := s.ring[i];
    s.(ring := Without(s.ring, i), blocked := s.blocked + [t], current := Succ(s.ring, i),
      since := s.since[t := s.clock], clock := s.clock + 1,
       info := s.info[t := s.info[t].(ready := false, channel := ch)])
  }

  /** reap_retired_task. */
  function Reap(s: State): State
  {
    if s.retired == 0 then s else s.(info := s.info - {s.retired}, freed := s.freed + [s.retired], retired := 0)
  }

  /** schedule. */
  function Schedule(s: State, i: nat): State
    requires i < |s.ring|
  {
    Reap(s).(current := Succ(s.ring, i))
  }

  /** task_exit. */
  function Exit(s: State, i: nat): State
    requires i < |s.ring|
  {
    Reap(s).(ring := Without(s.ring, i), current := Succ(s.ring, i), retired := s.ring[i])
  }

  /** create_task. */
  function Create(s: State, t: nat, p: nat): State
    requires |s.ring| > 0
  {
    AddReady(s.(info := s.info[t := Task(p, 0, true, false)], created := s.created + [t]), t)
  }

  // ---------------------------------------------------------------- every operation keeps the lists

  lemma UnblockPlaced(s: State, i: nat, kill: bool)
    requires Placed(s) && |s.ring| > 0 && i < |s.blocked|
    ensures s.blocked[i] in s.info && Placed(Unblock(s, i, kill))
  {
    var t := s.blocked[i];
    assert t in s.blocked && t !in s.ring;
    WithoutMembers(s.blocked, i);
    InsertedMembers(s.ring, 0, t);
  }

  lemma UnblockOrder(s: State, i: nat, kill: bool)
    requires Distinct(s.blocked) && OldestFirst(s) && |s.ring| > 0 && i < |s.blocked| && s.blocked[i] in s.info
    ensures OldestFirst(Unblock(s, i, kill))
  {
    WithoutMembers(s.blocked, i);
  }

  lemma UnblockKeepsInv(s: State, idle: nat, i: nat, kill: bool)
    requires Inv(s, idle) && i < |s.blocked|
    ensures s.blocked[i] in s.info && Inv(Unblock(s, i, kill), idle)
  {
    UnblockPlaced(s, i, kill);
    UnblockOrder(s, i, kill);
    WithoutMembers(s.blocked, i);
    InsertedMembers(s.ring, 0, s.blocked[i]);
  }

  lemma {:induction false} UnblockAllKeepsInv(s: State, idle: nat, i: nat, wanted: Task -> bool, kill: bool)
    requires Inv(s, idle)
    ensures Inv(UnblockAll(s, i, wanted, kill), idle)
    decreases |s.blocked| - i
  {
    if i < |s.blocked| {
      if wanted(s.info[s.blocked[i]]) {
        UnblockKeepsInv(s, idle, i, kill);
        UnblockAllKeepsInv(Unblock(s, i, kill), idle, i, wanted, kill);
      } else {
        UnblockAllKeepsInv(s, idle, i + 1, wanted, kill);
      }
    }
  }

  lemma BlockPlaced(s: State, i: nat, ch: nat)
    requires Placed(s) && i < |s.ring|
    ensures s.ring[i] in s.info && Placed(Block(s, i, ch))
  {
    assert s.ring[i] in s.ring;
    WithoutMembers(s.ring, i);
  }

  lemma BlockOrder(s: State, i: nat, ch: nat)
    requires OldestFirst(s) && i < |s.ring| && s.ring[i] in s.info && s.ring[i] !in s.blocked
    ensures OldestFirst(Block(s, i, ch))
  {
    var s' := Block(s, i, ch);
    assert forall j :: 0 <= j < |s.blocked| ==> s.blocked[j] in s.blocked && s'.blocked[j] == s.blocked[j];
  }

  /** The current task is parked only if it is not the idle task and not marked for termination. */
  lemma BlockKeepsInv(s: State, idle: nat, i: nat, ch: nat)
    requires Inv(s, idle) && i < |s.ring| && s.ring[i] == s.current != idle && s.current in s.info &&
             !s.info[s.current].kill
    ensures Inv(Block(s, i, ch), idle)
  {
    BlockPlaced(s, i, ch);
    BlockOrder(s, i, ch);
    WithoutMembers(s.ring, i);
    NextIsOther(s.ring, i, idle);
  }

  lemma NextIsOther(ring: seq<nat>, i: nat, idle: nat)
    requires Distinct(ring) && i < |ring| && ring[i] != idle && idle in ring
    ensures |ring| > 1 && Succ(ring, i) in Without(ring, i)
  {
    WithoutMembers(ring, i);
  }

  lemma MarkKeepsInv(s: State, idle: nat, p: nat)
    requires Inv(s, idle)
    ensures Inv(Mark(s, p, 0), idle)
  {
    MarkFrame(s, p, 0);
  }

  lemma ExitKeepsInv(s: State, idle: nat, i: nat)
    requires Inv(s, idle) && i < |s.ring| && s.ring[i] == s.current != idle
    ensures Inv(Exit(s, i), idle)
  {
    WithoutMembers(s.ring, i);
    NextIsOther(s.ring, i, idle);
    ExitPlaced(s, i);
  }

  lemma ExitPlaced(s: State, i: nat)
    requires Placed(s) && i < |s.ring|
    ensures Placed(Exit(s, i))
  {
    WithoutMembers(s.ring, i);
    var t := s.ring[i];
    assert t in s.ring;
    assert t != 0 && t in s.info && t !in s.blocked && t != s.retired;
  }

  lemma ScheduleKeepsInv(s: State, idle: nat, i: nat)
    requires Inv(s, idle) && i < |s.ring|
    ensures Inv(Schedule(s, i), idle)
  {
  }

  lemma CreateKeepsInv(s: State, idle: nat, t: nat, p: nat)
    requires Inv(s, idle) && t != 0 && t !in s.info
    ensures Inv(Create(s, t, p), idle)
  {
    InsertedMembers(s.ring, 0, t);
  }

  // ---------------------------------------------------------------- what the operations achieve

  /** The task task_wake_one picks has waited longest of those on the channel. */
  lemma WakeOneIsFair(s: State, idle: nat, ch: nat, u: nat)
    requires Inv(s, idle) && u in s.blocked && s.info[u].channel == ch
    ensures var i := FirstWanted(s, 0, OnChannel(ch));
            && i < |s.blocked| && s.info[s.blocked[i]].channel == ch
            && s.blocked[i] in s.since && u in s.since && (u == s.blocked[i] || s.since[s.blocked[i]] < s.since[u])
            && s.blocked[i] in WakeOne(s, ch).ring && s.blocked[i] !in WakeOne(s, ch).blocked
  {
    var i := FirstWanted(s, 0, OnChannel(ch));
    var j: nat :| j < |s.blocked| && s.blocked[j] == u;
    assert OnChannel(ch)(s.info[s.blocked[j]]);
    UnblockKeepsInv(s, idle, i, false);
    WithoutMembers(s.blocked, i);
    InsertedMembers(s.ring, 0, s.blocked[i]);
  }

  /** After UnblockAll exactly the unwanted ones (and those before index i) are still blocked, the
      others are ready. */
  lemma {:induction false} UnblockAllWakes(s: State, idle: nat, i: nat, wanted: Task -> bool, kill: bool, u: nat)
    requires Inv(s, idle) && u in s.info && i <= |s.blocked|
    ensures var s' := UnblockAll(s, i, wanted, kill);
            && (u in s'.blocked <==> u in s.blocked && (u in s.blocked[..i] || !wanted(s.info[u])))
            && (u in s'.blocked ==> u in s'.info && s'.info[u] == s.info[u])
            && (u in s.blocked && u !in s'.blocked ==> u in s'.ring && u in s'.info && (kill ==> s'.info[u].kill))
            && (u in s.ring ==> u in s'.ring && u in s'.info && s'.info[u] == s.info[u])
    decreases |s.blocked| - i
  {
    if i < |s.blocked| {
      var t := s.blocked[i];
      if wanted(s.info[t]) {
        UnblockKeepsInv(s, idle, i, kill);
        var s1 := Unblock(s, i, kill);
        WithoutMembers(s.blocked, i);
        InsertedMembers(s.ring, 0, t);
        assert s1.blocked[..i] == s.blocked[..i];
        assert t !in s.blocked[..i];
        UnblockAllWakes(s1, idle, i, wanted, kill, u);
      } else {
        assert s.blocked[..i + 1] == s.blocked[..i] + [t];
        UnblockAllWakes(s, idle, i + 1, wanted, kill, u);
      }
    } else {
      assert s.blocked[..i] == s.blocked;
    }
  }

  /** Waking a channel leaves nobody parked on it and everybody else parked as before. */
  lemma WakeAllWakes(s: State, idle: nat, ch: nat, u: nat)
    requires Inv(s, idle) && u in s.blocked
    ensures u in WakeAll(s, ch).blocked <==> s.info[u].channel != ch
    ensures s.info[u].channel == ch ==> u in WakeAll(s, ch).ring
  {
    UnblockAllWakes(s, idle, 0, OnChannel(ch), false, u);
  }

  /** After a kill no task of the process is parked, and every one of its live tasks is marked. */
  lemma KillReachesAll(s: State, idle: nat, p: nat, u: nat)
    requires Inv(s, idle) && p != 0 && u in s.info && s.info[u].process == p && (u in s.ring || u in s.blocked)
    ensures var s' := KillBlocked(s, p);
            u in s'.ring && u !in s'.blocked && u in s'.info && s'.info[u].kill
  {
    var s1 := Mark(s, p, 0);
    MarkKeepsInv(s, idle, p);
    MarkFrame(s, p, 0);
    if u in s.ring {
      MarkReaches(s, p, 0, IndexOf(s.ring, u));
    }
    UnblockAllWakes(s1, idle, 0, OfProcess(p), true, u);
    UnblockAllKeepsInv(s1, idle, 0, OfProcess(p), true);
  }

  // ---------------------------------------------------------------- runs

  datatype Step =
    | DoBlock(ch: nat) | DoWakeOne(ch: nat) | DoWakeAll(ch: nat) | DoWakeTask(t: nat) | DoKill(process: nat)
    | DoSchedule | DoExit | DoCreate(t: nat, process: nat)

  /** The current task's index in the ring. */
  function Current(s: State): (i: nat)
    requires s.current in s.ring
    ensures i < |s.ring| && s.ring[i] == s.current
  {
    IndexOf(s.ring, s.current)
  }

  /** The idle task neither blocks nor exits; a wait first checks for a pending kill; a new task gets
      a block that is not in use. */
  ghost predicate Enabled(s: State, idle: nat, step: Step)
  {
    match step
    case DoBlock(_) => s.current != idle && s.current in s.info && !s.info[s.current].kill
    case DoExit => s.current != idle
    case DoCreate(t, _) => t != 0 && t !in s.info
    case _ => true
  }

  ghost function Next(s: State, idle: nat, step: Step): State
    requires Inv(s, idle) && Enabled(s, idle, step)
  {
    var i := Current(s);
    match step
    case DoBlock(ch) => Block(s, i, ch)
    case DoWakeOne(ch) => WakeOne(s, ch)
    case DoWakeAll(ch) => WakeAll(s, ch)
    case DoWakeTask(t) => WakeTask(s, t)
    case DoKill(p) => KillBlocked(s, p)
    case DoSchedule => Schedule(s, i)
    case DoExit => Exit(s, i)
    case DoCreate(t, p) => Create(s, t, p)
  }

  lemma StepKeepsInv(s: State, idle: nat, step: Step)
    requires Inv(s, idle) && Enabled(s, idle, step)
    ensures Inv(Next(s, idle, step), idle)
  {
    var i := Current(s);
    match step
    case DoBlock(ch) => BlockKeepsInv(s, idle, i, ch);
    case DoWakeOne(ch) =>
      var k := FirstWanted(s, 0, OnChannel(ch));
      if k < |s.blocked| {
        UnblockKeepsInv(s, idle, k, false);
      }
    case DoWakeAll(ch) => UnblockAllKeepsInv(s, idle, 0, OnChannel(ch), false);
    case DoWakeTask(t) =>
      if t in s.blocked {
        UnblockKeepsInv(s, idle, IndexOf(s.blocked, t), false);
      }
    case DoKill(p) =>
      MarkKeepsInv(s, idle, p);
      UnblockAllKeepsInv(Mark(s, p, 0), idle, 0, OfProcess(p), true);
    case DoSchedule => ScheduleKeepsInv(s, idle, i);
    case DoExit => ExitKeepsInv(s, idle, i);
    case DoCreate(t, p) => CreateKeepsInv(s, idle, t, p);
  }

  /** What a step does to the blocks: a reaped task's is freed, a new task's is allocated. */
  lemma NextBlocks(s: State, idle: nat, step: Step)
    requires Inv(s, idle) && Enabled(s, idle, step)
    ensures var s' := Next(s, idle, step);
            match step
            case DoCreate(t, _) => s'.info.Keys == s.info.Keys + {t} && s'.created == s.created + [t] &&
              s'.freed == s.freed
            case _ =>
              && s'.created == s.created
              && (if (step == DoSchedule || step == DoExit) && s.retired != 0
                  then s'.info.Keys == s.info.Keys - {s.retired} && s'.freed == s.freed + [s.retired]
                  else s'.info.Keys == s.info.Keys && s'.freed == s.freed)
  {
    match step
    case DoBlock(ch) => assert s.current in s.info;
    case DoWakeAll(ch) => UnblockAllBlocks(s, 0, OnChannel(ch), false);
    case DoKill(p) => KillBlocks(s, idle, p);
    case _ =>
  }

  lemma KillBlocks(s: State, idle: nat, p: nat)
    requires Inv(s, idle)
    ensures var s' := KillBlocked(s, p);
            s'.info.Keys == s.info.Keys && s'.created == s.created && s'.freed == s.freed
  {
    MarkKeepsInv(s, idle, p);
    MarkFrame(s, p, 0);
    UnblockAllBlocks(Mark(s, p, 0), 0, OfProcess(p), true);
  }

  lemma {:induction false} UnblockAllBlocks(s: State, i: nat, wanted: Task -> bool, kill: bool)
    requires |s.ring| > 0 && forall t :: t in s.blocked ==> t in s.info
    ensures var s' := UnblockAll(s, i, wanted, kill);
            s'.info.Keys == s.info.Keys && s'.created == s.created && s'.freed == s.freed
    decreases |s.blocked| - i
  {
    if i < |s.blocked| {
      if wanted(s.info[s.blocked[i]]) {
        WithoutSubset(s.blocked, i);
        assert Unblock(s, i, kill).info.Keys == s.info.Keys;
        UnblockAllBlocks(Unblock(s, i, kill), i, wanted, kill);
      } else {
        UnblockAllBlocks(s, i + 1, wanted, kill);
      }
    }
  }

  /** A step frees only the retired task, which has left both lists, is not current before or after,
      and is no task any more. */
  lemma FreedOnlyWhenGone(s: State, idle: nat, step: Step)
    requires Inv(s, idle) && Enabled(s, idle, step)
    ensures var s' := Next(s, idle, step);
            || s'.freed == s.freed
            || (s'.freed == s.freed + [s.retired] && s.retired in s.info && s.retired !in s'.info &&
               s.retired !in s.ring &&
                s.retired !in s.blocked && s.retired != s.current && s.retired != s'.current)
  {
    StepKeepsInv(s, idle, step);
    NextBlocks(s, idle, step);
  }

  /** Every block allocated for a task has been freed once or is in use, so no block is freed twice
      for one allocation and none is lost. */
  ghost predicate BlocksBalance(s: State)
  {
    multiset(s.created) == multiset(s.freed) + multiset(s.info.Keys)
  }

  lemma NextBalances(s: State, idle: nat, step: Step)
    requires Inv(s, idle) && Enabled(s, idle, step) && BlocksBalance(s)
    ensures BlocksBalance(Next(s, idle, step))
  {
    NextBlocks(s, idle, step);
    if step.DoCreate? {
      MoreKeys(s.info.Keys, step.t);
    } else if s.retired != 0 {
      FewerKeys(s.info.Keys, s.retired);
    }
  }

  lemma MoreKeys(keys: set<nat>, t: nat)
    requires t !in keys
    ensures multiset(keys + {t}) == multiset(keys) + multiset{t}
  {
  }

  lemma FewerKeys(keys: set<nat>, t: nat)
    requires t in keys
    ensures multiset(keys) == multiset(keys - {t}) + multiset{t}
  {
  }

  function Start(main: nat, idle: nat): State
  {
    State([main, idle], [], map[main := Task(0, 0, true, false), idle := Task(0, 0, true, false)], main, 0,
      [main, idle], [],
          map[], 0)
  }

  ghost predicate Follows(s: State, idle: nat, step: Step, s': State)
  {
    Enabled(s, idle, step) && (Inv(s, idle) ==> s' == Next(s, idle, step))
  }

  ghost predicate IsRun(main: nat, idle: nat, steps: seq<Step>, states: seq<State>)
  {
    && |states| == |steps| + 1 && states[0] == Start(main, idle) && main != 0 && idle != 0 && main != idle
    && forall i :: 0 <= i < |steps| ==> Follows(states[i], idle, steps[i], states[i + 1])
  }

  /** In every state of every run each live task is in exactly one list once, the current and the idle
      task are ready, and no task marked for termination is parked. */
  lemma {:induction false} SchedulerIsSound(main: nat, idle: nat, steps: seq<Step>, states: seq<State>, i: nat)
    requires IsRun(main, idle, steps, states) && i <= |steps|
    ensures Inv(states[i], idle)
  {
    if i > 0 {
      SchedulerIsSound(main, idle, steps, states, i - 1);
      assert Follows(states[i - 1], idle, steps[i - 1], states[i]);
      StepKeepsInv(states[i - 1], idle, steps[i - 1]);
    }
  }

  /** In every state of every run the blocks allocated for tasks are those freed and those in use. */
  lemma {:induction false} BlocksAreConserved(main: nat, idle: nat, steps: seq<Step>, states: seq<State>, i: nat)
    requires IsRun(main, idle, steps, states) && i <= |steps|
    ensures BlocksBalance(states[i])
  {
    if i > 0 {
      SchedulerIsSound(main, idle, steps, states, i - 1);
      BlocksAreConserved(main, idle, steps, states, i - 1);
      assert Follows(states[i - 1], idle, steps[i - 1], states[i]);
      NextBalances(states[i - 1], idle, steps[i - 1]);
    } else {
      assert states[0].info.Keys == {main, idle};
    }
  }
}
