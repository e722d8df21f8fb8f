/** task.c: the pointer operations on the ready ring and the blocked list, each proved to do to the
    lists what TaskLists says. Task structures are named by address; each field is a map. */
module Scheduler {
  import opened Common
  import opened Rings
  import opened TaskLists

  class Tasks {
    var next: map<nat, nat>
    var blockedNext: map<nat, nat>
    var info: map<nat, Task>
    var current: nat
    var readyQueue: nat
    var blockedHead: nat
    var retired: nat
    ghost const idle: nat
    ghost var s: State

    /** The pointers are those of the lists in `s`. */
    ghost predicate Synced()
      reads this
    {
      && s.info == info && s.current == current && s.retired == retired
      && Linked(next, s.ring) && s.ring[0] == readyQueue && Chained(blockedNext, blockedHead, s.blocked)
    }

    ghost predicate Valid()
      reads this
    {
      Synced() && Inv(s, idle)
    }

    /** tasking_init, with both allocations successful. */
    constructor (main: nat, idleTask: nat)
      requires main != 0 && idleTask != 0 && main != idleTask
      ensures Valid() && s == Start(main, idleTask) && idle == idleTask
    {
      next := map[main := idleTask, idleTask := main];
      blockedNext := map[main := 0, idleTask := 0];
      info := map[main := Task(0, 0, true, false), idleTask := Task(0, 0, true, false)];
      current, readyQueue, blockedHead, retired := main, main, 0, 0;
      idle, s := idleTask, Start(main, idleTask);
    }

    /** find_ready_previous. */
    method FindPrevious(task: nat, ghost i: nat) returns (previous: nat)
      requires Linked(next, s.ring) && Distinct(s.ring) && i < |s.ring| && task == s.ring[i]
      ensures previous == Pred(s.ring, i)
    {
      previous := task;
      ghost var n, k: nat := |s.ring|, i;
      ghost var goal := if i > 0 then i - 1 else n - 1;
      while next[previous] != task
        invariant k < n && previous == s.ring[k]
        decreases if k <= goal then goal - k else goal + n - k
      {
        previous := next[previous];
        k := if k + 1 < n then k + 1 else 0;
      }
      assert s.ring[i] == Succ(s.ring, k);
    }

    /** add_ready_task. */
    method AddReadyTask(task: nat)
      requires Synced() && Distinct(s.ring) && task !in s.ring && task !in s.blocked && task in info
      modifies this
      ensures Synced() && s == AddReady(old(s), task)
    {
      InsertLinks(next, s.ring, 0, task);
      ChainFrame(blockedNext, blockedHead, s.blocked, task, 0);
      assert next[readyQueue] == Succ(s.ring, 0);
      info := info[task := info[task].(ready := true, channel := 0)];
      blockedNext := blockedNext[task := 0];
      next := next[task := next[readyQueue]][readyQueue := task];
      s := AddReady(s, task);
    }

    /** `task` is the i-th blocked task (0 past the end) and `prev` the one before it (0 at the head). */
    ghost predicate Cursor(prev: nat, task: nat, i: nat)
      reads this
    {
      i <= |s.blocked| && task == At(s.blocked, i) && prev == if i == 0 then 0 else s.blocked[i - 1]
    }

    /** *link = task->blocked_next, on the i-th blocked task. */
    method Unchain(prev: nat, task: nat, ghost i: nat)
      requires Chained(blockedNext, blockedHead, s.blocked) && Cursor(prev, task, i)
      requires i < |s.blocked| && Distinct(s.blocked) && 0 !in s.blocked
      modifies this`blockedHead, this`blockedNext
      ensures Chained(blockedNext, blockedHead, Without(s.blocked, i))
    {
      ChainRemove(blockedNext, blockedHead, s.blocked, i);
      assert i > 0 ==> s.blocked[i - 1] in s.blocked;
      if prev == 0 {
        blockedHead := blockedNext[task];
      } else {
        blockedNext := blockedNext[prev := blockedNext[task]];
      }
    }

    method Leave(prev: nat, task: nat, ghost i: nat)
      requires Synced() && Distinct(s.blocked) && 0 !in s.blocked && Cursor(prev, task, i) && i < |s.blocked|
      modifies this`blockedHead, this`blockedNext, this`s
      ensures Synced() && s == Detach(old(s), i)
    {
      Unchain(prev, task, i);
      s := Detach(s, i);
    }

    method SetKill(task: nat)
      requires Synced() && task in info
      modifies this`info, this`s
      ensures Synced() && s == Doom(old(s), task)
    {
      info := info[task := info[task].(kill := true)];
      s := Doom(s, task);
    }

    /** Unlinks the i-th blocked task and makes it ready. */
    method Release(prev: nat, task: nat, kill: bool, ghost i: nat)
      requires Synced() && Distinct(s.ring) && Distinct(s.blocked) && 0 !in s.blocked
      requires Cursor(prev, task, i) && i < |s.blocked| && task in info && task !in s.ring
      modifies this
      ensures Synced() && s == Unblock(old(s), i, kill)
    {
      WithoutMembers(s.blocked, i);
      if kill {
        SetKill(task);
      }
      Leave(prev, task, i);
      AddReadyTask(task);
    }

    method WakeAt(prev: nat, task: nat, kill: bool, ghost i: nat)
      requires Valid() && Cursor(prev, task, i) && i < |s.blocked|
      modifies this
      ensures Valid() && i < |old(s).blocked| && s == Unblock(old(s), i, kill)
    {
      BlockedTask(i);
      UnblockKeepsInv(s, idle, i, kill);
      Release(prev, task, kill, i);
    }

    lemma BlockedTask(i: nat)
      requires Valid() && i < |s.blocked|
      ensures var t := s.blocked[i]; t != 0 && t in info && t !in s.ring && 0 !in s.blocked && |s.ring| > 0
    {
      assert s.blocked[i] in s.blocked;
    }

    /** The search of task_wake_one. */
    method FindBlocked(ch: nat) returns (prev: nat, task: nat, ghost i: nat)
      requires Valid()
      ensures i == FirstWanted(s, 0, OnChannel(ch)) && Cursor(prev, task, i) && (task == 0 <==> i == |s.blocked|)
    {
      prev, task, i := 0, blockedHead, 0;
      while task != 0
        invariant Cursor(prev, task, i) && FirstWanted(s, 0, OnChannel(ch)) == FirstWanted(s, i, OnChannel(ch))
        decreases |s.blocked| - i
      {
        BlockedTask(i);
        if info[task].channel == ch {
          return;
        }
        prev, task, i := task, blockedNext[task], i + 1;
      }
      if i < |s.blocked| {
        BlockedTask(i);
      }
    }

    /** task_wake_one. */
    method WakeFirst(ch: nat)
      requires Valid()
      modifies this
      ensures Valid() && s == WakeOne(old(s), ch)
    {
      var prev, task, i := FindBlocked(ch);
      if task != 0 {
        WakeAt(prev, task, false, i);
      }
    }

    /** The search of task_wake_task. */
    method FindTask(t: nat) returns (prev: nat, task: nat, ghost i: nat)
      requires Valid() && t != 0
      ensures Cursor(prev, task, i) && (task == 0 <==> i == |s.blocked|)
      ensures if t in s.blocked then i == IndexOf(s.blocked, t) else i == |s.blocked|
    {
      prev, task, i := 0, blockedHead, 0;
      while task != 0 && task != t
        invariant Cursor(prev, task, i) && forall j :: 0 <= j < i ==> s.blocked[j] != t
        decreases |s.blocked| - i
      {
        BlockedIndex(i);
        prev, task, i := task, blockedNext[task], i + 1;
      }
      BlockedIndex(i);
      if i < |s.blocked| {
        IndexIsUnique(s.blocked, i);
      }
    }

    lemma BlockedIndex(i: nat)
      requires Valid() && i <= |s.blocked|
      ensures At(s.blocked, i) == 0 <==> i == |s.blocked|
    {
      if i < |s.blocked| {
        BlockedTask(i);
      }
    }

    /** task_wake_task. */
    method WakeThis(t: nat)
      requires Valid()
      modifies this
      ensures Valid() && s == WakeTask(old(s), t)
    {
      if t == 0 {
        assert 0 !in s.blocked;
        return;
      }
      var prev, task, i := FindTask(t);
      if task != 0 {
        WakeAt(prev, task, false, i);
      }
    }

    /** *link, the blocked task behind `prev`. */
    function LinkTarget(prev: nat): nat
      requires prev == 0 || prev in blockedNext
      reads this
    {
      if prev == 0 then blockedHead else blockedNext[prev]
    }

    lemma LinkIsNext(prev: nat, i: nat)
      requires Synced() && 0 !in s.blocked && i <= |s.blocked| && prev == if i == 0 then 0 else s.blocked[i - 1]
      ensures (prev == 0 || prev in blockedNext) && LinkTarget(prev) == At(s.blocked, i)
    {
      assert i > 0 ==> s.blocked[i - 1] in s.blocked;
    }

    lemma CursorEnd(prev: nat, task: nat, i: nat)
      requires Valid() && Cursor(prev, task, i)
      ensures task == 0 <==> i == |s.blocked|
      ensures task != 0 ==> task in info
    {
      if i < |s.blocked| {
        BlockedTask(i);
      }
    }

    /** One turn of the loops that empty the blocked list: the i-th task is woken, or passed over. */
    method Turn(prev: nat, task: nat, wake: bool, kill: bool, ghost i: nat, ghost wanted: Task -> bool)
      returns (prev': nat, task': nat, ghost i': nat)
      requires Valid() && Cursor(prev, task, i) && task != 0 && task in info && wake == wanted(info[task])
      modifies this
      ensures Valid() && Cursor(prev', task', i') && |s.blocked| - i' < |old(s).blocked| - i
      ensures |s.blocked| == |old(s).blocked| - (if wake then 1 else 0)
      ensures UnblockAll(s, i', wanted, kill) == UnblockAll(old(s), i, wanted, kill)
    {
      CursorEnd(prev, task, i);
      BlockedTask(i);
      if wake {
        WakeAt(prev, task, kill, i);
        prev', i' := prev, i;
      } else {
        prev', i' := task, i + 1;
      }
      task' := Follow(prev', i');
    }

    /** task_wake_all. */
    method WakeChannel(ch: nat)
      requires Valid()
      modifies this
      ensures Valid() && s == WakeAll(old(s), ch)
    {
      var prev, task := 0, blockedHead;
      ghost var i: nat, wanted := 0, OnChannel(ch);
      while task != 0
        invariant Valid() && Cursor(prev, task, i) &&
                  UnblockAll(old(s), 0, wanted, false) == UnblockAll(s, i, wanted, false)
        decreases |s.blocked| - i
      {
        CursorEnd(prev, task, i);
        prev, task, i := Turn(prev, task, info[task].channel == ch, false, i, wanted);
      }
      CursorEnd(prev, task, i);
    }

    method Follow(prev: nat, ghost i: nat) returns (task: nat)
      requires Valid() && i <= |s.blocked| && prev == if i == 0 then 0 else s.blocked[i - 1]
      ensures Cursor(prev, task, i)
    {
      assert 0 !in s.blocked;
      LinkIsNext(prev, i);
      task := LinkTarget(prev);
    }

    method MarkOne(p: nat, task: nat, ghost k: nat)
      requires Synced() && k < |s.ring| && task == s.ring[k] && forall t :: t in s.ring ==> t in s.info
      modifies this`info, this`s
      ensures Synced() && s.ring == old(s).ring && (forall t :: t in s.ring ==> t in s.info) &&
              Mark(old(s), p, k) == Mark(s, p, k + 1)
    {
      if info[task].process == p {
        SetKill(task);
      }
    }

    /** The first loop of task_kill_blocked, around the ring. */
    method MarkRing(p: nat)
      requires Synced() && Distinct(s.ring) && forall t :: t in s.ring ==> t in s.info
      modifies this`info, this`s
      ensures Synced() && s == Mark(old(s), p, 0)
    {
      ghost var k: nat := 0;
      var task := readyQueue;
      while true
        invariant Synced() && s.ring == old(s).ring && k < |s.ring| && task == s.ring[k]
        invariant (forall t :: t in s.ring ==> t in s.info) && Mark(old(s), p, 0) == Mark(s, p, k)
        decreases |s.ring| - k
      {
        MarkOne(p, task, k);
        assert next[task] == Succ(s.ring, k);
        task, k := next[task], k + 1;
        if task == readyQueue {
          assert k == |s.ring|;
          break;
        }
      }
    }

    /** The second loop of task_kill_blocked, along the blocked list. */
    method KillWaiting(p: nat) returns (woken: nat)
      requires Valid()
      modifies this
      ensures Valid() && s == UnblockAll(old(s), 0, OfProcess(p), true) && woken == |old(s).blocked| - |s.blocked|
    {
      woken := 0;
      var prev, task := 0, blockedHead;
      ghost var i: nat, wanted := 0, OfProcess(p);
      while task != 0
        invariant Valid() && Cursor(prev, task, i) &&
                  UnblockAll(old(s), 0, wanted, true) == UnblockAll(s, i, wanted, true)
        invariant woken == |old(s).blocked| - |s.blocked|
        decreases |s.blocked| - i
      {
        CursorEnd(prev, task, i);
        var wake := info[task].process == p;
        prev, task, i := Turn(prev, task, wake, true, i, wanted);
        if wake {
          woken := woken + 1;
        }
      }
      CursorEnd(prev, task, i);
    }

    /** task_kill_blocked. */
    method KillProcess(p: nat) returns (woken: nat)
      requires Valid()
      modifies this
      ensures Valid() && s == KillBlocked(old(s), p)
      ensures woken == |old(s).blocked| - |s.blocked|
    {
      if p == 0 {
        return 0;
      }
      MarkKeepsInv(s, idle, p);
      MarkFrame(s, p, 0);
      MarkRing(p);
      woken := KillWaiting(p);
    }

    /** Unlinks the current task from the ring; `after` runs next. */
    method LeaveRing(ghost i: nat) returns (after: nat)
      requires Linked(next, s.ring) && Distinct(s.ring) && s.ring[0] == readyQueue && i < |s.ring| && |s.ring| > 1 &&
               s.ring[i] == current
      modifies this`next, this`readyQueue
      ensures Linked(next, Without(s.ring, i)) && Without(s.ring, i)[0] == readyQueue && after == Succ(s.ring, i)
    {
      var task := current;
      var previous := FindPrevious(task, i);
      RemoveLinks(next, s.ring, i);
      assert next[task] == Succ(s.ring, i);
      after := next[task];
      next := next[previous := after];
      if readyQueue == task {
        readyQueue := after;
      }
    }

    /** The walk to the tail in task_block_current. */
    method LastBlocked() returns (last: nat)
      requires Chained(blockedNext, blockedHead, s.blocked) && s.blocked != []
      requires forall j :: 0 <= j < |s.blocked| ==> s.blocked[j] != 0
      ensures last == s.blocked[|s.blocked| - 1]
    {
      last := blockedHead;
      ghost var k: nat := 0;
      while blockedNext[last] != 0
        invariant k < |s.blocked| && last == s.blocked[k]
        decreases |s.blocked| - k
      {
        last, k := blockedNext[last], k + 1;
      }
    }

    /** The append of task_block_current. */
    method AppendBlocked(task: nat)
      requires Chained(blockedNext, blockedHead, s.blocked) && Distinct(s.blocked) && task !in s.blocked
      requires forall j :: 0 <= j < |s.blocked| ==> s.blocked[j] != 0
      modifies this`blockedNext, this`blockedHead
      ensures Chained(blockedNext, blockedHead, s.blocked + [task])
    {
      ChainAppend(blockedNext, blockedHead, s.blocked, task);
      ChainFrame(blockedNext, blockedHead, s.blocked, task, 0);
      blockedNext := blockedNext[task := 0];
      if blockedHead == 0 {
        assert s.blocked + [task] == [task];
        blockedHead := task;
      } else {
        var last := LastBlocked();
        blockedNext := blockedNext[last := task];
      }
    }

    /** task_block_current. */
    method BlockCurrent(ch: nat, ghost i: nat)
      requires Synced() && Distinct(s.ring) && Distinct(s.blocked) && current in info
      requires forall j :: 0 <= j < |s.blocked| ==> s.blocked[j] != 0
      requires i < |s.ring| && |s.ring| > 1 && s.ring[i] == current && current !in s.blocked
      modifies this
      ensures Synced() && s == Block(old(s), i, ch)
    {
      var task := current;
      WithoutMembers(s.ring, i);
      var after := LeaveRing(i);
      RingFrame(next, Without(s.ring, i), task, 0);
      next := next[task := 0];
      AppendBlocked(task);
      info := info[task := info[task].(ready := false, channel := ch)];
      current := after;
      s := Block(s, i, ch);
    }

    lemma CurrentTask() returns (i: nat)
      requires Valid()
      ensures s.current in s.ring && i == Current(s) && i < |s.ring| && s.ring[i] == current && current in info &&
              Distinct(s.ring)
      ensures Distinct(s.blocked) && current !in s.blocked && forall j :: 0 <= j < |s.blocked| ==> s.blocked[j] != 0
      ensures current != idle ==> |s.ring| > 1
    {
      assert forall j :: 0 <= j < |s.blocked| ==> s.blocked[j] in s.blocked;
      i := Current(s);
      if current != idle {
        NextIsOther(s.ring, i, idle);
      }
    }

    /** task_block_killable, up to the point where the task is parked or gone. */
    method BlockKillable(ch: nat) returns (exited: bool)
      requires Valid() && current != idle
      modifies this
      ensures Valid() && old(s).current in old(s).ring && old(s).current in old(s).info
      ensures exited == old(s).info[old(s).current].kill
      ensures s == if exited then Exit(old(s), Current(old(s))) else Block(old(s), Current(old(s)), ch)
    {
      ghost var i := CurrentTask();
      exited := info[current].kill;
      if exited {
        TaskExit();
      } else {
        BlockKeepsInv(s, idle, i, ch);
        BlockCurrent(ch, i);
      }
    }

    /** reap_retired_task: the block with its fields is given back. */
    method ReapRetired()
      requires Synced() && retired !in s.ring && retired !in s.blocked
      modifies this
      ensures Synced() && s == Reap(old(s)) && current == old(current) && readyQueue == old(readyQueue)
    {
      if retired != 0 {
        RingDrop(next, s.ring, retired);
        ChainDrop(blockedNext, blockedHead, s.blocked, retired);
        next, blockedNext, info := next - {retired}, blockedNext - {retired}, info - {retired};
        s := Reap(s);
        retired := 0;
      }
    }

    method SwitchOn(ghost i: nat)
      requires Synced() && i < |s.ring| && s.ring[i] == current && retired !in s.ring && retired !in s.blocked
      modifies this
      ensures Synced() && s == Schedule(old(s), i)
    {
      ghost var s' := Schedule(s, i);
      ReapRetired();
      assert next[current] == Succ(s.ring, i);
      current := next[current];
      s := s';
    }

    /** schedule. */
    method Switch()
      requires Valid()
      modifies this
      ensures Valid() && old(s).current in old(s).ring && s == Schedule(old(s), Current(old(s)))
    {
      ghost var i := CurrentTask();
      ScheduleKeepsInv(s, idle, i);
      SwitchOn(i);
    }

    method Retire(ghost i: nat)
      requires Synced() && Distinct(s.ring) && i < |s.ring| && |s.ring| > 1 && s.ring[i] == current
      requires retired !in s.ring && retired !in s.blocked
      modifies this
      ensures Synced() && s == Exit(old(s), i)
    {
      var task := current;
      ghost var s' := Exit(s, i);
      ReapRetired();
      var after := LeaveRing(i);
      current := after;
      retired := task;
      s := s';
    }

    /** task_exit. */
    method TaskExit()
      requires Valid() && current != idle
      modifies this
      ensures Valid() && old(s).current in old(s).ring && s == Exit(old(s), Current(old(s)))
    {
      ghost var i := CurrentTask();
      ExitKeepsInv(s, idle, i);
      Retire(i);
    }

    method Enrol(task: nat, process: nat)
      requires Synced() && Distinct(s.ring) && task !in s.ring && task !in s.blocked
      modifies this
      ensures Synced() && s == Create(old(s), task, process)
    {
      info := info[task := Task(process, 0, true, false)];
      s := s.(info := info, created := s.created + [task]);
      AddReadyTask(task);
    }

    /** create_task, `task` being the block just allocated for it, perhaps one freed before. */
    method CreateTask(task: nat, process: nat)
      requires Valid() && task != 0 && task !in info
      modifies this
      ensures Valid() && s == Create(old(s), task, process)
    {
      CreateKeepsInv(s, idle, task, process);
      assert task !in s.ring && task !in s.blocked;
      Enrol(task, process);
    }
  }
}
