/** What the scheduler's operations mean for a task (task.c): every ready task gets its turn, a task that
    blocks stays on its channel until it is woken there, and a kill touches its process only. */
module SchedulerLaws {
  import opened Common
  import opened Rings
  import opened TaskLists

  // ---------------------------------------------------------------- turns

  /** The task after the current one on the ring becomes current. */
  ghost predicate TurnTo(s: State, s': State)
  {
    s'.ring == s.ring && exists j: nat :: j < |s.ring| && s.ring[j] == s.current && s'.current == Succ(s.ring, j)
  }

  lemma ScheduleTurns(s: State, idle: nat)
    requires Inv(s, idle)
    ensures TurnTo(s, Next(s, idle, DoSchedule)) && Inv(Next(s, idle, DoSchedule), idle)
  {
    var j := Current(s);
    assert s.ring[j] == s.current;
    ScheduleKeepsInv(s, idle, j);
  }

  /** Calls of schedule in a row. */
  ghost predicate Scheduling(states: seq<State>, idle: nat)
  {
    && |states| > 0 && Inv(states[0], idle)
    && forall k :: 0 <= k < |states| - 1 ==>
       (Inv(states[k], idle) ==> states[k + 1] == Next(states[k], idle, DoSchedule))
  }

  ghost predicate Turning(states: seq<State>)
  {
    |states| > 0 && forall k :: 0 <= k < |states| - 1 ==> TurnTo(states[k], states[k + 1])
  }

  lemma {:induction false} SchedulingTurns(states: seq<State>, idle: nat, k: nat)
    requires Scheduling(states, idle) && k < |states|
    ensures Inv(states[k], idle) && (k + 1 < |states| ==> TurnTo(states[k], states[k + 1]))
  {
    if k > 0 {
      SchedulingTurns(states, idle, k - 1);
      ScheduleTurns(states[k - 1], idle);
    }
    ScheduleTurns(states[k], idle);
  }

  lemma TurnFrom(s: State, s': State, j: nat)
    requires TurnTo(s, s') && Distinct(s.ring) && j < |s.ring| && s.current == s.ring[j]
    ensures s'.ring == s.ring && s'.current == if j + 1 < |s.ring| then s.ring[j + 1] else s.ring[0]
  {
  }

  /** The place k steps after the i-th on a ring of n, for at most one lap. */
  function Place(n: nat, i: nat, k: nat): (j: nat)
    requires i < n && k <= n
    ensures j < n
  {
    if i + k < n then i + k else i + k - n
  }

  lemma {:induction false} TurnsInOrder(states: seq<State>, ring: seq<nat>, i: nat, k: nat)
    requires Turning(states) && states[0].ring == ring && Distinct(ring) && i < |ring| && states[0].current == ring[i]
    requires k < |states| && k <= |ring|
    ensures states[k].ring == ring && states[k].current == ring[Place(|ring|, i, k)]
  {
    if k > 0 {
      TurnsInOrder(states, ring, i, k - 1);
      TurnFrom(states[k - 1], states[k], Place(|ring|, i, k - 1));
    }
  }

  /** Every ready task becomes current within as many calls of schedule as there are ready tasks. */
  lemma EveryTaskHasItsTurn(states: seq<State>, idle: nat, t: nat) returns (k: nat)
    requires Scheduling(states, idle) && |states| == |states[0].ring| && t in states[0].ring
    ensures k < |states| && states[k].current == t
  {
    var ring := states[0].ring;
    forall n | 0 <= n < |states| - 1
      ensures TurnTo(states[n], states[n + 1])
    {
      SchedulingTurns(states, idle, n);
    }
    k := Reached(states, ring, t);
  }

  lemma Reached(states: seq<State>, ring: seq<nat>, t: nat) returns (k: nat)
    requires Turning(states) && states[0].ring == ring && Distinct(ring) && states[0].current in ring && t in ring
    requires |states| == |ring|
    ensures k < |states| && states[k].current == t
  {
    var i: nat :| i < |ring| && ring[i] == states[0].current;
    var j: nat :| j < |ring| && ring[j] == t;
    k := if j >= i then j - i else j + |ring| - i;
    TurnsInOrder(states, ring, i, k);
  }

  // ---------------------------------------------------------------- blocking and waking

  /** A task that blocks is on its channel, behind those that blocked before; another ready task runs. */
  lemma BlockLaw(s: State, idle: nat, ch: nat)
    requires Inv(s, idle) && Enabled(s, idle, DoBlock(ch))
    ensures var s', t := Next(s, idle, DoBlock(ch)), s.current;
            && s'.blocked == s.blocked + [t] && t !in s'.ring && s'.current in s'.ring && s'.current != t
            && t in s'.info && s'.info[t].channel == ch && s'.info[t].process == s.info[t].process && !s'.info[t].ready
            && (forall u :: u != t ==> (u in s'.ring <==> u in s.ring))
            && s'.info == s.info[t := s'.info[t]]
  {
    StepKeepsInv(s, idle, DoBlock(ch));
    WithoutMembers(s.ring, Current(s));
  }

  /** It stays there until its channel is signalled, it is woken by name, or its process is killed. */
  lemma StaysBlocked(s: State, idle: nat, step: Step, t: nat)
    requires Inv(s, idle) && Enabled(s, idle, step) && t in s.blocked
    requires match step
             case DoWakeOne(ch) => s.info[t].channel != ch
             case DoWakeAll(ch) => s.info[t].channel != ch
             case DoWakeTask(u) => u != t
             case DoKill(p) => p == 0 || s.info[t].process != p
             case _ => true
    ensures var s' := Next(s, idle, step);
            t in s'.blocked && t in s'.info && s'.info[t] == s.info[t]
  {
    match step
    case DoWakeOne(ch) => OthersStay(s, FirstWanted(s, 0, OnChannel(ch)), t);
    case DoWakeAll(ch) => UnblockAllWakes(s, idle, 0, OnChannel(ch), false, t);
    case DoWakeTask(u) =>
      if u in s.blocked {
        OthersStay(s, IndexOf(s.blocked, u), t);
      }
    case DoKill(p) => KillSpares(s, idle, p, t);
    case DoBlock(ch) => BlockLaw(s, idle, ch);
    case _ =>
  }

  lemma OthersStay(s: State, i: nat, t: nat)
    requires Placed(s) && |s.ring| > 0 && t in s.blocked
    ensures i < |s.blocked| && s.blocked[i] in s.info && s.blocked[i] != t ==>
      var s' := Unblock(s, i, false);
      t in s'.blocked && t in s'.info && s'.info[t] == s.info[t]
  {
    if i < |s.blocked| {
      WithoutMembers(s.blocked, i);
    }
  }

  /** A kill leaves the tasks of other processes alone. */
  lemma KillSpares(s: State, idle: nat, p: nat, t: nat)
    requires Inv(s, idle) && t in s.info && (p == 0 || s.info[t].process != p)
    ensures var s' := KillBlocked(s, p);
            && t in s'.info && s'.info[t] == s.info[t]
            && (t in s'.blocked <==> t in s.blocked) && (t in s'.ring <==> t in s.ring)
  {
    if p != 0 {
      var s1 := Mark(s, p, 0);
      MarkFrame(s, p, 0);
      MarkKeepsInv(s, idle, p);
      UnblockAllSpares(s1, idle, 0, OfProcess(p), true, t);
    }
  }

  lemma {:induction false} UnblockAllSpares(s: State, idle: nat, i: nat, wanted: Task -> bool, kill: bool, t: nat)
    requires Inv(s, idle) && t in s.info && !wanted(s.info[t])
    ensures var s' := UnblockAll(s, i, wanted, kill);
            && t in s'.info && s'.info[t] == s.info[t]
            && (t in s'.blocked <==> t in s.blocked) && (t in s'.ring <==> t in s.ring)
    decreases |s.blocked| - i
  {
    if i < |s.blocked| {
      if wanted(s.info[s.blocked[i]]) {
        UnblockKeepsInv(s, idle, i, kill);
        WithoutMembers(s.blocked, i);
        InsertedMembers(s.ring, 0, s.blocked[i]);
        UnblockAllSpares(Unblock(s, i, kill), idle, i, wanted, kill, t);
      } else {
        UnblockAllSpares(s, idle, i + 1, wanted, kill, t);
      }
    }
  }

  lemma BehindHead(ring: seq<nat>, t: nat)
    requires ring != []
    ensures Inserted(ring, 0, t) == [ring[0], t] + ring[1..]
  {
  }

  /** A woken task becomes ready behind the head of the ring. */
  lemma WokenIsReady(s: State, i: nat, kill: bool)
    requires |s.ring| > 0 && Placed(s) && Distinct(s.blocked) && i < |s.blocked| && s.blocked[i] in s.info
    ensures var s', t := Unblock(s, i, kill), s.blocked[i];
            && s'.ring == [s.ring[0], t] + s.ring[1..] && t !in s'.blocked && t in s'.info && s'.info[t].ready
            && s'.info[t].process == s.info[t].process && (kill ==> s'.info[t].kill)
  {
    BehindHead(s.ring, s.blocked[i]);
  }

  lemma WakesNoOther(s: State, i: nat, kill: bool, u: nat)
    requires |s.ring| > 0 && Distinct(s.blocked) && i < |s.blocked| && s.blocked[i] in s.info && u != s.blocked[i]
    ensures var s' := Unblock(s, i, kill);
            (u in s'.blocked <==> u in s.blocked) && (u in s'.ring <==> u in s.ring)
  {
    WithoutMembers(s.blocked, i);
    InsertedMembers(s.ring, 0, s.blocked[i]);
  }

  /** task_wake_task makes a blocked task ready. */
  lemma WakeTaskLaw(s: State, idle: nat, t: nat)
    requires Inv(s, idle) && t in s.blocked
    ensures var s' := Next(s, idle, DoWakeTask(t));
            s'.ring == [s.ring[0], t] + s.ring[1..] && t !in s'.blocked && t in s'.info && s'.info[t].ready
  {
    WokenIsReady(s, IndexOf(s.blocked, t), false);
  }

  /** It wakes no other. */
  lemma WakeTaskSpares(s: State, idle: nat, t: nat, u: nat)
    requires Inv(s, idle) && u != t
    ensures var s' := Next(s, idle, DoWakeTask(t));
            (u in s'.blocked <==> u in s.blocked) && (u in s'.ring <==> u in s.ring)
  {
    if t in s.blocked {
      WakesNoOther(s, IndexOf(s.blocked, t), false, u);
    }
  }

  // ---------------------------------------------------------------- beginning and end

  /** A new task is ready, belongs to its process and is not marked. */
  lemma CreateLaw(s: State, idle: nat, t: nat, p: nat, u: nat)
    requires Inv(s, idle) && Enabled(s, idle, DoCreate(t, p))
    ensures var s' := Next(s, idle, DoCreate(t, p));
            && s'.ring == [s.ring[0], t] + s.ring[1..]
            && t in s'.info && s'.info[t].process == p && s'.info[t].ready && !s'.info[t].kill
            && s'.blocked == s.blocked && s'.current == s.current
            && (u != t ==> (u in s'.ring <==> u in s.ring)) && s'.info == s.info[t := s'.info[t]]
  {
    BehindHead(s.ring, t);
    InsertedMembers(s.ring, 0, t);
  }

  /** A task that exits is in no list; the next one runs. */
  lemma ExitLaw(s: State, idle: nat, u: nat)
    requires Inv(s, idle) && Enabled(s, idle, DoExit)
    ensures var s', t := Next(s, idle, DoExit), s.current;
            && t !in s'.ring && t !in s'.blocked && s'.retired == t && s'.current in s'.ring
            && s'.blocked == s.blocked && (u != t ==> (u in s'.ring <==> u in s.ring))
            && (u != s.retired && u in s.info ==> u in s'.info && s'.info[u] == s.info[u])
  {
    StepKeepsInv(s, idle, DoExit);
    WithoutMembers(s.ring, Current(s));
  }
}
