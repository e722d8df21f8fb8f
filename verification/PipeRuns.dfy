/** Every interleaving of the tasks that share one pipe: lifetime, wake-ups and byte order. */
module PipeRuns {
  import opened Common
  import opened Pipe

  type Tid = nat

  /** A pipe_read or pipe_write a task has entered and not left. */
  datatype Flight = Reading(len: nat, parked: bool) | Writing(data: seq<Byte>, put: nat, parked: bool)

  /** How a call ends: with its result, or with the task being killed. */
  datatype Return = ReadReturn(t: Tid, got: seq<Byte>) | WriteReturn(t: Tid, count: nat) | Died(t: Tid)

  /** The pipe, the descriptors open on each end, the operations in flight, the tasks marked for
      termination, all bytes ever accepted from writers and delivered to readers, and how calls ended. */
  datatype Sys = Sys(core: Core, readEnds: nat, writeEnds: nat, flights: map<Tid, Flight>, killed: set<Tid>,
                     accepted: seq<Byte>, delivered: seq<Byte>, returned: seq<Return>)

  datatype Step =
    | DupRead | DupWrite | CloseRead | CloseWrite
    | StartRead(t: Tid, len: nat) | StartWrite(t: Tid, data: seq<Byte>)
    | Resume(t: Tid) | Kill(t: Tid)

  /** What callers respect: an end is used or duplicated through an open descriptor, a task is in one
      operation at a time, and only a task that is not parked runs. */
  predicate Enabled(s: Sys, step: Step)
  {
    match step
    case DupRead => s.readEnds > 0
    case DupWrite => s.writeEnds > 0
    case CloseRead => s.readEnds > 0
    case CloseWrite => s.writeEnds > 0
    case StartRead(t, _) => s.readEnds > 0 && t !in s.flights
    case StartWrite(t, _) => s.writeEnds > 0 && t !in s.flights
    case Resume(t) => t in s.flights && !s.flights[t].parked
    case Kill(t) => true
  }

  function Unparked(f: Flight): Flight
  {
    match f
    case Reading(len, _) => Reading(len, false)
    case Writing(data, put, _) => Writing(data, put, false)
  }

  /** task_wake_all on the signalled channels. */
  function Wake(flights: map<Tid, Flight>, w: Wakes): (r: map<Tid, Flight>)
    ensures r.Keys == flights.Keys
  {
    map t | t in flights ::
      if (flights[t].Reading? && w.data) || (flights[t].Writing? && w.space) then Unparked(flights[t]) else flights[t]
  }

  function AfterRead(s: Sys, t: Tid, len: nat, turn: Turn<seq<Byte>>): Sys
  {
    var others := Wake(s.flights - {t}, turn.wakes);
    match turn.outcome
    case Finished(got) =>
      s.(core := turn.core, flights := others, delivered := s.delivered + got,
        returned := s.returned + [ReadReturn(t, got)])
    case Parked(_) => s.(core := turn.core, flights := others[t := Reading(len, true)])
    case Exited => s.(core := turn.core, flights := others, returned := s.returned + [Died(t)])
  }

  function AfterWrite(s: Sys, t: Tid, data: seq<Byte>, put: nat, turn: Turn<nat>): Sys
    requires |s.core.queue| <= |turn.core.queue|
  {
    var others := Wake(s.flights - {t}, turn.wakes);
    var s' := s.(core := turn.core, accepted := s.accepted + turn.core.queue[|s.core.queue|..]);
    match turn.outcome
    case Finished(n) => s'.(flights := others, returned := s.returned + [WriteReturn(t, n)])
    case Parked(now) => s'.(flights := others[t := Writing(data, now, true)])
    case Exited => s'.(flights := others, returned := s.returned + [Died(t)])
  }

  function Reads(s: Sys, t: Tid, len: nat, killed: bool): Sys
  {
    AfterRead(s, t, len, ReadTurn(s.core, len, killed))
  }

  function Writes(s: Sys, t: Tid, data: seq<Byte>, put: nat, killed: bool): Sys
    requires put <= |data| && |s.core.queue| <= BUF_SIZE
  {
    AfterWrite(s, t, data, put, WriteTurn(s.core, data, put, killed))
  }

  /** An operation begins by taking a reference of its own. */
  function Entered(s: Sys, reading: bool): Sys
  {
    s.(core := if reading then s.core.(readers := s.core.readers + 1) else s.core.(writers := s.core.writers + 1))
  }

  /** A parked task goes on. Woken with a kill pending it gives the reference back
      and exits; otherwise it tests its wait condition again. */
  function ResumeRead(s: Sys, t: Tid, len: nat): Sys
  {
    if t in s.killed then
      var c := CloseR(s.core);
      s.(core := c, flights := Wake(s.flights - {t}, Wakes(false, c.readers == 0)), returned := s.returned + [Died(t)])
    else Reads(s, t, len, false)
  }

  function ResumeWrite(s: Sys, t: Tid, data: seq<Byte>, put: nat): Sys
    requires put <= |data| && |s.core.queue| <= BUF_SIZE
  {
    if t in s.killed then
      var c := CloseW(s.core);
      s.(core := c, flights := Wake(s.flights - {t}, Wakes(c.writers == 0, false)), returned := s.returned + [Died(t)])
    else Writes(s, t, data, put, false)
  }

  ghost function Next(s: Sys, step: Step): Sys
    requires Inv(s) && Enabled(s, step)
  {
    match step
    case DupRead => s.(core := s.core.(readers := s.core.readers + 1), readEnds := s.readEnds + 1)
    case DupWrite => s.(core := s.core.(writers := s.core.writers + 1), writeEnds := s.writeEnds + 1)
    case CloseRead =>
      var c := CloseR(s.core);
      s.(core := c, readEnds := s.readEnds - 1, flights := Wake(s.flights, Wakes(false, c.readers == 0)))
    case CloseWrite =>
      var c := CloseW(s.core);
      s.(core := c, writeEnds := s.writeEnds - 1, flights := Wake(s.flights, Wakes(c.writers == 0, false)))
    case StartRead(t, len) =>
      if len == 0 then s.(returned := s.returned + [ReadReturn(t, [])])
      else Reads(Entered(s, true), t, len, t in s.killed)
    case StartWrite(t, data) =>
      if data == [] then s.(returned := s.returned + [WriteReturn(t, 0)])
      else Writes(Entered(s, false), t, data, 0, t in s.killed)
    case Resume(t) =>
      (match s.flights[t]
       case Reading(len, _) => ResumeRead(s, t, len)
       case Writing(data, put, _) => ResumeWrite(s, t, data, put))
    case Kill(t) =>
      s.(killed := s.killed + {t},
         flights := if t in s.flights then s.flights[t := Unparked(s.flights[t])] else s.flights)
  }

  // ---------------------------------------------------------------- invariant

  function ReadersIn(flights: map<Tid, Flight>): set<Tid>
  {
    set t | t in flights && flights[t].Reading?
  }

  function WritersIn(flights: map<Tid, Flight>): set<Tid>
  {
    set t | t in flights && flights[t].Writing?
  }

  /** Both counts are descriptors plus operations in flight. */
  ghost predicate Counted(s: Sys)
  {
    && s.core.readers == s.readEnds + |ReadersIn(s.flights)|
    && s.core.writers == s.writeEnds + |WritersIn(s.flights)|
  }

  /** The pipe is freed once, when the last reference of either kind goes, and not before. */
  ghost predicate Freed(s: Sys)
  {
    s.core.frees == if s.core.readers == 0 && s.core.writers == 0 then 1 else 0
  }

  /** Nobody is parked without reason: readers only on an empty pipe that someone can still write,
      writers only on a full pipe that someone can still read, and no killed task at all. */
  ghost predicate Justified(s: Sys)
  {
    forall t :: t in s.flights && s.flights[t].parked ==>
      && t !in s.killed
      && (s.flights[t].Reading? ==> |s.core.queue| == 0 && s.core.writers > 0)
      && (s.flights[t].Writing? ==> |s.core.queue| == BUF_SIZE && s.core.readers > 0)
  }

  /** Bytes come out in the order in which they went in. */
  ghost predicate Fifo(s: Sys)
  {
    s.delivered + s.core.queue == s.accepted
  }

  ghost predicate InOp(s: Sys)
  {
    && |s.core.queue| <= BUF_SIZE
    && forall t :: t in s.flights ==>
         match s.flights[t]
         case Reading(len, _) => len > 0
         case Writing(data, put, _) => put < |data|
  }

  ghost predicate Inv(s: Sys)
  {
    Counted(s) && Freed(s) && Justified(s) && Fifo(s) && InOp(s)
  }

  function Start(): Sys
  {
    Sys(Core([], 1, 1, 0), 1, 1, map[], {}, [], [], [])
  }

  // ---------------------------------------------------------------- counting

  lemma WakeKeepsKinds(flights: map<Tid, Flight>, w: Wakes)
    ensures ReadersIn(Wake(flights, w)) == ReadersIn(flights) && WritersIn(Wake(flights, w)) == WritersIn(flights)
  {
  }

  lemma Leave(flights: map<Tid, Flight>, t: Tid)
    ensures ReadersIn(flights - {t}) == ReadersIn(flights) - {t} && WritersIn(flights - {t}) == WritersIn(flights) - {t}
    ensures |ReadersIn(flights - {t})| == |ReadersIn(flights)| - if t in ReadersIn(flights) then 1 else 0
    ensures |WritersIn(flights - {t})| == |WritersIn(flights)| - if t in WritersIn(flights) then 1 else 0
  {
    assert ReadersIn(flights - {t}) == ReadersIn(flights) - {t};
    assert WritersIn(flights - {t}) == WritersIn(flights) - {t};
  }

  lemma EnterReader(flights: map<Tid, Flight>, t: Tid, len: nat)
    requires t !in flights
    ensures |ReadersIn(flights[t := Reading(len, true)])| == |ReadersIn(flights)| + 1
    ensures WritersIn(flights[t := Reading(len, true)]) == WritersIn(flights)
  {
    assert ReadersIn(flights[t := Reading(len, true)]) == ReadersIn(flights) + {t};
  }

  lemma EnterWriter(flights: map<Tid, Flight>, t: Tid, data: seq<Byte>, put: nat)
    requires t !in flights
    ensures |WritersIn(flights[t := Writing(data, put, true)])| == |WritersIn(flights)| + 1
    ensures ReadersIn(flights[t := Writing(data, put, true)]) == ReadersIn(flights)
  {
    assert WritersIn(flights[t := Writing(data, put, true)]) == WritersIn(flights) + {t};
  }

  /** Before an operation of task t runs on, its own reference is counted in `core`. */
  ghost predicate Running(s: Sys, t: Tid, reading: bool)
  {
    && s.core.readers == s.readEnds + |ReadersIn(s.flights - {t})| + (if reading then 1 else 0)
    && s.core.writers == s.writeEnds + |WritersIn(s.flights - {t})| + (if reading then 0 else 1)
    && s.core.frees == 0 && Fifo(s) && InOp(s)
    && Justified(s.(flights := s.flights - {t}))
  }

  lemma ReadKeepsInv(s: Sys, t: Tid, len: nat, killed: bool)
    requires Running(s, t, true) && len > 0 && killed == (t in s.killed)
    ensures Inv(Reads(s, t, len, killed))
  {
    var turn := ReadTurn(s.core, len, killed);
    var rest := s.flights - {t};
    WakeKeepsKinds(rest, turn.wakes);
    if turn.outcome.Parked? {
      EnterReader(Wake(rest, turn.wakes), t, len);
    }
    if turn.outcome.Finished? {
      var n := |turn.outcome.result|;
      assert s.delivered + s.core.queue[..n] + s.core.queue[n..] == s.delivered + s.core.queue;
    }
  }

  lemma WriteKeepsOrder(s: Sys, t: Tid, data: seq<Byte>, put: nat, killed: bool)
    requires Fifo(s) && |s.core.queue| <= BUF_SIZE && put < |data|
    ensures Fifo(Writes(s, t, data, put, killed))
  {
    var s', more := Writes(s, t, data, put, killed), data[put..put + Fits(s.core, |data| - put)];
    WriteAdds(s, t, data, put, killed);
    assert s'.delivered + s'.core.queue == s.delivered + s.core.queue + more;
  }

  /** What is stored goes behind what is there, and counts as accepted. */
  lemma WriteAdds(s: Sys, t: Tid, data: seq<Byte>, put: nat, killed: bool)
    requires |s.core.queue| <= BUF_SIZE && put < |data|
    ensures var s', more := Writes(s, t, data, put, killed), data[put..put + Fits(s.core, |data| - put)];
            s'.delivered == s.delivered && s'.core.queue == s.core.queue + more && s'.accepted == s.accepted + more
  {
    assert (s.core.queue + data[put..put + Fits(s.core, |data| - put)])[|s.core.queue|..] ==
      data[put..put + Fits(s.core, |data| - put)];
  }

  lemma WriteKeepsInv(s: Sys, t: Tid, data: seq<Byte>, put: nat, killed: bool)
    requires Running(s, t, false) && put < |data| && killed == (t in s.killed)
    ensures Inv(Writes(s, t, data, put, killed))
  {
    var turn := WriteTurn(s.core, data, put, killed);
    var rest := s.flights - {t};
    WakeKeepsKinds(rest, turn.wakes);
    if turn.outcome.Parked? {
      EnterWriter(Wake(rest, turn.wakes), t, data, turn.outcome.put);
    }
    WriteKeepsOrder(s, t, data, put, killed);
  }

  lemma StartIsRunning(s: Sys, t: Tid, reading: bool)
    requires Inv(s) && t !in s.flights && (if reading then s.readEnds > 0 else s.writeEnds > 0)
    ensures Running(Entered(s, reading), t, reading)
  {
    assert s.flights - {t} == s.flights;
  }

  lemma ResumedIsRunning(s: Sys, t: Tid)
    requires Inv(s) && t in s.flights
    ensures Running(s, t, s.flights[t].Reading?)
  {
    Leave(s.flights, t);
    assert t in if s.flights[t].Reading? then ReadersIn(s.flights) else WritersIn(s.flights);
  }

  /** A killed task gives its reference back and is gone. */
  lemma ExitKeepsInv(s: Sys, t: Tid, reading: bool)
    requires Running(s, t, reading)
    ensures reading ==>
      var c := CloseR(s.core);
      Inv(s.(core := c, flights := Wake(s.flights - {t}, Wakes(false, c.readers == 0)),
        returned := s.returned + [Died(t)]))
    ensures !reading ==>
      var c := CloseW(s.core);
      Inv(s.(core := c, flights := Wake(s.flights - {t}, Wakes(c.writers == 0, false)),
        returned := s.returned + [Died(t)]))
  {
    WakeKeepsKinds(s.flights - {t}, Wakes(false, CloseR(s.core).readers == 0));
    WakeKeepsKinds(s.flights - {t}, Wakes(CloseW(s.core).writers == 0, false));
  }

  lemma CloseKeepsInv(s: Sys, step: Step)
    requires Inv(s) && (step == CloseRead || step == CloseWrite) && Enabled(s, step)
    ensures Inv(Next(s, step))
  {
    WakeKeepsKinds(s.flights, Wakes(false, CloseR(s.core).readers == 0));
    WakeKeepsKinds(s.flights, Wakes(CloseW(s.core).writers == 0, false));
  }

  lemma KillKeepsInv(s: Sys, t: Tid)
    requires Inv(s)
    ensures Inv(Next(s, Kill(t)))
  {
    if t in s.flights {
      var fs := s.flights[t := Unparked(s.flights[t])];
      assert ReadersIn(fs) == ReadersIn(s.flights) && WritersIn(fs) == WritersIn(s.flights);
    }
  }

  lemma ResumeKeepsInv(s: Sys, t: Tid)
    requires Inv(s) && Enabled(s, Resume(t))
    ensures Inv(Next(s, Resume(t)))
  {
    ResumedIsRunning(s, t);
    if t in s.killed {
      ExitKeepsInv(s, t, s.flights[t].Reading?);
    } else {
      match s.flights[t]
      case Reading(len, _) => ReadKeepsInv(s, t, len, false);
      case Writing(data, put, _) => WriteKeepsInv(s, t, data, put, false);
    }
  }

  lemma StartReadKeepsInv(s: Sys, t: Tid, len: nat)
    requires Inv(s) && Enabled(s, StartRead(t, len))
    ensures Inv(Next(s, StartRead(t, len)))
  {
    StartIsRunning(s, t, true);
    if len > 0 {
      ReadKeepsInv(Entered(s, true), t, len, t in s.killed);
    }
  }

  lemma StartWriteKeepsInv(s: Sys, t: Tid, data: seq<Byte>)
    requires Inv(s) && Enabled(s, StartWrite(t, data))
    ensures Inv(Next(s, StartWrite(t, data)))
  {
    StartIsRunning(s, t, false);
    if data != [] {
      WriteKeepsInv(Entered(s, false), t, data, 0, t in s.killed);
    }
  }

  lemma DupKeepsInv(s: Sys, step: Step)
    requires Inv(s) && (step == DupRead || step == DupWrite) && Enabled(s, step)
    ensures Inv(Next(s, step))
  {
  }

  lemma StepKeepsInv(s: Sys, step: Step)
    requires Inv(s) && Enabled(s, step)
    ensures Inv(Next(s, step))
  {
    match step
    case DupRead => DupKeepsInv(s, step);
    case DupWrite => DupKeepsInv(s, step);
    case CloseRead => CloseKeepsInv(s, step);
    case CloseWrite => CloseKeepsInv(s, step);
    case StartRead(t, len) => StartReadKeepsInv(s, t, len);
    case StartWrite(t, data) => StartWriteKeepsInv(s, t, data);
    case Resume(t) => ResumeKeepsInv(s, t);
    case Kill(t) => KillKeepsInv(s, t);
  }

  // ---------------------------------------------------------------- runs

  ghost predicate Follows(s: Sys, step: Step, s': Sys)
  {
    Enabled(s, step) && (Inv(s) ==> s' == Next(s, step))
  }

  ghost predicate IsRun(steps: seq<Step>, states: seq<Sys>)
  {
    && |states| == |steps| + 1 && states[0] == Start()
    && forall i :: 0 <= i < |steps| ==> Follows(states[i], steps[i], states[i + 1])
  }

  lemma {:induction false} RunKeepsInv(steps: seq<Step>, states: seq<Sys>, i: nat)
    requires IsRun(steps, states) && i <= |steps|
    ensures Inv(states[i])
  {
    if i == 0 {
      assert ReadersIn(map[]) == {} && WritersIn(map[]) == {};
    } else {
      RunKeepsInv(steps, states, i - 1);
      assert Follows(states[i - 1], steps[i - 1], states[i]);
      StepKeepsInv(states[i - 1], steps[i - 1]);
    }
  }

  /** In every state of every run: bytes come out in order; nobody is parked without reason; the
      pipe has been freed exactly once if all references are gone and not at all otherwise, and
      then no operation is in flight. */
  lemma PipeIsSafe(steps: seq<Step>, states: seq<Sys>, i: nat)
    requires IsRun(steps, states) && i <= |steps|
    ensures var s := states[i];
            && s.delivered + s.core.queue == s.accepted
            && Justified(s)
            && (s.core.frees == 1 <==> s.readEnds == 0 && s.writeEnds == 0 && s.flights == map[])
            && s.core.frees <= 1
  {
    RunKeepsInv(steps, states, i);
    NoFlights(states[i].flights);
  }

  lemma NoFlights(flights: map<Tid, Flight>)
    ensures |ReadersIn(flights)| == 0 && |WritersIn(flights)| == 0 <==> flights == map[]
  {
    forall t | t in flights
      ensures |ReadersIn(flights)| > 0 || |WritersIn(flights)| > 0
    {
      assert t in ReadersIn(flights) || t in WritersIn(flights);
    }
    if flights == map[] {
      assert ReadersIn(flights) == {} && WritersIn(flights) == {};
    }
  }

  /** A step on which the pipe is freed is the last that can touch it. */
  lemma NothingAfterFree(s: Sys, step: Step)
    requires Inv(s) && s.core.frees == 1 && Enabled(s, step)
    ensures step.Kill?
  {
    NoFlights(s.flights);
  }

  /** A parked task can still be woken by someone else: there is an open descriptor on the other end,
      or an operation at the other end that is not parked. */
  lemma ParkedCanBeWoken(s: Sys, t: Tid)
    requires Inv(s) && t in s.flights && s.flights[t].parked
    ensures s.flights[t].Reading? ==>
            s.writeEnds > 0 || exists u :: u in s.flights && s.flights[u].Writing? && !s.flights[u].parked
    ensures s.flights[t].Writing? ==>
            s.readEnds > 0 || exists u :: u in s.flights && s.flights[u].Reading? && !s.flights[u].parked
  {
    var fs := s.flights;
    if fs[t].Reading? && s.writeEnds == 0 {
      var u :| u in WritersIn(fs);
      assert u in fs && fs[u].Writing? && !fs[u].parked;
    }
    if fs[t].Writing? && s.readEnds == 0 {
      var u :| u in ReadersIn(fs);
      assert u in fs && fs[u].Reading? && !fs[u].parked;
    }
  }
}
