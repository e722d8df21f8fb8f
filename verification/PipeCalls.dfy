/** What each call on a pipe contributes and returns, in every run: a write puts a prefix of its own data
    into the pipe, in order and over however many blocks, and returns the length of that prefix; a read
    takes the oldest bytes, as many as it asked for and were there. */
module PipeCalls {
  import opened Common
  import opened Pipe
  import opened PipeRuns

  /** Task t itself runs in this step. */
  predicate Acts(step: Step, t: Tid)
  {
    match step
    case StartRead(u, _) => u == t
    case StartWrite(u, _) => u == t
    case Resume(u) => u == t
    case _ => false
  }

  /** What a step added to a log. */
  function Added(log: seq<Byte>, log': seq<Byte>): seq<Byte>
  {
    if |log| <= |log'| then log'[|log|..] else []
  }

  /** All that the steps i..j of task t added to the bytes accepted. */
  ghost function Sent(steps: seq<Step>, states: seq<Sys>, t: Tid, i: nat, j: nat): seq<Byte>
    requires i <= j <= |steps| < |states|
  {
    if i == j then []
    else
      Sent(steps, states, t, i, j - 1) +
      if Acts(steps[j - 1], t) then Added(states[j - 1].accepted, states[j].accepted) else []
  }

  // ---------------------------------------------------------------- one step

  /** A write that runs on: `put'` bytes of its data are in afterwards. */
  ghost predicate WentOn(s: Sys, s': Sys, t: Tid, data: seq<Byte>, put: nat, put': nat)
  {
    && put <= put' <= |data| && s'.accepted == s.accepted + data[put..put'] && s'.delivered == s.delivered
    && (t in s'.flights ==> s'.flights[t] == Writing(data, put', true) && s'.returned == s.returned)
    && (t !in s'.flights ==>
          || (s'.returned == s.returned + [WriteReturn(t, put')] && (put' == |data| || s.core.readers == 0))
          || (s'.returned == s.returned + [Died(t)] && t in s.killed))
  }

  lemma WritesGoOn(s: Sys, t: Tid, data: seq<Byte>, put: nat, killed: bool) returns (put': nat)
    requires put < |data| && |s.core.queue| <= BUF_SIZE && (killed ==> t in s.killed)
    ensures WentOn(s, Writes(s, t, data, put, killed), t, data, put, put')
  {
    put' := put + Fits(s.core, |data| - put);
    var turn := WriteTurn(s.core, data, put, killed);
    assert turn.core.queue[|s.core.queue|..] == data[put..put'];
  }

  /** Task t is in a write of that data and has stored `put` bytes of it. */
  predicate WritesOn(s: Sys, t: Tid, data: seq<Byte>, put: nat)
  {
    t in s.flights && s.flights[t].Writing? && s.flights[t].data == data && s.flights[t].put == put
  }

  predicate ReadsOn(s: Sys, t: Tid, len: nat)
  {
    t in s.flights && s.flights[t].Reading? && s.flights[t].len == len
  }

  /** A step of a write by t that has stored `put` bytes so far. */
  lemma WriteStep(s: Sys, step: Step, t: Tid, data: seq<Byte>, put: nat) returns (put': nat)
    requires Inv(s) && Enabled(s, step) && data != []
    requires if t in s.flights then step == Resume(t) && WritesOn(s, t, data, put)
             else step == StartWrite(t, data) && put == 0
    ensures WentOn(s, Next(s, step), t, data, put, put')
  {
    if step.Resume? && t in s.killed {
      put' := put;
    } else if step.Resume? {
      put' := WritesGoOn(s, t, data, put, false);
    } else {
      put' := WritesGoOn(Entered(s, false), t, data, 0, t in s.killed);
    }
  }

  /** A read that runs on: it waits, or takes the oldest bytes, or dies. */
  ghost predicate ReadOn(s: Sys, s': Sys, t: Tid, len: nat)
  {
    && s'.accepted == s.accepted
    && (t in s'.flights ==>
          && s'.flights[t] == Reading(len, true) && s'.delivered == s.delivered && s'.returned == s.returned
          && s.core.queue == [] && s.core.writers > 0)
    && (t !in s'.flights ==>
          var n := if len < |s.core.queue| then len else |s.core.queue|;
          || (&& s'.returned == s.returned + [ReadReturn(t, s.core.queue[..n])]
              && s'.delivered == s.delivered + s.core.queue[..n] && s'.core.queue == s.core.queue[n..]
              && (n == 0 ==> s.core.writers == 0))
          || (s'.returned == s.returned + [Died(t)] && t in s.killed && s'.delivered == s.delivered))
  }

  lemma ReadStep(s: Sys, step: Step, t: Tid, len: nat)
    requires Inv(s) && Enabled(s, step) && len > 0
    requires if t in s.flights then step == Resume(t) && ReadsOn(s, t, len) else step == StartRead(t, len)
    ensures ReadOn(s, Next(s, step), t, len)
  {
  }

  /** A step of somebody else leaves the call of t as it is, but that it may be woken. */
  lemma OtherStep(s: Sys, step: Step, t: Tid)
    requires Inv(s) && Enabled(s, step) && !Acts(step, t) && t in s.flights
    ensures var s' := Next(s, step);
            t in s'.flights && (s'.flights[t] == s.flights[t] || s'.flights[t] == Unparked(s.flights[t]))
  {
    match step
    case StartRead(u, len) => TurnsSpare(Entered(s, true), u, len, [], 0, u in s.killed, t);
    case StartWrite(u, data) => TurnsSpare(Entered(s, false), u, 0, data, 0, u in s.killed, t);
    case Resume(u) =>
      if s.flights[u].Reading? {
        TurnsSpare(s, u, s.flights[u].len, [], 0, false, t);
      } else {
        TurnsSpare(s, u, 0, s.flights[u].data, s.flights[u].put, false, t);
      }
    case _ =>
  }

  /** So does a turn of somebody else's loop. */
  lemma TurnsSpare(s: Sys, u: Tid, len: nat, data: seq<Byte>, put: nat, killed: bool, t: Tid)
    requires |s.core.queue| <= BUF_SIZE && put <= |data| && t in s.flights && u != t
    ensures var s' := Reads(s, u, len, killed);
            t in s'.flights && (s'.flights[t] == s.flights[t] || s'.flights[t] == Unparked(s.flights[t]))
    ensures var s' := Writes(s, u, data, put, killed);
            t in s'.flights && (s'.flights[t] == s.flights[t] || s'.flights[t] == Unparked(s.flights[t]))
  {
  }

  // ---------------------------------------------------------------- whole calls

  /** Task t is in one call all the time from state i + 1 to state j. */
  ghost predicate InCall(states: seq<Sys>, t: Tid, i: nat, j: nat)
    requires i <= j < |states|
  {
    forall k :: i < k <= j ==> t in states[k].flights
  }

  /** While a write goes on, what its steps have added is the part of its data that it has stored. */
  lemma {:induction false} WriteGoesOn(steps: seq<Step>, states: seq<Sys>, t: Tid, data: seq<Byte>, i: nat, j: nat)
    returns (put: nat)
    requires IsRun(steps, states) && i < j <= |steps| && steps[i] == StartWrite(t, data) && data != []
    requires InCall(states, t, i, j)
    ensures put <= |data| && WritesOn(states[j], t, data, put) && Sent(steps, states, t, i, j) == data[..put]
    decreases j
  {
    var k := j - 1;
    RunKeepsInv(steps, states, k);
    assert Follows(states[k], steps[k], states[j]);
    if k == i {
      put := WriteStep(states[k], steps[k], t, data, 0);
      assert Sent(steps, states, t, i, k) == [];
    } else {
      var was := WriteGoesOn(steps, states, t, data, i, k);
      if Acts(steps[k], t) {
        put := WriteStep(states[k], steps[k], t, data, was);
        assert data[..was] + data[was..put] == data[..put];
      } else {
        put := was;
        OtherStep(states[k], steps[k], t);
      }
    }
  }

  /** The step in which t leaves its call is its own. */
  lemma LeavesByItself(steps: seq<Step>, states: seq<Sys>, t: Tid, j: nat)
    requires IsRun(steps, states) && j < |steps| && t in states[j].flights && t !in states[j + 1].flights
    ensures steps[j] == Resume(t)
  {
    RunKeepsInv(steps, states, j);
    assert Follows(states[j], steps[j], states[j + 1]);
    if !Acts(steps[j], t) {
      OtherStep(states[j], steps[j], t);
    }
  }

  /** A write that ends has put exactly the first n bytes of its data into the pipe and returns n, which is
      all of them unless no reader was left; or its task was killed, with a prefix of the data stored. */
  lemma WriteReturns(steps: seq<Step>, states: seq<Sys>, t: Tid, data: seq<Byte>, i: nat, j: nat)
    requires IsRun(steps, states) && i <= j < |steps| && steps[i] == StartWrite(t, data) && data != []
    requires InCall(states, t, i, j) && t !in states[j + 1].flights
    ensures var sent := Sent(steps, states, t, i, j + 1);
            var s, s' := states[j], states[j + 1];
            && |sent| <= |data| && sent == data[..|sent|]
            && (|| (s'.returned == s.returned + [WriteReturn(t, |sent|)] && (sent == data || s.core.readers == 0))
                || (s'.returned == s.returned + [Died(t)] && t in s.killed))
  {
    RunKeepsInv(steps, states, j);
    assert Follows(states[j], steps[j], states[j + 1]);
    var was := 0;
    if i < j {
      was := WriteGoesOn(steps, states, t, data, i, j);
      LeavesByItself(steps, states, t, j);
    } else {
      assert Sent(steps, states, t, i, j) == [];
    }
    var put := WriteStep(states[j], steps[j], t, data, was);
    assert data[..was] + data[was..put] == data[..put];
  }

  lemma {:induction false} ReadGoesOn(steps: seq<Step>, states: seq<Sys>, t: Tid, len: nat, i: nat, j: nat)
    requires IsRun(steps, states) && i < j <= |steps| && steps[i] == StartRead(t, len) && len > 0
    requires InCall(states, t, i, j)
    ensures ReadsOn(states[j], t, len)
    decreases j
  {
    var k := j - 1;
    RunKeepsInv(steps, states, k);
    assert Follows(states[k], steps[k], states[j]);
    if k == i {
      ReadStep(states[k], steps[k], t, len);
    } else {
      ReadGoesOn(steps, states, t, len, i, k);
      if Acts(steps[k], t) {
        ReadStep(states[k], steps[k], t, len);
      } else {
        OtherStep(states[k], steps[k], t);
      }
    }
  }

  /** A read that ends returns the oldest bytes that were in the pipe, as many as it asked for or all there
      were, and none only when no writer was left; or its task was killed and took nothing. */
  lemma ReadReturns(steps: seq<Step>, states: seq<Sys>, t: Tid, len: nat, i: nat, j: nat)
    requires IsRun(steps, states) && i <= j < |steps| && steps[i] == StartRead(t, len) && len > 0
    requires InCall(states, t, i, j) && t !in states[j + 1].flights
    ensures var s, s' := states[j], states[j + 1];
            var n := if len < |s.core.queue| then len else |s.core.queue|;
            || (&& s'.returned == s.returned + [ReadReturn(t, s.core.queue[..n])]
                && s'.delivered == s.delivered + s.core.queue[..n] && s'.core.queue == s.core.queue[n..]
                && (n == 0 ==> s.core.writers == 0))
            || (s'.returned == s.returned + [Died(t)] && t in s.killed && s'.delivered == s.delivered)
  {
    RunKeepsInv(steps, states, j);
    assert Follows(states[j], steps[j], states[j + 1]);
    if i < j {
      ReadGoesOn(steps, states, t, len, i, j);
      LeavesByItself(steps, states, t, j);
    }
    ReadStep(states[j], steps[j], t, len);
  }

  /** Nothing but a write adds bytes, and nothing but a read takes any. */
  lemma OnlyCallsMoveBytes(s: Sys, step: Step)
    requires Inv(s) && Enabled(s, step)
    ensures !step.StartWrite? && !(step.Resume? && s.flights[step.t].Writing?) ==> Next(s, step).accepted == s.accepted
    ensures !step.StartRead? && !(step.Resume? && s.flights[step.t].Reading?) ==> Next(s, step).delivered == s.delivered
  {
  }
}
