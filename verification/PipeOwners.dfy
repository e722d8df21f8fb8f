/** One pipe and everybody's descriptors (syscall.c, process.c and pipe.c together): every descriptor or
    stream that comes to hold an end of the pipe takes a reference, every one that is emptied gives it
    back, and the tasks read and write in between. */
module PipeOwners {
  import D = Descriptors
  import P = PipeRuns

  datatype World = World(procs: seq<D.Proc>, refs: map<D.Res, nat>, sys: P.Sys)

  /** A cell takes a reference, a cell gives it back, a task works on the pipe. */
  datatype Move = Hold(p: nat, i: nat, res: D.Res, offset: nat) | Drop(p: nat, i: nat) | Act(step: P.Step)

  /** An end of the pipe is taken only by copying a holder; a task only reads, writes or is killed. */
  ghost predicate Enabled(w: World, pipe: nat, move: Move)
  {
    match move
    case Hold(p, i, res, _) =>
      && p < |w.procs| && i < |w.procs[p].cells| && w.procs[p].cells[i] == D.Empty
      && (res == D.ReadEnd(pipe) || res == D.WriteEnd(pipe) ==> D.Refs(w.refs, res) > 0)
    case Drop(p, i) => p < |w.procs| && i < |w.procs[p].cells| && w.procs[p].cells[i].Holds?
    case Act(step) => (step.StartRead? || step.StartWrite? || step.Resume? || step.Kill?) && P.Enabled(w.sys, step)
  }

  ghost predicate Inv(w: World, pipe: nat)
  {
    && D.Conserved(w.procs, w.refs) && P.Inv(w.sys)
    && w.sys.readEnds == D.Refs(w.refs, D.ReadEnd(pipe)) && w.sys.writeEnds == D.Refs(w.refs, D.WriteEnd(pipe))
  }

  /** What the pipe sees of a reference taken. */
  ghost function Took(sys: P.Sys, pipe: nat, res: D.Res): P.Sys
    requires P.Inv(sys) && (res == D.ReadEnd(pipe) ==> sys.readEnds > 0) &&
             (res == D.WriteEnd(pipe) ==> sys.writeEnds > 0)
  {
    if res == D.ReadEnd(pipe) then P.Next(sys, P.DupRead) else if res == D.WriteEnd(pipe) then P.Next(sys, P.DupWrite)
      else sys
  }

  /** What the pipe sees of a reference given back. */
  ghost function Gave(sys: P.Sys, pipe: nat, res: D.Res): P.Sys
    requires P.Inv(sys) && (res == D.ReadEnd(pipe) ==> sys.readEnds > 0) &&
             (res == D.WriteEnd(pipe) ==> sys.writeEnds > 0)
  {
    if res == D.ReadEnd(pipe) then P.Next(sys, P.CloseRead)
      else if res == D.WriteEnd(pipe) then P.Next(sys, P.CloseWrite) else sys
  }

  ghost predicate Follows(w: World, pipe: nat, move: Move, w': World)
  {
    Enabled(w, pipe, move) && (Inv(w, pipe) ==>
      match move
      case Hold(p, i, res, offset) =>
        w' == World(D.Put(w.procs, p, i, D.Holds(res, offset)), w.refs[res := D.Refs(w.refs, res) + 1],
          Took(w.sys, pipe, res))
      case Drop(p, i) =>
        var res := w.procs[p].cells[i].res;
        D.HolderIsCounted(w.procs, w.refs, p, i);
        w' == World(D.Put(w.procs, p, i, D.Empty), w.refs[res := D.Refs(w.refs, res) - 1], Gave(w.sys, pipe, res))
      case Act(step) => w' == w.(sys := P.Next(w.sys, step)))
  }

  lemma TookKeepsInv(sys: P.Sys, pipe: nat, res: D.Res)
    requires P.Inv(sys) && (res == D.ReadEnd(pipe) ==> sys.readEnds > 0) &&
             (res == D.WriteEnd(pipe) ==> sys.writeEnds > 0)
    ensures P.Inv(Took(sys, pipe, res)) && P.Inv(Gave(sys, pipe, res))
  {
    if res == D.ReadEnd(pipe) {
      P.StepKeepsInv(sys, P.DupRead);
      P.StepKeepsInv(sys, P.CloseRead);
    } else if res == D.WriteEnd(pipe) {
      P.StepKeepsInv(sys, P.DupWrite);
      P.StepKeepsInv(sys, P.CloseWrite);
    }
  }

  lemma HoldKeepsInv(w: World, pipe: nat, p: nat, i: nat, res: D.Res, offset: nat, w': World)
    requires Inv(w, pipe) && Follows(w, pipe, Hold(p, i, res, offset), w')
    ensures Inv(w', pipe)
  {
    D.AcquireConserves(w.procs, w.refs, p, i, res, offset);
    TookKeepsInv(w.sys, pipe, res);
  }

  lemma DropKeepsInv(w: World, pipe: nat, p: nat, i: nat, w': World)
    requires Inv(w, pipe) && Follows(w, pipe, Drop(p, i), w')
    ensures Inv(w', pipe)
  {
    var res := w.procs[p].cells[i].res;
    D.ReleaseConserves(w.procs, w.refs, p, i);
    TookKeepsInv(w.sys, pipe, res);
  }

  /** Work on the pipe moves no descriptor. */
  lemma ActKeepsEnds(sys: P.Sys, step: P.Step)
    requires P.Inv(sys) && P.Enabled(sys, step) && (step.StartRead? || step.StartWrite? || step.Resume? || step.Kill?)
    ensures P.Next(sys, step).readEnds == sys.readEnds && P.Next(sys, step).writeEnds == sys.writeEnds
  {
  }

  lemma MoveKeepsInv(w: World, pipe: nat, move: Move, w': World)
    requires Inv(w, pipe) && Follows(w, pipe, move, w')
    ensures Inv(w', pipe)
  {
    match move
    case Hold(p, i, res, offset) => HoldKeepsInv(w, pipe, p, i, res, offset, w');
    case Drop(p, i) => DropKeepsInv(w, pipe, p, i, w');
    case Act(step) =>
      P.StepKeepsInv(w.sys, step);
      ActKeepsEnds(w.sys, step);
  }

  /** sys_pipe leaves its two descriptors as the only owners. */
  lemma NewPipeIsOwned(procs: seq<D.Proc>, refs: map<D.Res, nat>, p: nat, k: nat, m: nat, pipe: nat)
    requires D.Conserved(procs, refs) && D.Refs(refs, D.ReadEnd(pipe)) == 0 && D.Refs(refs, D.WriteEnd(pipe)) == 0
    requires p < |procs| && k < m < |procs[p].cells| && procs[p].cells[k] == D.Empty && procs[p].cells[m] == D.Empty
    ensures Inv(World(D.Put(D.Put(procs, p, k, D.Holds(D.ReadEnd(pipe), 0)), p, m, D.Holds(D.WriteEnd(pipe), 0)),
                      refs[D.ReadEnd(pipe) := 1][D.WriteEnd(pipe) := 1], P.Start()), pipe)
  {
    D.PipeConserves(procs, refs, p, k, m, pipe);
    P.RunKeepsInv([], [P.Start()], 0);
  }

  ghost predicate IsRun(pipe: nat, moves: seq<Move>, worlds: seq<World>)
  {
    && |worlds| == |moves| + 1 && Inv(worlds[0], pipe)
    && forall k :: 0 <= k < |moves| ==> Follows(worlds[k], pipe, moves[k], worlds[k + 1])
  }

  lemma {:induction false} RunKeepsInv(pipe: nat, moves: seq<Move>, worlds: seq<World>, k: nat)
    requires IsRun(pipe, moves, worlds) && k <= |moves|
    ensures Inv(worlds[k], pipe)
  {
    if k > 0 {
      RunKeepsInv(pipe, moves, worlds, k - 1);
      MoveKeepsInv(worlds[k - 1], pipe, moves[k - 1], worlds[k]);
    }
  }

  /** In every state of every run the pipe is freed exactly if no descriptor and no stream of any
      process holds either end and no task is inside a read or a write. */
  lemma FreedWithLastOwner(pipe: nat, moves: seq<Move>, worlds: seq<World>, k: nat)
    requires IsRun(pipe, moves, worlds) && k <= |moves|
    ensures var w := worlds[k];
            w.sys.core.frees == 1 <==>
              D.TotalHeld(w.procs, D.ReadEnd(pipe)) == 0 && D.TotalHeld(w.procs, D.WriteEnd(pipe)) == 0 &&
                w.sys.flights == map[]
  {
    RunKeepsInv(pipe, moves, worlds, k);
    var w := worlds[k];
    P.NoFlights(w.sys.flights);
    assert D.Refs(w.refs, D.ReadEnd(pipe)) == D.TotalHeld(w.procs, D.ReadEnd(pipe));
    assert D.Refs(w.refs, D.WriteEnd(pipe)) == D.TotalHeld(w.procs, D.WriteEnd(pipe));
  }
}
