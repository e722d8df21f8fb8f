/** What a descriptor stands for, and what the calls on descriptors mean by it (syscall.c:137-215,
    391-530, process.c:486-512): each changes the one descriptor it names and no other. */
module DescriptorLaws {
  import opened Descriptors

  /** What the process reads or writes through a descriptor: standard output and input are the
      pipe if there is one, and otherwise the file or, if there is none, the terminal. */
  function Designated(cells: seq<Cell>, fd: int): Cell
    requires |cells| == 12
  {
    if fd == 1 then if cells[8] != Empty then cells[8] else cells[10]
    else if fd == 0 then if cells[9] != Empty then cells[9] else cells[11]
    else if 3 <= fd < 11 then cells[fd - 3]
    else Empty
  }

  /** The process has come to use `c` as this descriptor, and nothing else is different. */
  ghost predicate Assigned(procs: seq<Proc>, p: nat, fd: int, c: Cell, procs': seq<Proc>)
    requires Sized(procs) && p < |procs|
  {
    && |procs'| == |procs| && (forall q :: 0 <= q < |procs| && q != p ==> procs'[q] == procs[q])
    && |procs'[p].cells| == 12 && procs'[p].phase == procs[p].phase && Designated(procs'[p].cells, fd) == c
    && forall other: int :: other != fd ==> Designated(procs'[p].cells, other) == Designated(procs[p].cells, other)
  }

  /** open, dup, close and pipe put into a descriptor of the table what they are to. */
  lemma PutAssigns(procs: seq<Proc>, p: nat, i: nat, c: Cell)
    requires Sized(procs) && p < |procs| && i < 8
    ensures Assigned(procs, p, 3 + i, c, Put(procs, p, i, c))
  {
  }

  /** The descriptor that open and dup return, and the first of a pipe: the lowest that stands for
      nothing. There is none exactly if all eight are in use. */
  lemma LowestDescriptor(cells: seq<Cell>)
    requires |cells| == 12
    ensures var k := LowestFree(cells, 0);
            if k < 8 then
              Designated(cells, 3 + k) == Empty && forall fd :: 3 <= fd < 3 + k ==> Designated(cells, fd) != Empty
            else k == 8 && forall fd :: 3 <= fd < 11 ==> Designated(cells, fd) != Empty
  {
  }

  /** pipe needs two. */
  lemma TwoDescriptors(cells: seq<Cell>)
    requires |cells| == 12
    ensures TwoFree(cells) <==>
            exists a, b :: 3 <= a < b < 11 && Designated(cells, a) == Empty && Designated(cells, b) == Empty
  {
    var k := LowestFree(cells, 0);
    if k < 8 {
      var m := LowestFree(cells, k + 1);
      if m < 8 {
        assert Designated(cells, 3 + k) == Empty && Designated(cells, 3 + m) == Empty;
      }
    }
  }

  /** dup2 is accepted if the old descriptor stands for something and the new one can stand for it;
      then both stand for it, and the others for what they did. */
  lemma Dup2Assigns(procs: seq<Proc>, p: nat, oldfd: int, newfd: int)
    requires Sized(procs) && p < |procs|
    ensures var cells := procs[p].cells;
            var c := if oldfd < 3 then Empty else Designated(cells, oldfd);
            var r := Dup2Cells(cells, oldfd, newfd);
            && (r.Some? <==> c != Empty && (|| 3 <= newfd < 11 || (newfd == 1 && !c.res.ReadEnd?)
                                            || (newfd == 0 && !c.res.WriteEnd?)))
            && (r.Some? ==> Assigned(procs, p, newfd, c, procs[p := procs[p].(cells := r.value)]))
  {
  }

  /** process_redirect: the streams stand for the files, if they are not pipes, and no descriptor of
      the table changes. */
  lemma RedirectAssigns(procs: seq<Proc>, p: nat, outNode: nat, outOffset: nat, inNode: nat)
    requires Sized(procs) && p < |procs|
    ensures var cells, procs' := procs[p].cells, Redirected(procs, p, outNode, outOffset, inNode);
            && |procs'| == |procs| && (forall q :: 0 <= q < |procs| && q != p ==> procs'[q] == procs[q])
            && |procs'[p].cells| == 12 && procs'[p].phase == procs[p].phase
            && Designated(procs'[p].cells, 1) ==
                 (if cells[8] != Empty then cells[8] else if outNode == 0 then Empty
                  else Holds(Node(outNode), outOffset))
            && Designated(procs'[p].cells, 0) ==
                 (if cells[9] != Empty then cells[9] else if inNode == 0 then Empty else Holds(Node(inNode), 0))
            && forall fd :: fd > 1 ==> Designated(procs'[p].cells, fd) == Designated(cells, fd)
  {
  }
}
