/** Singly linked lists in memory, as maps from a node to its successor. */
module Rings {
  import opened Common

  /** What follows the i-th element on the circle. */
  function Succ(list: seq<nat>, i: nat): nat
    requires i < |list|
  {
    if i + 1 < |list| then list[i + 1] else list[0]
  }

  /** What precedes the i-th element on the circle. */
  function Pred(list: seq<nat>, i: nat): nat
    requires i < |list|
  {
    if i > 0 then list[i - 1] else list[|list| - 1]
  }

  /** Following `next` goes once around the list. */
  ghost predicate Linked(next: map<nat, nat>, list: seq<nat>)
  {
    && |list| > 0
    && (forall i :: 0 <= i < |list| ==> list[i] in next)
    && (forall i :: 0 <= i < |list| - 1 ==> next[list[i]] == list[i + 1])
    && next[list[|list| - 1]] == list[0]
  }

  /** `b` behind the k-th element. */
  function Inserted(list: seq<nat>, k: nat, b: nat): (r: seq<nat>)
    requires k < |list|
    ensures |r| == |list| + 1
    ensures forall i :: 0 <= i < |r| ==> r[i] == if i <= k then list[i] else if i == k + 1 then b else list[i - 1]
  {
    list[..k + 1] + [b] + list[k + 1..]
  }

  lemma InsertedMembers(list: seq<nat>, k: nat, b: nat)
    requires k < |list|
    ensures forall x :: x in Inserted(list, k, b) <==> x in list || x == b
    ensures Distinct(list) && b !in list ==> Distinct(Inserted(list, k, b))
  {
    assert list == list[..k + 1] + list[k + 1..];
  }

  function Without(list: seq<nat>, k: nat): (r: seq<nat>)
    requires k < |list|
    ensures |r| == |list| - 1
    ensures forall i :: 0 <= i < |r| ==> r[i] == if i < k then list[i] else list[i + 1]
  {
    list[..k] + list[k + 1..]
  }

  lemma WithoutMembers(list: seq<nat>, k: nat)
    requires k < |list| && Distinct(list)
    ensures Distinct(Without(list, k))
    ensures forall x :: x in Without(list, k) <==> x in list && x != list[k]
  {
    assert list == list[..k] + [list[k]] + list[k + 1..];
    assert list[k] !in list[..k] && list[k] !in list[k + 1..];
  }

  lemma InsertLinks(next: map<nat, nat>, list: seq<nat>, k: nat, b: nat)
    requires Linked(next, list) && k < |list| && b !in list && Distinct(list)
    ensures Linked(next[b := Succ(list, k)][list[k] := b], Inserted(list, k, b))
  {
    var next', list' := next[b := Succ(list, k)][list[k] := b], Inserted(list, k, b);
    forall i | 0 <= i < |list'| - 1
      ensures next'[list'[i]] == list'[i + 1]
    {
      if i < k {
        assert next[list[i]] == list[i + 1];
      } else if i > k + 1 {
        assert next[list[i - 1]] == list[i];
      }
    }
  }

  lemma RemoveLinks(next: map<nat, nat>, list: seq<nat>, k: nat)
    requires Linked(next, list) && Distinct(list) && k < |list| && |list| > 1
    ensures Linked(next[Pred(list, k) := next[list[k]]], Without(list, k))
  {
    var next', list' := next[Pred(list, k) := next[list[k]]], Without(list, k);
    forall i | 0 <= i < |list'| - 1
      ensures next'[list'[i]] == list'[i + 1]
    {
      if i < k - 1 {
        assert next[list[i]] == list[i + 1];
      } else if i >= k {
        assert next[list[i + 1]] == list[i + 2];
      } else {
        assert next[list[k]] == list[k + 1];
      }
    }
    if k == 0 {
      assert next[list[0]] == list[1];
    }
  }

  lemma RingFrame(next: map<nat, nat>, list: seq<nat>, b: nat, x: nat)
    requires Linked(next, list) && b !in list
    ensures Linked(next[b := x], list)
  {
  }

  // ---------------------------------------------------------------- null-terminated lists

  /** The i-th element, or 0 past the end. */
  function At(list: seq<nat>, i: nat): nat
  {
    if i < |list| then list[i] else 0
  }

  /** Following `next` from `head` visits the list and then meets 0. */
  ghost predicate Chained(next: map<nat, nat>, head: nat, list: seq<nat>)
  {
    && head == At(list, 0)
    && (forall i :: 0 <= i < |list| ==> list[i] in next)
    && (forall i {:trigger next[list[i]]} :: 0 <= i < |list| ==> next[list[i]] == At(list, i + 1))
  }

  /** Unlinking the k-th element, through `head` or through the element before it. */
  lemma ChainRemove(next: map<nat, nat>, head: nat, list: seq<nat>, k: nat)
    requires Chained(next, head, list) && Distinct(list) && k < |list|
    ensures k == 0 ==> Chained(next, next[list[0]], Without(list, 0))
    ensures k > 0 ==> Chained(next[list[k - 1] := next[list[k]]], head, Without(list, k))
  {
    var list' := Without(list, k);
    var next' := if k == 0 then next else next[list[k - 1] := next[list[k]]];
    forall i | 0 <= i < |list'|
      ensures list'[i] in next' && next'[list'[i]] == At(list', i + 1)
    {
      assert next[list[i]] == At(list, i + 1);
      assert i >= k ==> next[list[i + 1]] == At(list, i + 2);
    }
  }

  lemma ChainAppend(next: map<nat, nat>, head: nat, list: seq<nat>, b: nat)
    requires Chained(next, head, list) && Distinct(list) && b !in list
    ensures list == [] ==> Chained(next[b := 0], b, [b])
    ensures list != [] ==> Chained(next[b := 0][list[|list| - 1] := b], head, list + [b])
  {
    if list != [] {
      var list', next' := list + [b], next[b := 0][list[|list| - 1] := b];
      forall i | 0 <= i < |list'|
        ensures list'[i] in next' && next'[list'[i]] == At(list', i + 1)
      {
        assert i < |list| ==> next[list[i]] == At(list, i + 1);
      }
    }
  }

  /** A store to a node outside the list does not matter to it. */
  lemma ChainFrame(next: map<nat, nat>, head: nat, list: seq<nat>, b: nat, x: nat)
    requires Chained(next, head, list) && b !in list
    ensures Chained(next[b := x], head, list)
  {
  }

  /** A node that is not in the ring can be given back. */
  lemma RingDrop(next: map<nat, nat>, list: seq<nat>, x: nat)
    requires Linked(next, list) && x !in list
    ensures Linked(next - {x}, list)
  {
    assert forall i :: 0 <= i < |list| ==> list[i] in list;
  }

  lemma ChainDrop(next: map<nat, nat>, head: nat, list: seq<nat>, x: nat)
    requires Chained(next, head, list) && x !in list
    ensures Chained(next - {x}, head, list)
  {
    assert forall i :: 0 <= i < |list| ==> list[i] in list;
  }
}
