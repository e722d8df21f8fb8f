/** What several modules need. */
module Common {
  newtype Byte = x: int | 0 <= x < 256

  datatype Option<+T> = None | Some(value: T)

  function Zeros(n: nat): (r: seq<Byte>)
    ensures |r| == n && forall i :: 0 <= i < n ==> r[i] == 0
  {
    seq(n, _ => 0)
  }

  ghost predicate Distinct(list: seq<nat>)
  {
    forall i, j :: 0 <= i < j < |list| ==> list[i] != list[j]
  }

  /** Pigeonhole: distinct numbers below n are at most n. */
  lemma {:induction false} BoundedDistinct(list: seq<nat>, n: nat)
    requires Distinct(list) && forall i :: 0 <= i < |list| ==> list[i] < n
    ensures |list| <= n
    decreases n
  {
    if list != [] {
      assert list[0] < n;
      if k :| 0 <= k < |list| && list[k] == n - 1 {
        var rest := list[..k] + list[k + 1..];
        assert forall i :: 0 <= i < |rest| ==> rest[i] == if i < k then list[i] else list[i + 1];
        BoundedDistinct(rest, n - 1);
      } else {
        BoundedDistinct(list, n - 1);
      }
    }
  }

  /** Pieces one after another. */
  function Flat(parts: seq<seq<Byte>>): seq<Byte>
  {
    if parts == [] then [] else parts[0] + Flat(parts[1..])
  }

  lemma {:induction false} FlatSize(parts: seq<seq<Byte>>, size: nat)
    requires forall i :: 0 <= i < |parts| ==> |parts[i]| == size
    ensures |Flat(parts)| == size * |parts|
  {
    if parts != [] {
      FlatSize(parts[1..], size);
      assert size * |parts| == size + size * (|parts| - 1);
    }
  }

  lemma SliceBehind(a: seq<Byte>, b: seq<Byte>, from: nat, to: nat)
    requires from <= to <= |b|
    ensures (a + b)[|a| + from..|a| + to] == b[from..to]
  {
  }

  lemma {:induction false} FlatAt(parts: seq<seq<Byte>>, size: nat, i: nat)
    requires i < |parts| && forall k :: 0 <= k < |parts| ==> |parts[k]| == size
    ensures size * i + size <= |Flat(parts)| && Flat(parts)[size * i..size * i + size] == parts[i]
  {
    if i > 0 {
      FlatAt(parts[1..], size, i - 1);
      var at := size * (i - 1);
      assert size * i == size + at;
      SliceBehind(parts[0], Flat(parts[1..]), at, at + size);
    }
  }
}
