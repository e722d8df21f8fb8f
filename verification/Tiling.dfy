/** Memory units divided among blocks: `size` gives each block's extent and `owner` the block each unit
    lies in. */
module Tiling {
  /** Where block b ends. */
  function End(size: map<nat, nat>, b: nat): nat
  {
    b + if b in size then size[b] else 0
  }

  /** Block b has all the units from its header to its end. */
  ghost predicate Owns(size: map<nat, nat>, owner: map<nat, nat>, b: nat)
  {
    b in size && size[b] > 0 && forall u :: b <= u < End(size, b) ==> u in owner && owner[u] == b
  }

  /** Every unit obtained from sbrk lies in exactly one block, and blocks consist of such units. */
  ghost predicate Tiled(size: map<nat, nat>, owner: map<nat, nat>, blocks: set<nat>)
  {
    && (forall u :: u in owner ==> owner[u] in blocks && owner[u] <= u < End(size, owner[u]))
    && (forall b :: b in blocks ==> Owns(size, owner, b))
  }

  /** Blocks do not overlap. */
  lemma BlocksApart(size: map<nat, nat>, owner: map<nat, nat>, blocks: set<nat>, a: nat, b: nat)
    requires Tiled(size, owner, blocks) && a in blocks && b in blocks && a < b
    ensures End(size, a) <= b
  {
    assert Owns(size, owner, a) && Owns(size, owner, b);
    assert b in owner && owner[b] == b;
  }

  predicate InSpan(lo: nat, hi: nat, u: nat)
  {
    lo <= u < hi
  }

  /** The units lo..hi. */
  function Span(lo: nat, hi: nat): (r: set<nat>)
    ensures forall u :: u in r <==> lo <= u < hi
  {
    set u: nat | u < hi && InSpan(lo, hi, u)
  }

  /** The units lo..hi now lie in block b. */
  function Reowned(owner: map<nat, nat>, lo: nat, hi: nat, b: nat): (r: map<nat, nat>)
    ensures forall u :: u in r <==> u in owner || lo <= u < hi
    ensures forall u :: u in r ==> r[u] == if lo <= u < hi then b else owner[u]
  {
    map u | u in owner.Keys + Span(lo, hi) :: if lo <= u < hi then b else owner[u]
  }

  lemma DifferentUnits(size: map<nat, nat>, owner: map<nat, nat>, a: nat, b: nat)
    requires Owns(size, owner, a) && Owns(size, owner, b) && a != b
    ensures forall u :: u in owner && a <= u < End(size, a) ==> !(b <= u < End(size, b))
  {
  }

  /** Two touching blocks become one. */
  lemma JoinTiles(size: map<nat, nat>, owner: map<nat, nat>, blocks: set<nat>, a: nat, b: nat,
                  size': map<nat, nat>, owner': map<nat, nat>)
    requires Tiled(size, owner, blocks) && a in blocks && b in blocks && a != b && a in size && b in size &&
             a + size[a] == b
    requires size' == size[a := size[a] + size[b]] && owner' == Reowned(owner, b, End(size, b), a)
    ensures Tiled(size', owner', blocks - {b})
  {
    assert Owns(size, owner, a) && Owns(size, owner, b);
    assert Owns(size', owner', a);
    forall c | c in blocks && c != a && c != b
      ensures Owns(size', owner', c)
    {
      JoinOther(size, owner, a, b, c, size', owner');
    }
    forall u | u in owner'
      ensures owner'[u] in blocks - {b} && owner'[u] <= u < End(size', owner'[u])
    {
      JoinUnit(size, owner, blocks, a, b, u, size', owner');
    }
  }

  lemma JoinOther(size: map<nat, nat>, owner: map<nat, nat>, a: nat, b: nat, c: nat,
                  size': map<nat, nat>, owner': map<nat, nat>)
    requires Owns(size, owner, b) && Owns(size, owner, c) && c != a && c != b && a in size
    requires size' == size[a := size[a] + size[b]] && owner' == Reowned(owner, b, End(size, b), a)
    ensures Owns(size', owner', c)
  {
    DifferentUnits(size, owner, c, b);
  }

  lemma JoinUnit(size: map<nat, nat>, owner: map<nat, nat>, blocks: set<nat>, a: nat, b: nat, u: nat,
                 size': map<nat, nat>, owner': map<nat, nat>)
    requires forall v :: v in owner ==> owner[v] in blocks && owner[v] <= v < End(size, owner[v])
    requires Owns(size, owner, b) && a in blocks && a != b && a in size && a + size[a] == b && u in owner'
    requires size' == size[a := size[a] + size[b]] && owner' == Reowned(owner, b, End(size, b), a)
    ensures owner'[u] in blocks - {b} && owner'[u] <= u < End(size', owner'[u])
  {
    if !(b <= u < End(size, b)) {
      assert owner[u] in blocks;
    }
  }

  /** A block gives up its last n units, which become a block of their own. */
  lemma CutTiles(size: map<nat, nat>, owner: map<nat, nat>, blocks: set<nat>, a: nat, n: nat, q: nat,
                 size': map<nat, nat>, owner': map<nat, nat>)
    requires Tiled(size, owner, blocks) && a in blocks && a in size && 0 < n < size[a] && q == a + size[a] - n
    requires size' == size[a := size[a] - n][q := n] && owner' == Reowned(owner, q, q + n, q)
    ensures q !in blocks && Tiled(size', owner', blocks + {q})
  {
    assert Owns(size, owner, a);
    assert q in owner && owner[q] == a;
    assert q in blocks ==> Owns(size, owner, q);
    assert Owns(size', owner', a) && Owns(size', owner', q);
    forall c | c in blocks && c != a
      ensures Owns(size', owner', c)
    {
      CutOther(size, owner, a, n, q, c, size', owner');
    }
    forall u | u in owner'
      ensures owner'[u] in blocks + {q} && owner'[u] <= u < End(size', owner'[u])
    {
      CutUnit(size, owner, blocks, a, n, q, u, size', owner');
    }
  }

  lemma CutUnit(size: map<nat, nat>, owner: map<nat, nat>, blocks: set<nat>, a: nat, n: nat, q: nat, u: nat,
                size': map<nat, nat>, owner': map<nat, nat>)
    requires forall v :: v in owner ==> owner[v] in blocks && owner[v] <= v < End(size, owner[v])
    requires Owns(size, owner, a) && q !in blocks && 0 < n < size[a] && q == a + size[a] - n && u in owner'
    requires size' == size[a := size[a] - n][q := n] && owner' == Reowned(owner, q, q + n, q)
    ensures owner'[u] in blocks + {q} && owner'[u] <= u < End(size', owner'[u])
  {
    if !(q <= u < q + n) {
      assert owner[u] in blocks && owner[u] <= u < End(size, owner[u]);
    }
  }

  lemma CutOther(size: map<nat, nat>, owner: map<nat, nat>, a: nat, n: nat, q: nat, c: nat,
                 size': map<nat, nat>, owner': map<nat, nat>)
    requires Owns(size, owner, a) && Owns(size, owner, c) && c != a && 0 < n < size[a] && q == a + size[a] - n
    requires size' == size[a := size[a] - n][q := n] && owner' == Reowned(owner, q, q + n, q)
    ensures Owns(size', owner', c)
  {
    DifferentUnits(size, owner, c, a);
    assert c in owner;
  }

  /** Fresh units become a block. */
  lemma GrowTiles(size: map<nat, nat>, owner: map<nat, nat>, blocks: set<nat>, a: nat, n: nat,
                  size': map<nat, nat>, owner': map<nat, nat>)
    requires Tiled(size, owner, blocks) && n > 0 && forall u :: u in owner ==> !(a <= u < a + n)
    requires size' == size[a := n] && owner' == Reowned(owner, a, a + n, a)
    ensures a !in blocks && Tiled(size', owner', blocks + {a})
  {
    assert a in blocks ==> Owns(size, owner, a) && a in owner;
    forall c | c in blocks + {a}
      ensures Owns(size', owner', c)
    {
      assert c != a ==> Owns(size, owner, c) && c in owner;
    }
  }
}
