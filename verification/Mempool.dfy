/** The fixed-size block pool: blocks never used yet are handed out first, then those on the free list. */
module Mempool {

  const NULL: int := -1

  class Pool {
    const blocks: nat
    /** The word at the start of each free block: the next free block. */
    const next: array<int>
    var unlinked: nat
    var head: int
    ghost var free: seq<nat>

    /** The free list runs through `free`; blocks from `blocks - unlinked` on were never used. */
    ghost predicate Valid()
      reads this, next
    {
      && next.Length == blocks && unlinked <= blocks
      && (forall i :: 0 <= i < |free| ==> free[i] < blocks - unlinked)
      && (forall i, j :: 0 <= i < j < |free| ==> free[i] != free[j])
      && Linked(next[..], head, free)
    }

    /** Blocks in use. */
    ghost function Live(): (live: set<nat>)
      requires Valid()
      reads this, next
    {
      set b: nat | b < blocks - unlinked && b !in free
    }

    constructor (blocks: nat)
      ensures Valid() && Live() == {} && this.blocks == blocks && fresh(next)
    {
      this.blocks := blocks;
      next := new int[blocks](_ => NULL);
      unlinked, head, free := blocks, NULL, [];
    }

    /** Takes the first block that was never used. */
    method TakeUnlinked() returns (b: nat)
      requires Valid() && unlinked > 0
      modifies this`unlinked
      ensures Valid() && b < blocks && b !in old(Live()) && Live() == old(Live()) + {b}
    {
      b := blocks - unlinked;
      unlinked := unlinked - 1;
    }

    /** Takes the block at the head of the free list. */
    method TakeHead() returns (b: nat)
      requires Valid() && head != NULL
      modifies this`head, this`free
      ensures Valid() && b < blocks && b !in old(Live()) && Live() == old(Live()) + {b}
    {
      b := head;
      assert b !in free[1..];
      head := next[b];
      free := free[1..];
    }

    /** Takes a block that is not in use; fails exactly when all are. */
    method Malloc() returns (b: int)
      requires Valid()
      modifies this
      ensures Valid()
      ensures b == NULL <==> |old(Live())| == blocks
      ensures b == NULL ==> Live() == old(Live())
      ensures b != NULL ==> 0 <= b < blocks && b !in old(Live()) && Live() == old(Live()) + {b}
    {
      LiveCount(free, blocks - unlinked, Live());
      if unlinked > 0 {
        b := TakeUnlinked();
      } else if head != NULL {
        b := TakeHead();
      } else {
        b := NULL;
      }
    }

    /** Gives back a block in use. */
    method Free(b: nat)
      requires Valid() && b in Live()
      modifies this, next
      ensures Valid() && Live() == old(Live()) - {b}
    {
      ghost var before := next[..];
      next[b] := head;
      head := b;
      LinkedFrame(before, old(head), free, b, old(head));
      free := [b] + free;
      assert free[1..] == old(free);
    }
  }

  /** The blocks on the list point to each other in order, from `head` on; the last one to nothing. */
  ghost predicate Linked(next: seq<int>, head: int, free: seq<nat>)
    decreases |free|
  {
    if free == [] then head == NULL
    else head == free[0] && free[0] < |next| && Linked(next, next[free[0]], free[1..])
  }

  /** Writing into a block that is not on the list does not disturb it. */
  lemma {:induction false} LinkedFrame(next: seq<int>, head: int, free: seq<nat>, b: nat, v: int)
    requires Linked(next, head, free) && b !in free && b < |next|
    ensures Linked(next[b := v], head, free)
    decreases |free|
  {
    if free != [] {
      LinkedFrame(next, next[free[0]], free[1..], b, v);
    }
  }

  lemma AddOne(s: set<nat>, x: nat)
    requires x !in s
    ensures |s + {x}| == |s| + 1
  {
    assert s * {x} == {};
  }

  function UpTo(n: nat): (s: set<nat>)
    ensures forall b: nat :: b in s <==> b < n
  {
    if n == 0 then {} else UpTo(n - 1) + {n - 1}
  }

  lemma {:induction false} UpToSize(n: nat)
    ensures |UpTo(n)| == n
  {
    if n != 0 {
      UpToSize(n - 1);
      AddOne(UpTo(n - 1), n - 1);
    }
  }

  function Elements(list: seq<nat>): (s: set<nat>)
    ensures forall b :: b in s <==> b in list
  {
    if list == [] then {} else Elements(list[..|list| - 1]) + {list[|list| - 1]}
  }

  lemma ElementsLast(list: seq<nat>)
    requires list != []
    ensures Elements(list) == Elements(list[..|list| - 1]) + {list[|list| - 1]}
  {
  }

  lemma {:induction false} ListSize(list: seq<nat>)
    requires forall i, j :: 0 <= i < j < |list| ==> list[i] != list[j]
    ensures |Elements(list)| == |list|
  {
    if list != [] {
      hide Elements;
      var n := |list| - 1;
      ListSize(list[..n]);
      ElementsLast(list);
      AddOne(Elements(list[..n]), list[n]);
    }
  }

  lemma DisjointSize(a: set<nat>, b: set<nat>)
    requires a * b == {}
    ensures |a + b| == |a| + |b|
  {
  }

  /** Every block that was handed out is either free or in use, and not both. */
  lemma LiveCount(free: seq<nat>, used: nat, live: set<nat>)
    requires forall i, j :: 0 <= i < j < |free| ==> free[i] != free[j]
    requires forall i :: 0 <= i < |free| ==> free[i] < used
    requires live == set b: nat | b < used && b !in free
    ensures |live| + |free| == used
  {
    ListSize(free);
    UpToSize(used);
    assert live * Elements(free) == {};
    assert live + Elements(free) == UpTo(used);
    DisjointSize(live, Elements(free));
  }
}
