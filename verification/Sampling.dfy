/** Choosing blocks to sample for the delta quantizer, and finding them again while coding. */
module Sampling {

  ghost predicate Increasing(s: seq<nat>) {
    forall i, j :: 0 <= i < j < |s| ==> s[i] < s[j]
  }

  /** How many elements of `s` are at most `v`. */
  function AtMost(s: seq<nat>, v: nat): (n: nat)
    ensures n <= |s|
  {
    if s == [] then 0 else AtMost(s[..|s| - 1], v) + (if s[|s| - 1] <= v then 1 else 0)
  }

  lemma AtMostNext(s: seq<nat>, n: nat, v: nat)
    requires n < |s|
    ensures AtMost(s[..n + 1], v) == AtMost(s[..n], v) + (if s[n] <= v then 1 else 0)
  {
    assert s[..n + 1][..n] == s[..n];
  }

  /** In an increasing list, everything up to an element at most `v` counts. */
  lemma {:induction false} AllAtMost(s: seq<nat>, v: nat)
    requires forall i :: 0 <= i < |s| ==> s[i] <= v
    ensures AtMost(s, v) == |s|
  {
    if s != [] {
      AllAtMost(s[..|s| - 1], v);
    }
  }

  /** `v` is unused, and exactly `rank` unused numbers lie below it. */
  ghost predicate UnusedWithRank(s: seq<nat>, v: nat, rank: nat) {
    v !in s && v == rank + AtMost(s, v)
  }

  lemma {:induction false} AtMostMono(s: seq<nat>, a: nat, b: nat)
    requires a <= b && Increasing(s) && a !in s
    ensures AtMost(s, a) <= AtMost(s, b) <= AtMost(s, a) + (b - a)
    decreases |s|
  {
    if s != [] {
      var n := |s| - 1;
      if a < s[n] <= b {
        AtMostMono(s[..n], a, s[n] - 1);
        StepDown(s[..n], s[n] - 1, b);
      } else {
        AtMostMono(s[..n], a, b);
      }
    }
  }

  lemma {:induction false} StepDown(s: seq<nat>, a: nat, b: nat)
    requires a <= b && forall i :: 0 <= i < |s| ==> s[i] <= a
    ensures AtMost(s, a) == AtMost(s, b)
  {
    AllAtMost(s, a);
    AllAtMost(s, b);
  }

  /** The number drawn determines the unused value, and different draws give different values. */
  lemma RankIsUnique(s: seq<nat>, v: nat, w: nat, rank: nat)
    requires Increasing(s) && UnusedWithRank(s, v, rank) && UnusedWithRank(s, w, rank)
    ensures v == w
  {
    var a, b := if v <= w then v else w, if v <= w then w else v;
    AtMostMono(s, a, b);
    if a < b {
      UsedBetween(s, a, b);
    }
  }

  /** If every step from `a` to `b` is counted, `b` is used. */
  lemma {:induction false} UsedBetween(s: seq<nat>, a: nat, b: nat)
    requires a < b && Increasing(s) && a !in s && AtMost(s, b) == AtMost(s, a) + (b - a)
    ensures b in s
    decreases |s|
  {
    AtMostMono(s, a, b);
    if s != [] {
      var n := |s| - 1;
      if s[n] > b {
        UsedBetween(s[..n], a, b);
      } else if s[n] <= a {
        StepDown(s, a, b);
      } else if s[n] < b {
        AtMostMono(s[..n], a, s[n] - 1);
        StepDown(s[..n], s[n] - 1, b);
      }
    }
  }

  /** Turns a drawn rank into the unused number of that rank, passing over the used ones in order. */
  method Unused(indices: array<nat>, i: nat, rank: nat) returns (v: nat)
    requires i <= indices.Length && Increasing(indices[..i])
    ensures UnusedWithRank(indices[..i], v, rank) && rank <= v <= rank + i
  {
    ghost var s := indices[..i];
    v := rank;
    for j := 0 to i
      invariant v == rank + AtMost(s[..j], v) && v <= rank + j
      invariant forall k :: 0 <= k < j ==> s[k] != v
    {
      AtMostNext(s, j, v);
      if v >= indices[j] {
        StepUp(s[..j], s[j], v);
        AtMostNext(s, j, v + 1);
        v := v + 1;
      }
    }
    assert s[..i] == s;
  }

  /** Passing a used number keeps the count: everything before it is smaller. */
  lemma StepUp(s: seq<nat>, next: nat, v: nat)
    requires next <= v && forall k :: 0 <= k < |s| ==> s[k] < next
    ensures AtMost(s, v) == AtMost(s, v + 1) == |s|
  {
    AllAtMost(s, v);
    AllAtMost(s, v + 1);
  }

  /** The increasing list with `v` added. */
  function Inserted(s: seq<nat>, v: nat): (r: seq<nat>)
    ensures |r| == |s| + 1
  {
    if s == [] then [v]
    else if v < s[0] then [v] + s
    else [s[0]] + Inserted(s[1..], v)
  }

  lemma {:induction false} InsertedAt(s: seq<nat>, v: nat, p: nat)
    requires p <= |s| && (forall k :: 0 <= k < p ==> s[k] <= v) && (p < |s| ==> v < s[p])
    ensures Inserted(s, v) == s[..p] + [v] + s[p..]
  {
    if p == 0 {
      assert s[..0] + [v] + s[0..] == [v] + s;
    } else {
      InsertedAt(s[1..], v, p - 1);
      assert s[..p] + [v] + s[p..] == [s[0]] + (s[1..][..p - 1] + [v] + s[1..][p - 1..]);
    }
  }

  lemma {:induction false} InsertedIncreasing(s: seq<nat>, v: nat)
    requires Increasing(s) && v !in s
    ensures Increasing(Inserted(s, v)) && forall x :: x in Inserted(s, v) <==> x in s || x == v
  {
    if s != [] && v >= s[0] {
      var rest := s[1..];
      assert forall i :: 0 <= i < |rest| ==> rest[i] == s[i + 1];
      assert v !in rest;
      InsertedIncreasing(rest, v);
      var r := Inserted(rest, v);
      forall i | 0 <= i < |r| ensures s[0] < r[i] {
        assert r[i] in r;
      }
    }
  }

  ghost predicate Below(s: seq<nat>, m: nat) {
    forall i :: 0 <= i < |s| ==> s[i] < m
  }

  lemma InsertedBelow(s: seq<nat>, v: nat, m: nat)
    requires Increasing(s) && v !in s && v < m && Below(s, m)
    ensures Below(Inserted(s, v), m)
  {
    InsertedIncreasing(s, v);
    var r := Inserted(s, v);
    forall i | 0 <= i < |r| ensures r[i] < m {
      assert r[i] in r;
    }
  }

  /** Inserts a number in place, moving the larger ones up. */
  method Insert(indices: array<nat>, i: nat, v: nat)
    requires i < indices.Length && Increasing(indices[..i]) && v !in indices[..i]
    modifies indices
    ensures indices[..i + 1] == Inserted(old(indices[..i]), v)
    ensures indices[i + 1..] == old(indices[i + 1..])
  {
    ghost var all, s := indices[..], indices[..i];
    var j := 0;
    while j < i && !(v < indices[j])
      invariant 0 <= j <= i && forall k :: 0 <= k < j ==> s[k] <= v
    {
      j := j + 1;
    }
    InsertedAt(s, v, j);
    MoveUp(indices, j, i);
    indices[j] := v;
    MovedUp(all, indices[..], j, i, v);
  }

  lemma MovedUp(before: seq<nat>, after: seq<nat>, j: nat, i: nat, v: nat)
    requires j <= i < |before| == |after| && after[j] == v
    requires forall x :: 0 <= x < j || i < x < |after| ==> after[x] == before[x]
    requires forall x, y :: j <= x < i && y == x + 1 ==> after[y] == before[x]
    ensures after[..i + 1] == before[..i][..j] + [v] + before[..i][j..] && after[i + 1..] == before[i + 1..]
  {
    var r := before[..i][..j] + [v] + before[..i][j..];
    forall x | 0 <= x <= i ensures after[..i + 1][x] == r[x] {
      if x > j {
        assert r[x] == before[..i][j..][x - j - 1] == before[x - 1];
      }
    }
    assert after[..i + 1] == r;
    SameTail(before, after, i + 1);
  }

  lemma SameTail(a: seq<nat>, b: seq<nat>, k: nat)
    requires k <= |a| == |b| && forall x :: k <= x < |a| ==> b[x] == a[x]
    ensures b[k..] == a[k..]
  {
  }

  /** Moves the elements from position `j` on up by one. */
  method MoveUp(indices: array<nat>, j: nat, i: nat)
    requires j <= i < indices.Length
    modifies indices
    ensures forall x :: 0 <= x < indices.Length ==>
              indices[x] == if j < x <= i then old(indices[x - 1]) else old(indices[x])
  {
    var k := i;
    while k > j
      invariant j <= k <= i
      invariant forall x :: 0 <= x < indices.Length ==>
                  indices[x] == if k < x <= i then old(indices[x - 1]) else old(indices[x])
    {
      indices[k] := indices[k - 1];
      k := k - 1;
    }
  }

  /** The list after the draws: each draw adds the unused number of its rank. */
  ghost predicate Drawn(s: seq<nat>, draws: seq<nat>, m: nat)
    decreases |draws|
  {
    if draws == [] then s == []
    else
      exists t: seq<nat>, v: nat ::
        Drawn(t, draws[..|draws| - 1], m) && UnusedWithRank(t, v, draws[|draws| - 1]) && s == Inserted(t, v)
  }

  /**
   Chooses `|draws|` different block indices below `m`, in increasing order. Draw `i` is below `m - i` and
   selects among the indices not used so far by rank.
   */
  method GenUniqueIndices(draws: seq<nat>, indices: array<nat>, m: nat)
    requires |draws| <= indices.Length && |draws| <= m && forall i :: 0 <= i < |draws| ==> draws[i] < m - i
    modifies indices
    ensures Increasing(indices[..|draws|]) && Below(indices[..|draws|], m)
    ensures Drawn(indices[..|draws|], draws, m)
  {
    for i := 0 to |draws|
      invariant Increasing(indices[..i]) && Below(indices[..i], m)
      invariant Drawn(indices[..i], draws[..i], m)
    {
      ghost var t := indices[..i];
      var v := Unused(indices, i, draws[i]);
      Insert(indices, i, v);
      InsertedIncreasing(t, v);
      InsertedBelow(t, v, m);
      assert draws[..i + 1][..i] == draws[..i];
    }
    assert draws[..|draws|] == draws;
  }

  // ----- Finding the sampled blocks -----

  /** Where a block lies, in samples: blocks are numbered row by row inside a unit of `h` by `v` blocks. */
  datatype Position = Position(x: nat, y: nat)

  const SIZE: nat := 8

  function PositionOf(b: nat, h: nat, v: nat): (p: Position)
    requires 1 <= h <= 2 && 1 <= v <= 2
  {
    var unit, r := b / (h * v), b % (h * v);
    Position((r % h + unit * h) * SIZE, r / h * SIZE)
  }

  lemma PositionIs(c: nat, h: nat, v: nat)
    requires 1 <= h <= 2 && 1 <= v <= 2
    ensures PositionOf(c, h, v) ==
            if h == 1 then (if v == 1 then Position(c * SIZE, 0) else Position(c / 2 * SIZE, c % 2 * SIZE))
            else if v == 1 then Position((c % 2 + c / 2 * 2) * SIZE, 0)
            else Position((c % 4 % 2 + c / 4 * 2) * SIZE, c % 4 / 2 * SIZE)
  {
  }

  /** The block at a position. */
  function BlockAt(p: Position, h: nat, v: nat): (b: nat)
    requires 1 <= h <= 2 && 1 <= v <= 2
  {
    var column, row := p.x / SIZE, p.y / SIZE;
    column / h * (h * v) + row * h + column % h
  }

  lemma ScaledBack(n: nat)
    ensures n * SIZE / SIZE == n
  {
  }

  lemma Columns1(b: nat, p: Position, v: nat)
    requires 1 <= v <= 2 && p == if v == 1 then Position(b * SIZE, 0) else Position(b / 2 * SIZE, b % 2 * SIZE)
    ensures BlockAt(p, 1, v) == b
  {
    ScaledBack(b);
    ScaledBack(b / 2);
    ScaledBack(b % 2);
  }

  lemma Columns2(b: nat, p: Position, v: nat)
    requires 1 <= v <= 2
    requires p == if v == 1 then Position((b % 2 + b / 2 * 2) * SIZE, 0)
                  else Position((b % 4 % 2 + b / 4 * 2) * SIZE, b % 4 / 2 * SIZE)
    ensures BlockAt(p, 2, v) == b
  {
    if v == 1 {
      ScaledBack(b % 2 + b / 2 * 2);
    } else {
      ScaledBack(b % 4 % 2 + b / 4 * 2);
      ScaledBack(b % 4 / 2);
    }
  }

  lemma PositionBack(b: nat, h: nat, v: nat)
    requires 1 <= h <= 2 && 1 <= v <= 2
    ensures BlockAt(PositionOf(b, h, v), h, v) == b
  {
    PositionIs(b, h, v);
    var p := PositionOf(b, h, v);
    hide PositionOf;
    if h == 1 {
      Columns1(b, p, v);
    } else {
      Columns2(b, p, v);
    }
  }

  /** Different blocks lie at different places. */
  lemma PositionsDiffer(a: nat, b: nat, h: nat, v: nat)
    requires 1 <= h <= 2 && 1 <= v <= 2
    ensures PositionOf(a, h, v) == PositionOf(b, h, v) <==> a == b
  {
    PositionBack(a, h, v);
    PositionBack(b, h, v);
    hide PositionOf, BlockAt;
  }

  datatype Hit = Miss | Hit(q: nat)

  /** Looks for the block at a position among the cached blocks from `next` on, giving up at a later one. */
  method FindCached(cached: seq<Position>, next: nat, p: Position) returns (r: Hit)
    requires next <= |cached|
    ensures r.Hit? ==> next <= r.q < |cached| && cached[r.q] == p
    ensures next < |cached| && cached[next] == p ==> r == Hit(next)
  {
    for qi := next to |cached|
      invariant qi > next ==> cached[next] != p
    {
      if cached[qi].y > p.y {
        break;
      }
      if cached[qi].y == p.y && cached[qi].x > p.x {
        break;
      }
      if cached[qi] == p {
        return Hit(qi);
      }
    }
    return Miss;
  }

  /**
   Visits the blocks in order and finds the sampled ones: block `b` is a hit exactly when it was sampled,
   and each sampled block is hit once.
   */
  method ScanBlocks(indices: seq<nat>, m: nat, h: nat, v: nat) returns (hits: seq<Hit>)
    requires 1 <= h <= 2 && 1 <= v <= 2 && Increasing(indices) && Below(indices, m)
    ensures |hits| == m
    ensures forall b :: 0 <= b < m ==> (hits[b] == Miss <==> b !in indices)
    ensures forall b :: 0 <= b < m && hits[b].Hit? ==> hits[b].q < |indices| && indices[hits[b].q] == b
  {
    hide PositionOf;
    var cached := seq(|indices|, i requires 0 <= i < |indices| => PositionOf(indices[i], h, v));
    var next := 0;
    hits := [];
    for b := 0 to m
      invariant |hits| == b && 0 <= next <= |indices|
      invariant forall i :: 0 <= i < next ==> indices[i] < b
      invariant forall i :: next <= i < |indices| ==> indices[i] >= b
      invariant forall c :: 0 <= c < b ==> (hits[c] == Miss <==> c !in indices)
      invariant forall c :: 0 <= c < b && hits[c].Hit? ==> hits[c].q < |indices| && indices[hits[c].q] == c
    {
      var r := FindCached(cached, next, PositionOf(b, h, v));
      forall i | 0 <= i < |indices| ensures cached[i] == PositionOf(b, h, v) <==> indices[i] == b {
        PositionsDiffer(indices[i], b, h, v);
      }
      if r.Hit? {
        next := r.q + 1;
      }
      hits := hits + [r];
    }
  }
}
