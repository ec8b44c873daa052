/**
 Why merging the two least weights gives a code of least total length: an exchange argument on code
 lengths that satisfy Kraft's inequality.
 */
module HuffmanOptimal {
  import opened Bits

  /** Entries above the limit are used up. */
  predicate Live(w: seq<nat>, limit: nat, r: nat)
    requires r < |w|
  {
    w[r] <= limit
  }

  ghost predicate Below(w: seq<nat>, limit: nat, d: seq<nat>, m: nat) {
    |d| == |w| && forall r :: 0 <= r < |w| && Live(w, limit, r) ==> d[r] <= m
  }

  /** What one entry takes of the code space of `2^m` words. */
  function Share(w: seq<nat>, limit: nat, d: seq<nat>, m: nat, r: nat): (s: nat)
    requires r < |w| == |d|
  {
    if Live(w, limit, r) && d[r] <= m then Pow2(m - d[r]) else 0
  }

  /** What the first `k` entries take. */
  function Space(w: seq<nat>, limit: nat, d: seq<nat>, m: nat, k: nat): (s: nat)
    requires k <= |w| == |d|
  {
    if k == 0 then 0 else Space(w, limit, d, m, k - 1) + Share(w, limit, d, m, k - 1)
  }

  function Weighted(w: seq<nat>, limit: nat, d: seq<nat>, r: nat): (c: nat)
    requires r < |w| == |d|
  {
    if Live(w, limit, r) then w[r] * d[r] else 0
  }

  /** Total length of the first `k` entries. */
  function Cost(w: seq<nat>, limit: nat, d: seq<nat>, k: nat): (c: nat)
    requires k <= |w| == |d|
  {
    if k == 0 then 0 else Cost(w, limit, d, k - 1) + Weighted(w, limit, d, k - 1)
  }

  /** Lengths of at most `m` that satisfy Kraft's inequality. */
  ghost predicate Fits(w: seq<nat>, limit: nat, d: seq<nat>, m: nat) {
    Below(w, limit, d, m) && Space(w, limit, d, m, |w|) <= Pow2(m)
  }

  // ----- Changing one entry -----

  ghost predicate SameBut(w: seq<nat>, d: seq<nat>, w': seq<nat>, d': seq<nat>, r: nat) {
    && |w| == |d| == |w'| == |d'|
    && forall i :: 0 <= i < |w| && i != r ==> w[i] == w'[i] && d[i] == d'[i]
  }

  lemma {:induction false} SpaceChange(w: seq<nat>, limit: nat, d: seq<nat>, w': seq<nat>, d': seq<nat>, m: nat,
                                       r: nat, k: nat)
    requires SameBut(w, d, w', d', r) && r < |w| && k <= |w|
    ensures r < k ==>
              Space(w', limit, d', m, k) + Share(w, limit, d, m, r)
              == Space(w, limit, d, m, k) + Share(w', limit, d', m, r)
    ensures r >= k ==> Space(w', limit, d', m, k) == Space(w, limit, d, m, k)
  {
    if k != 0 {
      SpaceChange(w, limit, d, w', d', m, r, k - 1);
    }
  }

  lemma {:induction false} CostChange(w: seq<nat>, limit: nat, d: seq<nat>, w': seq<nat>, d': seq<nat>, r: nat, k: nat)
    requires SameBut(w, d, w', d', r) && r < |w| && k <= |w|
    ensures r < k ==>
              Cost(w', limit, d', k) + Weighted(w, limit, d, r) == Cost(w, limit, d, k) + Weighted(w', limit, d', r)
    ensures r >= k ==> Cost(w', limit, d', k) == Cost(w, limit, d, k)
  {
    if k != 0 {
      CostChange(w, limit, d, w', d', r, k - 1);
    }
  }

  // ----- Rescaling -----

  /** Without entries of length `m`, the space is even, and twice that at the next smaller scale. */
  lemma {:induction false} Halve(w: seq<nat>, limit: nat, d: seq<nat>, m: nat, k: nat)
    requires m > 0 && k <= |w| == |d| && forall r :: 0 <= r < k && Live(w, limit, r) ==> d[r] < m
    ensures Space(w, limit, d, m, k) == 2 * Space(w, limit, d, m - 1, k)
  {
    if k != 0 {
      Halve(w, limit, d, m, k - 1);
    }
  }

  lemma Rescale(w: seq<nat>, limit: nat, d: seq<nat>, m: nat)
    requires m > 0 && |d| == |w| && (forall r :: 0 <= r < |w| && Live(w, limit, r) ==> d[r] < m)
    requires Space(w, limit, d, m, |w|) <= Pow2(m) + 1
    ensures Fits(w, limit, d, m - 1)
  {
    Halve(w, limit, d, m, |w|);
  }

  // ----- Bringing the two least entries to the bottom -----

  ghost predicate Least(w: seq<nat>, limit: nat, a: nat, b: nat) {
    && a < |w| && b < |w| && a != b && Live(w, limit, a) && Live(w, limit, b) && w[a] <= w[b]
    && forall r :: 0 <= r < |w| && Live(w, limit, r) && r != a ==> w[b] <= w[r]
  }

  lemma {:induction false} TakesOne(w: seq<nat>, limit: nat, d: seq<nat>, m: nat, x: nat, k: nat)
    requires x < k <= |w| == |d| && Live(w, limit, x) && d[x] == m
    ensures Space(w, limit, d, m, k) >= 1
  {
    if x != k - 1 {
      TakesOne(w, limit, d, m, x, k - 1);
    }
  }

  /** Two entries of the greatest length need at least one bit. */
  lemma TwoAtBottom(w: seq<nat>, limit: nat, d: seq<nat>, m: nat, x: nat, y: nat)
    requires Fits(w, limit, d, m) && x < |w| && y < |w| && x != y && Live(w, limit, x) && Live(w, limit, y)
    requires d[x] == m && d[y] == m
    ensures m > 0
  {
    var w' := w[x := limit + 1];
    SpaceChange(w, limit, d, w', d, m, x, |w|);
    TakesOne(w', limit, d, m, y, |w|);
  }

  lemma Rearrange(wa: nat, wx: nat, da: nat, dx: nat)
    requires wa <= wx && da <= dx
    ensures wa * dx + wx * da <= wa * da + wx * dx
  {
    MulMono(wa, wx, dx - da);
    assert wa * dx == wa * da + wa * (dx - da) && wx * dx == wx * da + wx * (dx - da);
  }

  lemma SwapSpace(w: seq<nat>, limit: nat, d: seq<nat>, m: nat, a: nat, x: nat)
    requires |d| == |w| && a < |w| && x < |w| && a != x && Live(w, limit, a) && Live(w, limit, x)
    ensures Space(w, limit, d[a := d[x]][x := d[a]], m, |w|) == Space(w, limit, d, m, |w|)
  {
    hide Space;
    var e := d[a := d[x]];
    SpaceChange(w, limit, d, w, e, m, a, |w|);
    SpaceChange(w, limit, e, w, e[x := d[a]], m, x, |w|);
  }

  lemma SwapCost(w: seq<nat>, limit: nat, d: seq<nat>, a: nat, x: nat)
    requires |d| == |w| && a < |w| && x < |w| && a != x && Live(w, limit, a) && Live(w, limit, x)
    requires w[a] <= w[x] && d[a] <= d[x]
    ensures Cost(w, limit, d[a := d[x]][x := d[a]], |w|) <= Cost(w, limit, d, |w|)
  {
    hide Cost;
    var e := d[a := d[x]];
    CostChange(w, limit, d, w, e, a, |w|);
    CostChange(w, limit, e, w, e[x := d[a]], x, |w|);
    Rearrange(w[a], w[x], d[a], d[x]);
  }

  /** Giving a lighter entry the greatest length of a heavier one does not cost more. */
  lemma Swap(w: seq<nat>, limit: nat, d: seq<nat>, m: nat, a: nat, x: nat) returns (d': seq<nat>)
    requires Fits(w, limit, d, m) && a < |w| && x < |w| && Live(w, limit, a) && Live(w, limit, x)
    requires w[a] <= w[x] && d[x] == m
    ensures d' == d[a := d[x]][x := d[a]] && Fits(w, limit, d', m)
    ensures Cost(w, limit, d', |w|) <= Cost(w, limit, d, |w|)
  {
    hide Space, Cost;
    d' := d[a := d[x]][x := d[a]];
    if a != x {
      SwapSpace(w, limit, d, m, a, x);
      SwapCost(w, limit, d, a, x);
    } else {
      assert d' == d;
    }
  }

  /** With two entries of the greatest length, the two least ones can take their places. */
  lemma BothDown(w: seq<nat>, limit: nat, d: seq<nat>, m: nat, a: nat, b: nat, x: nat, y: nat) returns (d': seq<nat>)
    requires Fits(w, limit, d, m) && Least(w, limit, a, b)
    requires x < |w| && y < |w| && x != y && Live(w, limit, x) && Live(w, limit, y) && d[x] == m && d[y] == m
    ensures Fits(w, limit, d', m) && d'[a] == m && d'[b] == m
    ensures Cost(w, limit, d', |w|) <= Cost(w, limit, d, |w|)
  {
    FitsBelow(w, limit, d, m);
    hide Space, Cost, Fits;
    var z := if d[a] == m then a else if x == b then y else x;
    var e := Swap(w, limit, d, m, a, z);
    FitsBelow(w, limit, e, m);
    var v := if e[b] == m then b else if x == a || x == z then y else x;
    d' := Swap(w, limit, e, m, b, v);
  }

  lemma FitsBelow(w: seq<nat>, limit: nat, d: seq<nat>, m: nat)
    requires Fits(w, limit, d, m)
    ensures Below(w, limit, d, m)
  {
  }

  /** Any lengths can be changed, without more cost, so that the two least entries have the greatest length. */
  lemma {:induction false} Tighten(w: seq<nat>, limit: nat, d: seq<nat>, m: nat, a: nat, b: nat)
    returns (d': seq<nat>, m': nat)
    requires Fits(w, limit, d, m) && Least(w, limit, a, b)
    ensures Fits(w, limit, d', m') && d'[a] == m' && d'[b] == m' && m' > 0
    ensures Cost(w, limit, d', |w|) <= Cost(w, limit, d, |w|)
    decreases m
  {
    if x: nat :| x < |w| && Live(w, limit, x) && d[x] == m {
      if y: nat :| y < |w| && y != x && Live(w, limit, y) && d[y] == m {
        d' := BothDown(w, limit, d, m, a, b, x, y);
        m' := m;
        TwoAtBottom(w, limit, d', m, a, b);
      } else {
        d', m' := Shorten(w, limit, d, m, a, b, x);
      }
    } else {
      assert m > 0;
      Rescale(w, limit, d, m);
      d', m' := Tighten(w, limit, d, m - 1, a, b);
    }
  }

  /** A single entry of the greatest length can be made shorter. */
  lemma {:induction false} Shorten(w: seq<nat>, limit: nat, d: seq<nat>, m: nat, a: nat, b: nat, x: nat)
    returns (d': seq<nat>, m': nat)
    requires Fits(w, limit, d, m) && Least(w, limit, a, b) && x < |w| && Live(w, limit, x) && d[x] == m
    requires forall y :: 0 <= y < |w| && y != x && Live(w, limit, y) ==> d[y] != m
    ensures Fits(w, limit, d', m') && d'[a] == m' && d'[b] == m' && m' > 0
    ensures Cost(w, limit, d', |w|) <= Cost(w, limit, d, |w|)
    decreases m, 0
  {
    ShortenOne(w, limit, d, m, a, b, x);
    d', m' := Tighten(w, limit, d[x := m - 1], m - 1, a, b);
  }

  lemma ShortenOne(w: seq<nat>, limit: nat, d: seq<nat>, m: nat, a: nat, b: nat, x: nat)
    requires Fits(w, limit, d, m) && Least(w, limit, a, b) && x < |w| && Live(w, limit, x) && d[x] == m
    requires forall y :: 0 <= y < |w| && y != x && Live(w, limit, y) ==> d[y] != m
    ensures m > 0 && Fits(w, limit, d[x := m - 1], m - 1)
    ensures Cost(w, limit, d[x := m - 1], |w|) <= Cost(w, limit, d, |w|)
  {
    var other := if x == a then b else a;
    assert d[other] < m;
    var e := d[x := m - 1];
    SpaceChange(w, limit, d, w, e, m, x, |w|);
    CostChange(w, limit, d, w, e, x, |w|);
    assert Pow2(1) == 2;
    assert Share(w, limit, d, m, x) == 1 && Share(w, limit, e, m, x) == 2;
    hide Pow2, Space, Cost;
    LessWeight(w[x], m);
    Rescale(w, limit, e, m);
  }

  lemma LessWeight(x: nat, m: nat)
    requires m > 0
    ensures x * (m - 1) <= x * m
  {
  }

  // ----- One merge -----

  function Merged(w: seq<nat>, limit: nat, a: nat, b: nat): (w': seq<nat>)
    requires a < |w| && b < |w|
    ensures |w'| == |w|
  {
    w[a := w[a] + w[b]][b := limit + 1]
  }

  /** Lengths of the least entries turn into a length of their merger, one bit shorter. */
  lemma Contract(w: seq<nat>, limit: nat, d: seq<nat>, m: nat, a: nat, b: nat)
    requires Fits(w, limit, d, m) && Least(w, limit, a, b) && d[a] == m && d[b] == m && m > 0 && w[a] + w[b] <= limit
    ensures Fits(Merged(w, limit, a, b), limit, d[a := m - 1], m)
    ensures Cost(Merged(w, limit, a, b), limit, d[a := m - 1], |w|) + w[a] + w[b] == Cost(w, limit, d, |w|)
  {
    var w1, d' := w[a := w[a] + w[b]], d[a := m - 1];
    var w' := Merged(w, limit, a, b);
    SpaceChange(w, limit, d, w1, d', m, a, |w|);
    SpaceChange(w1, limit, d', w', d', m, b, |w|);
    CostChange(w, limit, d, w1, d', a, |w|);
    CostChange(w1, limit, d', w', d', b, |w|);
    Distribute(w[a], w[b], m);
  }

  lemma Distribute(x: nat, y: nat, m: nat)
    requires m > 0
    ensures (x + y) * (m - 1) + x + y == x * m + y * m
  {
  }

  /** Some lengths of the remaining entries bring the total, on top of `base`, to at most `c`. */
  ghost predicate Reaches(w: seq<nat>, limit: nat, base: nat, c: nat) {
    exists d: seq<nat>, m: nat :: |d| == |w| && Fits(w, limit, d, m) && base + Cost(w, limit, d, |w|) <= c
  }

  /** Every code for the original weights costs at least as much as some way to go on from here. */
  ghost predicate Best(w0: seq<nat>, w: seq<nat>, limit: nat, base: nat) {
    forall d: seq<nat>, m: nat :: |d| == |w0| && Fits(w0, limit, d, m) ==>
      Reaches(w, limit, base, Cost(w0, limit, d, |w0|))
  }

  lemma BestStart(w: seq<nat>, limit: nat)
    ensures Best(w, w, limit, 0)
  {
    hide Cost, Fits;
    forall d: seq<nat>, m: nat | |d| == |w| && Fits(w, limit, d, m)
      ensures Reaches(w, limit, 0, Cost(w, limit, d, |w|))
    {
    }
  }

  lemma ReachesStep(w: seq<nat>, limit: nat, base: nat, c: nat, a: nat, b: nat)
    requires Reaches(w, limit, base, c) && Least(w, limit, a, b) && w[a] + w[b] <= limit
    ensures Reaches(Merged(w, limit, a, b), limit, base + w[a] + w[b], c)
  {
    hide Cost, Space, Fits;
    var d: seq<nat>, m: nat :| |d| == |w| && Fits(w, limit, d, m) && base + Cost(w, limit, d, |w|) <= c;
    var d', m' := Tighten(w, limit, d, m, a, b);
    FitsBelow(w, limit, d', m');
    Contract(w, limit, d', m', a, b);
  }

  /** Merging the two least entries keeps the best code within reach. */
  lemma BestStep(w0: seq<nat>, w: seq<nat>, limit: nat, base: nat, a: nat, b: nat)
    requires Best(w0, w, limit, base) && Least(w, limit, a, b) && w[a] + w[b] <= limit
    ensures Best(w0, Merged(w, limit, a, b), limit, base + w[a] + w[b])
  {
    hide Cost, Fits, Reaches, Merged;
    forall d: seq<nat>, m: nat | |d| == |w0| && Fits(w0, limit, d, m)
      ensures Reaches(Merged(w, limit, a, b), limit, base + w[a] + w[b], Cost(w0, limit, d, |w0|))
    {
      ReachesStep(w, limit, base, Cost(w0, limit, d, |w0|), a, b);
    }
  }

  /** In the end no code costs less than what has been spent. */
  lemma BestEnd(w0: seq<nat>, w: seq<nat>, limit: nat, base: nat, d: seq<nat>, m: nat)
    requires Best(w0, w, limit, base) && Fits(w0, limit, d, m)
    ensures base <= Cost(w0, limit, d, |w0|)
  {
    assert Reaches(w, limit, base, Cost(w0, limit, d, |w0|));
  }
}
