/**
 The merge loop that assigns Huffman code lengths (section K.2 of ITU-T T.81).

 The program keeps, for every symbol, a weight, a code length and a link to the next symbol of the
 same tree. The proof names the owner (root symbol) of every symbol and the chain of each root.
 */
module HuffmanTree {
  import Bits
  import HuffmanOptimal

  /** Largest weight a live tree can have; merged-away trees get `DEAD`. */
  const LIMIT: nat := 1_000_000_000
  const DEAD: nat := 1_000_000_001

  /** Selection order: lighter first, then the larger symbol number. */
  predicate Before(w: nat, i: int, w': nat, i': int) {
    w < w' || (w == w' && i > i')
  }

  // ----- Finding the two smallest -----

  /** `c1` and `c2` are the first and second live entries below `n` in selection order. */
  predicate TwoLeast(freq: seq<nat>, n: nat, c1: int, c2: int)
    requires n <= |freq|
  {
    && (c1 < 0 ==> c2 < 0 && forall i :: 0 <= i < n ==> freq[i] > LIMIT)
    && (c1 >= 0 ==>
          && c1 < n && freq[c1] <= LIMIT
          && (forall i :: 0 <= i < n && freq[i] <= LIMIT && i != c1 ==> Before(freq[c1], c1, freq[i], i))
          && (c2 < 0 ==> forall i :: 0 <= i < n && i != c1 ==> freq[i] > LIMIT)
          && (c2 >= 0 ==>
                && c2 < n && c2 != c1 && freq[c2] <= LIMIT
                && forall i :: 0 <= i < n && freq[i] <= LIMIT && i != c1 && i != c2
                     ==> Before(freq[c2], c2, freq[i], i)))
  }

  method FindTwoLeast(freq: seq<nat>, n: nat) returns (c1: int, c2: int)
    requires n <= |freq|
    ensures TwoLeast(freq, n, c1, c2) && (c1, c2) == Select(freq, n)
  {
    c1, c2 := -1, -1;
    var v, v2 := LIMIT, LIMIT;
    for i := 0 to n
      invariant TwoLeast(freq, i, c1, c2) && c1 >= -1 && c2 >= -1
      invariant v == if c1 < 0 then LIMIT else freq[c1]
      invariant v2 == if c2 < 0 then LIMIT else freq[c2]
    {
      if freq[i] <= v2 {
        if freq[i] <= v {
          c2, v2, v, c1 := c1, v, freq[i], i;
        } else {
          v2, c2 := freq[i], i;
        }
      }
    }
    SelectUnique(freq, n, c1, c2);
  }

  /** The first two live entries below `n` in selection order, by recursion. */
  function Select(freq: seq<nat>, n: nat): (c: (int, int))
    requires n <= |freq|
    ensures TwoLeast(freq, n, c.0, c.1) && c.0 >= -1 && c.1 >= -1
  {
    if n == 0 then (-1, -1)
    else
      var (c1, c2) := Select(freq, n - 1);
      var x := freq[n - 1];
      if x > LIMIT then (c1, c2)
      else if c1 < 0 || x <= freq[c1] then (n - 1, c1)
      else if c2 < 0 || x <= freq[c2] then (c1, n - 1)
      else (c1, c2)
  }

  /** There is only one pair of first two entries. */
  lemma SelectUnique(freq: seq<nat>, n: nat, c1: int, c2: int)
    requires n <= |freq| && TwoLeast(freq, n, c1, c2) && c1 >= -1 && c2 >= -1
    ensures Select(freq, n) == (c1, c2)
  {
    hide Select;
    var d := Select(freq, n);
  }

  // ----- Chains -----

  /** `chain` follows the links from its first symbol to the end marker. */
  predicate Linked(others: seq<int>, chain: seq<nat>) {
    && chain != []
    && (forall j :: 0 <= j < |chain| ==> chain[j] < |others|)
    && (forall j :: 0 <= j < |chain| - 1 ==> others[chain[j]] == chain[j + 1])
    && others[chain[|chain| - 1]] == -1
  }

  lemma LinkedNext(others: seq<int>, chain: seq<nat>, k: nat)
    requires Linked(others, chain) && k < |chain|
    ensures others[chain[k]] == if k + 1 < |chain| then chain[k + 1] else -1
  {
  }

  predicate Distinct(chain: seq<nat>) {
    forall i, j :: 0 <= i < j < |chain| ==> chain[i] != chain[j]
  }

  /** `cs'` is `cs` with one more on exactly the symbols of `chain`. */
  predicate Bumped(cs: seq<nat>, cs': seq<nat>, chain: seq<nat>) {
    && |cs'| == |cs|
    && forall x :: 0 <= x < |cs| ==> cs'[x] == cs[x] + (if x in chain then 1 else 0)
  }

  /** Adds one to the code length of every symbol of a tree and returns its last symbol. */
  method BumpChain(cs0: seq<nat>, others: seq<int>, root: nat, ghost chain: seq<nat>)
    returns (cs: seq<nat>, last: nat)
    requires |cs0| == |others| && Linked(others, chain) && Distinct(chain) && chain[0] == root
    ensures Bumped(cs0, cs, chain)
    ensures last == chain[|chain| - 1]
  {
    cs, last := cs0, root;
    cs := cs[last := cs[last] + 1];
    ghost var k := 0;
    while others[last] >= 0
      invariant 0 <= k < |chain| && last == chain[k]
      invariant |cs| == |cs0|
      invariant forall x :: 0 <= x < |cs| ==> cs[x] == cs0[x] + (if x in chain[..k + 1] then 1 else 0)
      decreases |chain| - k
    {
      LinkedNext(others, chain, k);
      last := others[last];
      k := k + 1;
      assert chain[..k + 1] == chain[..k] + [last];
      cs := cs[last := cs[last] + 1];
    }
    LinkedNext(others, chain, k);
    assert chain[..k + 1] == chain;
  }

  // ----- Forest invariant -----

  /** 2 to the power -k. */
  function Half(k: nat): (h: real)
    ensures h > 0.0
  {
    if k == 0 then 1.0 else Half(k - 1) / 2.0
  }

  /** Kraft sum of the symbols below `k` whose root is `r`. */
  function Kraft(cs: seq<nat>, owner: seq<nat>, r: nat, k: nat): (s: real)
    requires k <= |cs| == |owner|
    ensures s >= 0.0
  {
    if k == 0 then 0.0
    else Kraft(cs, owner, r, k - 1) + (if owner[k - 1] == r then Half(cs[k - 1]) else 0.0)
  }

  /** Total weight of the live entries below `k`. */
  function LiveWeight(freq: seq<nat>, k: nat): (s: nat)
    requires k <= |freq|
  {
    if k == 0 then 0
    else LiveWeight(freq, k - 1) + (if freq[k - 1] <= LIMIT then freq[k - 1] else 0)
  }

  /** Symbols are partitioned into chains, one for each live root. */
  ghost predicate Shape(freq: seq<nat>, others: seq<int>, owner: seq<nat>, chains: seq<seq<nat>>) {
    var n := |freq|;
    && |others| == |owner| == |chains| == n
    && (forall x :: 0 <= x < n ==> owner[x] < n && freq[owner[x]] <= LIMIT)
    && (forall r :: 0 <= r < n && freq[r] <= LIMIT ==>
          Linked(others, chains[r]) && Distinct(chains[r]) && chains[r][0] == r)
    && (forall r, x :: 0 <= r < n && freq[r] <= LIMIT && 0 <= x < n ==> (x in chains[r] <==> owner[x] == r))
  }

  /** Every live tree has Kraft sum exactly one, and no weight was lost. */
  ghost predicate Complete(freq: seq<nat>, cs: seq<nat>, owner: seq<nat>, total: nat) {
    && |freq| == |cs| == |owner|
    && (forall r :: 0 <= r < |freq| && freq[r] <= LIMIT ==> Kraft(cs, owner, r, |cs|) == 1.0)
    && LiveWeight(freq, |freq|) == total <= LIMIT
  }

  lemma {:induction false} LiveAtMost(freq: seq<nat>, k: nat, r: nat)
    requires r < k <= |freq| && freq[r] <= LIMIT
    ensures freq[r] <= LiveWeight(freq, k)
  {
    if r < k - 1 {
      LiveAtMost(freq, k - 1, r);
    }
  }

  lemma {:induction false} LivePairAtMost(freq: seq<nat>, k: nat, a: nat, b: nat)
    requires a < k <= |freq| && b < k && a != b && freq[a] <= LIMIT && freq[b] <= LIMIT
    ensures freq[a] + freq[b] <= LiveWeight(freq, k)
  {
    if a == k - 1 {
      LiveAtMost(freq, k - 1, b);
    } else if b == k - 1 {
      LiveAtMost(freq, k - 1, a);
    } else {
      LivePairAtMost(freq, k - 1, a, b);
    }
  }

  lemma {:induction false} LiveAfterMerge(freq: seq<nat>, freq': seq<nat>, k: nat, a: nat, b: nat)
    requires a < |freq| && b < |freq| && a != b && freq[a] + freq[b] <= LIMIT
    requires freq' == freq[a := freq[a] + freq[b]][b := DEAD] && k <= |freq|
    ensures LiveWeight(freq', k) == LiveWeight(freq, k)
                                    + (if a < k then freq[b] else 0) - (if b < k then freq[b] else 0)
  {
    if k != 0 {
      LiveAfterMerge(freq, freq', k - 1, a, b);
    }
  }

  /** Lengthening two trees by one bit and joining them averages their Kraft sums. */
  lemma {:induction false} KraftOfMerge(cs: seq<nat>, cs': seq<nat>, owner: seq<nat>, owner': seq<nat>,
                                        a: nat, b: nat, k: nat)
    requires k <= |cs| == |cs'| == |owner| == |owner'| && a != b
    requires forall x :: 0 <= x < |cs| ==>
                cs'[x] == cs[x] + (if owner[x] == a || owner[x] == b then 1 else 0)
                && owner'[x] == if owner[x] == b then a else owner[x]
    ensures Kraft(cs', owner', a, k) == (Kraft(cs, owner, a, k) + Kraft(cs, owner, b, k)) / 2.0
    ensures forall r :: r != a && r != b ==> Kraft(cs', owner', r, k) == Kraft(cs, owner, r, k)
  {
    if k != 0 {
      KraftOfMerge(cs, cs', owner, owner', a, b, k - 1);
      forall r | r != a && r != b ensures Kraft(cs', owner', r, k) == Kraft(cs, owner, r, k) {
        assert Kraft(cs', owner', r, k - 1) == Kraft(cs, owner, r, k - 1);
      }
    }
  }

  lemma LinkedFrame(others: seq<int>, chain: seq<nat>, x: nat, v: int)
    requires Linked(others, chain) && x < |others| && x !in chain
    ensures Linked(others[x := v], chain)
  {
    assert forall j :: 0 <= j < |chain| ==> chain[j] != x;
  }

  lemma LinkedJoin(others: seq<int>, ca: seq<nat>, cb: seq<nat>)
    requires Linked(others, ca) && Distinct(ca) && Linked(others, cb) && Distinct(cb)
    requires forall x :: x in ca ==> x !in cb
    ensures Linked(others[ca[|ca| - 1] := cb[0]], ca + cb) && Distinct(ca + cb)
  {
    var last := ca[|ca| - 1];
    var others', c := others[last := cb[0]], ca + cb;
    LinkedFrame(others, cb, last, cb[0]);
    forall j | 0 <= j < |c| - 1 ensures others'[c[j]] == c[j + 1] {
      if j < |ca| - 1 {
        assert ca[j] != last && others[ca[j]] == ca[j + 1];
      } else if j >= |ca| {
        assert others'[cb[j - |ca|]] == cb[j - |ca| + 1];
      }
    }
    forall i, j | 0 <= i < j < |c| ensures c[i] != c[j] {
      if i < |ca| <= j {
        assert ca[i] in ca && cb[j - |ca|] in cb;
      }
    }
  }

  lemma LastOwned(freq: seq<nat>, others: seq<int>, owner: seq<nat>, chains: seq<seq<nat>>, a: nat)
    requires Shape(freq, others, owner, chains) && a < |freq| && freq[a] <= LIMIT
    ensures var last := chains[a][|chains[a]| - 1];
            last < |freq| && forall r :: 0 <= r < |freq| && freq[r] <= LIMIT && r != a ==> last !in chains[r]
  {
    var last := chains[a][|chains[a]| - 1];
    assert last in chains[a] && owner[last] == a;
  }

  lemma ChainsDisjoint(freq: seq<nat>, others: seq<int>, owner: seq<nat>, chains: seq<seq<nat>>, a: nat, b: nat)
    requires Shape(freq, others, owner, chains) && a < |freq| && b < |freq| && a != b
    requires freq[a] <= LIMIT && freq[b] <= LIMIT
    ensures forall x :: x in chains[a] ==> x !in chains[b]
  {
    forall x | x in chains[a] ensures x !in chains[b] {
      var j :| 0 <= j < |chains[a]| && chains[a][j] == x;
      assert x < |others| && owner[x] == a;
    }
  }

  /** Appending chain `b` to chain `a` keeps the partition. */
  lemma MergeShape(freq: seq<nat>, others: seq<int>, owner: seq<nat>, chains: seq<seq<nat>>,
                   freq': seq<nat>, owner': seq<nat>, a: nat, b: nat)
    requires Shape(freq, others, owner, chains)
    requires a < |freq| && b < |freq| && a != b && freq[a] + freq[b] <= LIMIT
    requires freq' == freq[a := freq[a] + freq[b]][b := DEAD] && |owner'| == |owner|
    requires forall x :: 0 <= x < |owner| ==> owner'[x] == if owner[x] == b then a else owner[x]
    ensures chains[a] != [] && chains[a][|chains[a]| - 1] < |others|
    ensures Shape(freq', others[chains[a][|chains[a]| - 1] := b], owner', chains[a := chains[a] + chains[b]])
  {
    var n, ca, cb := |freq|, chains[a], chains[b];
    LastOwned(freq, others, owner, chains, a);
    ChainsDisjoint(freq, others, owner, chains, a, b);
    var last := ca[|ca| - 1];
    LinkedJoin(others, ca, cb);
    var chains', others' := chains[a := ca + cb], others[last := b];
    forall r | 0 <= r < n && freq'[r] <= LIMIT
      ensures Linked(others', chains'[r]) && Distinct(chains'[r]) && chains'[r][0] == r
    {
      if r != a {
        LinkedFrame(others, chains[r], last, b);
      }
    }
    forall r, x | 0 <= r < n && freq'[r] <= LIMIT && 0 <= x < n ensures x in chains'[r] <==> owner'[x] == r {
    }
  }

  // ----- The last symbol is never shallower than another -----

  /** Least weight of a tree of height `h`: Fibonacci numbers 1, 2, 3, 5, 8, ... */
  function MinWeight(h: nat): (w: nat)
    ensures w >= 1
  {
    if h == 0 then 1 else if h == 1 then 2 else MinWeight(h - 1) + MinWeight(h - 2)
  }

  /**
   The last symbol `n - 1` (the pseudo-symbol, weight one) is at least as deep as every other symbol.
   Before the first merge all lengths are zero. Afterwards the tree `p` holding it was made from two
   trees `(wa, p)` and `(wb, ib)` that came first in selection order, every other live tree comes after
   `(wb, ib)`, and a tree as deep as `p` comes after `p`. The weights grow like Fibonacci numbers.
   */
  ghost predicate Deepest(freq: seq<nat>, cs: seq<nat>, owner: seq<nat>, wa: nat, wb: nat, ib: int) {
    var n := |freq|;
    && n > 0 && |cs| == n && OwnersOk(freq, owner)
    && var p, d := owner[n - 1], cs[n - 1];
    && (forall x :: 0 <= x < n ==> cs[x] <= d)
    && freq[p] >= MinWeight(d)
    && (d == 0 ==> freq[n - 1] == 1 && (forall x :: 0 <= x < n ==> owner[x] == x))
    && (d > 0 ==> wb >= MinWeight(d - 1) && MadeOf(freq, p, wa, wb, ib) && AsDeep(freq, cs, owner, p, d))
  }

  /** Every symbol belongs to a live tree, and no weight is zero. */
  ghost predicate OwnersOk(freq: seq<nat>, owner: seq<nat>) {
    && |owner| == |freq| && (forall r :: 0 <= r < |freq| ==> freq[r] > 0)
    && forall x :: 0 <= x < |owner| ==> owner[x] < |freq| && freq[owner[x]] <= LIMIT
  }

  /** Tree `p` was made from trees `(wa, p)` and `(wb, ib)`; every other live tree comes after the second. */
  ghost predicate MadeOf(freq: seq<nat>, p: nat, wa: nat, wb: nat, ib: int) {
    && p < |freq| && freq[p] == wa + wb && Before(wa, p, wb, ib)
    && forall r :: 0 <= r < |freq| && freq[r] <= LIMIT && r != p ==> Before(wb, ib, freq[r], r)
  }

  /** Symbols of depth `d` lie in tree `p` or in trees after it. */
  ghost predicate AsDeep(freq: seq<nat>, cs: seq<nat>, owner: seq<nat>, p: nat, d: nat) {
    && OwnersOk(freq, owner) && |cs| == |owner| && p < |freq|
    && forall x :: 0 <= x < |cs| && owner[x] != p && cs[x] == d ==> Before(freq[p], p, freq[owner[x]], owner[x])
  }

  /** The effect of merging tree `b` into tree `a` on weights, lengths and owners. */
  ghost predicate Merged(freq: seq<nat>, cs: seq<nat>, owner: seq<nat>,
                         freq': seq<nat>, cs': seq<nat>, owner': seq<nat>, a: nat, b: nat)
  {
    && |freq| == |cs| == |owner| == |cs'| == |owner'| && a < |freq| && b < |freq| && a != b
    && freq' == freq[a := freq[a] + freq[b]][b := DEAD] && freq[a] + freq[b] <= LIMIT
    && forall x :: 0 <= x < |cs| ==>
         && cs'[x] == cs[x] + (if owner[x] == a || owner[x] == b then 1 else 0)
         && owner'[x] == if owner[x] == b then a else owner[x]
  }

  lemma MergedOwners(freq: seq<nat>, cs: seq<nat>, owner: seq<nat>,
                     freq': seq<nat>, cs': seq<nat>, owner': seq<nat>, a: nat, b: nat)
    requires OwnersOk(freq, owner) && Merged(freq, cs, owner, freq', cs', owner', a, b)
    ensures OwnersOk(freq', owner')
  {
    forall x | 0 <= x < |owner'| ensures owner'[x] < |freq'| && freq'[owner'[x]] <= LIMIT {
      assert owner[x] < |freq| && freq[owner[x]] <= LIMIT;
    }
  }

  /** The first two trees in selection order. */
  lemma FirstTwo(freq: seq<nat>, a: nat, b: nat)
    requires TwoLeast(freq, |freq|, a, b)
    ensures a < |freq| && b < |freq| && a != b && freq[a] <= LIMIT && freq[b] <= LIMIT && Before(freq[a], a, freq[b], b)
    ensures forall r :: 0 <= r < |freq| && freq[r] <= LIMIT && r != a && r != b ==> Before(freq[b], b, freq[r], r)
  {
  }

  lemma MadeOfTwo(freq: seq<nat>, cs: seq<nat>, owner: seq<nat>,
                  freq': seq<nat>, cs': seq<nat>, owner': seq<nat>, a: nat, b: nat)
    requires TwoLeast(freq, |freq|, a, b) && Merged(freq, cs, owner, freq', cs', owner', a, b)
    ensures MadeOf(freq', a, freq[a], freq[b], b)
  {
    FirstTwo(freq, a, b);
    hide TwoLeast, Before;
  }

  /** A second tree waiting while the last symbol's tree has depth `d` has at least the weight of depth `d - 1`. */
  lemma SecondWeight(freq: seq<nat>, p: nat, q: nat, d: nat, wa: nat, wb: nat, ib: int)
    requires q < |freq| && q != p && 0 < freq[q] <= LIMIT
    requires d > 0 ==> wb >= MinWeight(d - 1) && MadeOf(freq, p, wa, wb, ib)
    ensures freq[q] >= if d == 0 then 1 else MinWeight(d - 1)
  {
    hide MinWeight;
  }

  lemma MergedWeight(d: nat, weight: nat, other: nat)
    requires weight >= MinWeight(d) && other >= if d == 0 then 1 else MinWeight(d - 1)
    ensures weight + other >= MinWeight(d + 1)
  {
  }

  /** Depths after a merge of the last symbol's tree: only its own symbols reach the new depth. */
  lemma MergedDepths(freq: seq<nat>, cs: seq<nat>, owner: seq<nat>,
                     freq': seq<nat>, cs': seq<nat>, owner': seq<nat>, a: nat, b: nat, d: nat)
    requires OwnersOk(freq', owner') && Merged(freq, cs, owner, freq', cs', owner', a, b)
    requires forall x :: 0 <= x < |cs| ==> cs[x] <= d
    ensures forall x :: 0 <= x < |cs'| ==> cs'[x] <= d + 1
    ensures AsDeep(freq', cs', owner', a, d + 1)
  {
  }

  /** The tree of the last symbol is one of the two merged trees. */
  lemma MergeWithLast(freq: seq<nat>, cs: seq<nat>, owner: seq<nat>,
                      freq': seq<nat>, cs': seq<nat>, owner': seq<nat>, a: nat, b: nat,
                      wa: nat, wb: nat, ib: int)
    requires Deepest(freq, cs, owner, wa, wb, ib) && TwoLeast(freq, |freq|, a, b)
    requires Merged(freq, cs, owner, freq', cs', owner', a, b)
    requires owner[|freq| - 1] == a || owner[|freq| - 1] == b
    ensures Deepest(freq', cs', owner', freq[a], freq[b], b)
  {
    hide TwoLeast, MadeOf, AsDeep, MinWeight;
    var n := |freq|;
    var p, d := owner[n - 1], cs[n - 1];
    var q := if p == a then b else a;
    FirstTwo(freq, a, b);
    MergedOwners(freq, cs, owner, freq', cs', owner', a, b);
    MergedDepths(freq, cs, owner, freq', cs', owner', a, b, d);
    MadeOfTwo(freq, cs, owner, freq', cs', owner', a, b);
    SecondWeight(freq, p, q, d, wa, wb, ib);
    MergedWeight(d, freq[p], freq[q]);
    HeavierSecond(freq, a, b, p, d);
  }

  lemma HeavierSecond(freq: seq<nat>, a: nat, b: nat, p: nat, d: nat)
    requires a < |freq| && b < |freq| && Before(freq[a], a, freq[b], b) && (p == a || p == b) && freq[p] >= MinWeight(d)
    ensures freq[b] >= MinWeight(d)
  {
    hide MinWeight;
  }

  /** A symbol of the last symbol's depth is in neither of two other trees that are merged first. */
  lemma NoneAsDeep(freq: seq<nat>, cs: seq<nat>, owner: seq<nat>, p: nat, d: nat, a: nat, b: nat)
    requires AsDeep(freq, cs, owner, p, d) && TwoLeast(freq, |freq|, a, b) && p != a && p != b && freq[p] <= LIMIT
    requires forall x :: 0 <= x < |cs| ==> cs[x] <= d
    ensures forall x :: 0 <= x < |cs| && (owner[x] == a || owner[x] == b) ==> cs[x] < d
  {
    FirstTwo(freq, a, b);
    hide TwoLeast;
  }

  lemma MergedAfter(freq: seq<nat>, cs: seq<nat>, owner: seq<nat>,
                    freq': seq<nat>, cs': seq<nat>, owner': seq<nat>, a: nat, b: nat, p: nat, d: nat)
    requires AsDeep(freq, cs, owner, p, d) && TwoLeast(freq, |freq|, a, b) && p != a && p != b && freq[p] <= LIMIT
    requires Merged(freq, cs, owner, freq', cs', owner', a, b) && OwnersOk(freq', owner')
    requires forall x :: 0 <= x < |cs| ==> cs[x] <= d
    requires Before(freq[p], p, freq[a] + freq[b], a)
    ensures forall x :: 0 <= x < |cs'| ==> cs'[x] <= d
    ensures AsDeep(freq', cs', owner', p, d)
  {
    NoneAsDeep(freq, cs, owner, p, d, a, b);
    hide TwoLeast, Before;
  }

  lemma StillMadeOf(freq: seq<nat>, cs: seq<nat>, owner: seq<nat>, freq': seq<nat>, cs': seq<nat>, owner': seq<nat>,
                    a: nat, b: nat, p: nat, wa: nat, wb: nat, ib: int)
    requires MadeOf(freq, p, wa, wb, ib) && p != a && p != b
    requires Merged(freq, cs, owner, freq', cs', owner', a, b) && freq[a] <= LIMIT && freq[b] <= LIMIT
    requires Before(wb, ib, freq[a] + freq[b], a)
    ensures MadeOf(freq', p, wa, wb, ib)
  {
    hide Before;
  }

  /** Both trees merged come after the second part of tree `p`, so their sum comes after `p`. */
  lemma SumComesAfter(freq: seq<nat>, a: nat, b: nat, p: nat, wa: nat, wb: nat, ib: int)
    requires MadeOf(freq, p, wa, wb, ib) && TwoLeast(freq, |freq|, a, b) && p != a && p != b && freq[p] <= LIMIT
    requires freq[a] > 0 && freq[b] > 0
    ensures Before(freq[p], p, freq[a] + freq[b], a) && Before(wb, ib, freq[a] + freq[b], a)
  {
    FirstTwo(freq, a, b);
    hide TwoLeast;
    assert Before(freq[b], b, freq[p], p);
    assert Before(wb, ib, freq[a], a) && Before(wb, ib, freq[b], b);
  }

  /** Two other trees are merged: the result comes after the tree of the last symbol. */
  lemma MergeWithoutLast(freq: seq<nat>, cs: seq<nat>, owner: seq<nat>,
                         freq': seq<nat>, cs': seq<nat>, owner': seq<nat>, a: nat, b: nat,
                         wa: nat, wb: nat, ib: int)
    requires Deepest(freq, cs, owner, wa, wb, ib) && TwoLeast(freq, |freq|, a, b)
    requires Merged(freq, cs, owner, freq', cs', owner', a, b)
    requires owner[|freq| - 1] != a && owner[|freq| - 1] != b
    ensures Deepest(freq', cs', owner', wa, wb, ib)
  {
    var n := |freq|;
    var p, d := owner[n - 1], cs[n - 1];
    LastIsMerged(freq, owner, cs, wa, wb, ib, a, b);
    hide TwoLeast, MadeOf, AsDeep, MinWeight, Before;
    FirstTwo(freq, a, b);
    MergedOwners(freq, cs, owner, freq', cs', owner', a, b);
    SumComesAfter(freq, a, b, p, wa, wb, ib);
    MergedAfter(freq, cs, owner, freq', cs', owner', a, b, p, d);
    StillMadeOf(freq, cs, owner, freq', cs', owner', a, b, p, wa, wb, ib);
  }

  /** The last symbol alone is the first in selection order, so it is merged at once. */
  lemma LastIsMerged(freq: seq<nat>, owner: seq<nat>, cs: seq<nat>, wa: nat, wb: nat, ib: int, a: nat, b: nat)
    requires Deepest(freq, cs, owner, wa, wb, ib) && TwoLeast(freq, |freq|, a, b)
    requires owner[|freq| - 1] != a && owner[|freq| - 1] != b
    ensures cs[|freq| - 1] > 0
  {
    FirstTwo(freq, a, b);
    hide TwoLeast, MinWeight;
  }

  /** Merging the two first trees in selection order keeps the last symbol deepest. */
  lemma DeepestStep(freq: seq<nat>, cs: seq<nat>, owner: seq<nat>,
                    freq': seq<nat>, cs': seq<nat>, owner': seq<nat>, a: nat, b: nat,
                    wa: nat, wb: nat, ib: int) returns (wa': nat, wb': nat, ib': int)
    requires Deepest(freq, cs, owner, wa, wb, ib) && TwoLeast(freq, |freq|, a, b)
    requires Merged(freq, cs, owner, freq', cs', owner', a, b)
    ensures Deepest(freq', cs', owner', wa', wb', ib')
  {
    if owner[|freq| - 1] == a || owner[|freq| - 1] == b {
      MergeWithLast(freq, cs, owner, freq', cs', owner', a, b, wa, wb, ib);
      wa', wb', ib' := freq[a], freq[b], b;
    } else {
      MergeWithoutLast(freq, cs, owner, freq', cs', owner', a, b, wa, wb, ib);
      wa', wb', ib' := wa, wb, ib;
    }
  }

  // ----- The merge loop -----

  /** Kraft sum of the symbols below `k`. */
  function KraftAll(cs: seq<nat>, k: nat): (s: real)
    requires k <= |cs|
  {
    if k == 0 then 0.0 else KraftAll(cs, k - 1) + Half(cs[k - 1])
  }

  function Sum(freq: seq<nat>, k: nat): (s: nat)
    requires k <= |freq|
  {
    if k == 0 then 0 else Sum(freq, k - 1) + freq[k - 1]
  }

  function LiveCount(freq: seq<nat>, k: nat): (s: nat)
    requires k <= |freq|
  {
    if k == 0 then 0 else LiveCount(freq, k - 1) + (if freq[k - 1] <= LIMIT then 1 else 0)
  }

  lemma {:induction false} LiveCountAfterMerge(freq: seq<nat>, freq': seq<nat>, k: nat, a: nat, b: nat)
    requires a < |freq| && b < |freq| && a != b && freq[a] + freq[b] <= LIMIT
    requires freq' == freq[a := freq[a] + freq[b]][b := DEAD] && k <= |freq|
    ensures LiveCount(freq', k) == LiveCount(freq, k) - (if b < k then 1 else 0)
  {
    if k != 0 {
      LiveCountAfterMerge(freq, freq', k - 1, a, b);
    }
  }

  lemma {:induction false} InitialKraft(cs: seq<nat>, owner: seq<nat>, r: nat, k: nat)
    requires k <= |cs| == |owner| && r < |cs|
    requires forall x :: 0 <= x < |cs| ==> cs[x] == 0 && owner[x] == x
    ensures Kraft(cs, owner, r, k) == if r < k then 1.0 else 0.0
  {
    if k != 0 {
      InitialKraft(cs, owner, r, k - 1);
    }
  }

  lemma {:induction false} InitialWeight(freq: seq<nat>, k: nat)
    requires k <= |freq| && Sum(freq, |freq|) <= LIMIT
    ensures Sum(freq, k) <= Sum(freq, |freq|)
    ensures LiveWeight(freq, k) == Sum(freq, k)
    ensures forall x :: 0 <= x < k ==> freq[x] <= LIMIT
    decreases |freq| - k
  {
    SumMono(freq, k, |freq|);
    InitialWeightUpTo(freq, k);
  }

  lemma {:induction false} SumMono(freq: seq<nat>, j: nat, k: nat)
    requires j <= k <= |freq|
    ensures Sum(freq, j) <= Sum(freq, k)
  {
    if j < k {
      SumMono(freq, j, k - 1);
    }
  }

  lemma {:induction false} InitialWeightUpTo(freq: seq<nat>, k: nat)
    requires k <= |freq| && Sum(freq, k) <= LIMIT
    ensures LiveWeight(freq, k) == Sum(freq, k)
    ensures forall x :: 0 <= x < k ==> freq[x] <= LIMIT
  {
    if k != 0 {
      InitialWeightUpTo(freq, k - 1);
    }
  }

  /** When a single tree is left, its Kraft sum is that of all symbols. */
  lemma {:induction false} SingleTreeKraft(cs: seq<nat>, owner: seq<nat>, r: nat, k: nat)
    requires k <= |cs| == |owner| && forall x :: 0 <= x < |cs| ==> owner[x] == r
    ensures Kraft(cs, owner, r, k) == KraftAll(cs, k)
  {
    if k != 0 {
      SingleTreeKraft(cs, owner, r, k - 1);
    }
  }

  lemma InitialShape(freq: seq<nat>, others: seq<int>, owner: seq<nat>, chains: seq<seq<nat>>)
    requires forall x :: 0 <= x < |freq| ==> freq[x] <= LIMIT
    requires |others| == |owner| == |chains| == |freq|
    requires forall x :: 0 <= x < |freq| ==> others[x] == -1 && owner[x] == x && chains[x] == [x]
    ensures Shape(freq, others, owner, chains)
  {
  }

  lemma InitialComplete(freq: seq<nat>, cs: seq<nat>, owner: seq<nat>)
    requires |freq| == |cs| == |owner| && Sum(freq, |freq|) <= LIMIT
    requires forall x :: 0 <= x < |freq| ==> cs[x] == 0 && owner[x] == x
    ensures Complete(freq, cs, owner, Sum(freq, |freq|))
  {
    InitialWeight(freq, |freq|);
    forall r | 0 <= r < |freq| ensures Kraft(cs, owner, r, |cs|) == 1.0 {
      InitialKraft(cs, owner, r, |cs|);
    }
  }

  lemma InitialForest(freq: seq<nat>, cs: seq<nat>, others: seq<int>)
    returns (owner: seq<nat>, chains: seq<seq<nat>>)
    requires |freq| > 0 && Sum(freq, |freq|) <= LIMIT && freq[|freq| - 1] == 1
    requires forall x :: 0 <= x < |freq| ==> freq[x] > 0
    requires |cs| == |others| == |freq| && forall x :: 0 <= x < |freq| ==> cs[x] == 0 && others[x] == -1
    ensures Shape(freq, others, owner, chains) && Complete(freq, cs, owner, Sum(freq, |freq|))
    ensures Deepest(freq, cs, owner, 0, 0, 0) && forall x :: 0 <= x < |owner| ==> owner[x] == x
  {
    var n := |freq|;
    owner := seq(n, x => x);
    chains := seq(n, x requires 0 <= x < n => var c: seq<nat> := [x]; c);
    InitialWeight(freq, n);
    InitialShape(freq, others, owner, chains);
    InitialComplete(freq, cs, owner);
  }

  /** One merge keeps every live tree's Kraft sum at one, loses no weight and removes one tree. */
  lemma MergeComplete(freq: seq<nat>, cs: seq<nat>, owner: seq<nat>,
                      freq': seq<nat>, cs': seq<nat>, owner': seq<nat>, total: nat, a: nat, b: nat)
    requires Complete(freq, cs, owner, total) && Merged(freq, cs, owner, freq', cs', owner', a, b)
    ensures Complete(freq', cs', owner', total)
    ensures LiveCount(freq', |freq'|) < LiveCount(freq, |freq|)
  {
    LiveAfterMerge(freq, freq', |freq|, a, b);
    LiveCountAfterMerge(freq, freq', |freq|, a, b);
    KraftOfMerge(cs, cs', owner, owner', a, b, |cs|);
  }

  lemma OneTreeLeft(freq: seq<nat>, cs: seq<nat>, owner: seq<nat>, total: nat, c1: int)
    requires |freq| > 0 && Complete(freq, cs, owner, total) && TwoLeast(freq, |freq|, c1, -1)
    requires forall x :: 0 <= x < |freq| ==> owner[x] < |freq| && freq[owner[x]] <= LIMIT
    ensures KraftAll(cs, |cs|) == 1.0
    ensures total >= freq[owner[|freq| - 1]]
  {
    var r := owner[|freq| - 1];
    LiveAtMost(freq, |freq|, r);
    SingleTreeKraft(cs, owner, r, |cs|);
  }

  // ----- Least total length -----

  /** Weight of the symbols below `k` whose root is `r`. */
  function Owned(freq0: seq<nat>, owner: seq<nat>, r: nat, k: nat): (s: nat)
    requires k <= |freq0| == |owner|
  {
    if k == 0 then 0 else Owned(freq0, owner, r, k - 1) + (if owner[k - 1] == r then freq0[k - 1] else 0)
  }

  /** The total length of a text with these frequencies, coded with these lengths. */
  function TotalLength(freq0: seq<nat>, cs: seq<nat>): (c: nat)
    requires |freq0| == |cs|
  {
    HuffmanOptimal.Cost(freq0, LIMIT, cs, |cs|)
  }

  /** The weight of a live tree is that of its symbols. */
  ghost predicate Weighs(freq0: seq<nat>, freq: seq<nat>, owner: seq<nat>) {
    && |freq0| == |freq| == |owner|
    && forall r :: 0 <= r < |freq| && freq[r] <= LIMIT ==> freq[r] == Owned(freq0, owner, r, |freq|)
  }

  lemma {:induction false} OwnedAlone(freq0: seq<nat>, owner: seq<nat>, r: nat, k: nat)
    requires k <= |freq0| == |owner| && r < |owner| && forall x :: 0 <= x < |owner| ==> owner[x] == x
    ensures Owned(freq0, owner, r, k) == if r < k then freq0[r] else 0
  {
    if k != 0 {
      OwnedAlone(freq0, owner, r, k - 1);
    }
  }

  lemma WeighsStart(freq: seq<nat>, owner: seq<nat>)
    requires |freq| == |owner| && forall x :: 0 <= x < |owner| ==> owner[x] == x
    ensures Weighs(freq, freq, owner)
  {
    forall r | 0 <= r < |freq| ensures freq[r] == Owned(freq, owner, r, |freq|) {
      OwnedAlone(freq, owner, r, |freq|);
    }
  }

  lemma {:induction false} OwnedOfMerge(freq0: seq<nat>, owner: seq<nat>, owner': seq<nat>, a: nat, b: nat, r: nat,
                                        k: nat)
    requires k <= |freq0| == |owner| == |owner'| && a != b
    requires forall x :: 0 <= x < |owner| ==> owner'[x] == if owner[x] == b then a else owner[x]
    ensures r == a ==> Owned(freq0, owner', r, k) == Owned(freq0, owner, a, k) + Owned(freq0, owner, b, k)
    ensures r != a && r != b ==> Owned(freq0, owner', r, k) == Owned(freq0, owner, r, k)
  {
    if k != 0 {
      OwnedOfMerge(freq0, owner, owner', a, b, r, k - 1);
    }
  }

  lemma WeighsStep(freq0: seq<nat>, freq: seq<nat>, cs: seq<nat>, owner: seq<nat>,
                   freq': seq<nat>, cs': seq<nat>, owner': seq<nat>, a: nat, b: nat)
    requires Weighs(freq0, freq, owner) && Merged(freq, cs, owner, freq', cs', owner', a, b)
    requires freq[a] <= LIMIT && freq[b] <= LIMIT
    ensures Weighs(freq0, freq', owner')
  {
    forall r | 0 <= r < |freq'| && freq'[r] <= LIMIT ensures freq'[r] == Owned(freq0, owner', r, |freq'|) {
      OwnedOfMerge(freq0, owner, owner', a, b, r, |freq|);
    }
  }

  /** A merge adds its weight to the total length. */
  lemma {:induction false} CostOfMerge(freq0: seq<nat>, cs: seq<nat>, cs': seq<nat>, owner: seq<nat>, a: nat, b: nat,
                                       k: nat)
    requires k <= |freq0| == |cs| == |cs'| == |owner| && a != b
    requires forall x :: 0 <= x < |freq0| ==> freq0[x] <= LIMIT
    requires forall x :: 0 <= x < |cs| ==> cs'[x] == cs[x] + (if owner[x] == a || owner[x] == b then 1 else 0)
    ensures HuffmanOptimal.Cost(freq0, LIMIT, cs', k)
         == HuffmanOptimal.Cost(freq0, LIMIT, cs, k) + Owned(freq0, owner, a, k) + Owned(freq0, owner, b, k)
  {
    if k != 0 {
      CostOfMerge(freq0, cs, cs', owner, a, b, k - 1);
      OneLonger(freq0[k - 1], cs[k - 1]);
    }
  }

  lemma OneLonger(w: nat, l: nat)
    ensures w * (l + 1) == w * l + w
  {
  }

  lemma {:induction false} CostZero(freq: seq<nat>, cs: seq<nat>, k: nat)
    requires k <= |freq| == |cs| && forall x :: 0 <= x < |cs| ==> cs[x] == 0
    ensures HuffmanOptimal.Cost(freq, LIMIT, cs, k) == 0
  {
    if k != 0 {
      CostZero(freq, cs, k - 1);
    }
  }

  lemma {:induction false} HalfOfPower(l: nat, m: nat)
    requires l <= m
    ensures Half(l) * Bits.Pow2(m) as real == Bits.Pow2(m - l) as real
  {
    if l != 0 {
      HalfOfPower(l - 1, m);
      assert Bits.Pow2(m - (l - 1)) == 2 * Bits.Pow2(m - l);
      HalfTimes(Half(l - 1), Bits.Pow2(m) as real);
    }
  }

  lemma HalfTimes(h: real, p: real)
    ensures h / 2.0 * p == h * p / 2.0
  {
  }

  lemma {:induction false} KraftSpace(freq: seq<nat>, d: seq<nat>, m: nat, k: nat)
    requires k <= |freq| == |d| && (forall x :: 0 <= x < |d| ==> freq[x] <= LIMIT && d[x] <= m)
    ensures KraftAll(d, k) * Bits.Pow2(m) as real == HuffmanOptimal.Space(freq, LIMIT, d, m, k) as real
  {
    hide Half, Bits.Pow2;
    if k != 0 {
      KraftSpace(freq, d, m, k - 1);
      HalfOfPower(d[k - 1], m);
      SpaceStep(KraftAll(d, k - 1), Half(d[k - 1]), Bits.Pow2(m), HuffmanOptimal.Space(freq, LIMIT, d, m, k - 1),
                Bits.Pow2(m - d[k - 1]));
    }
  }

  lemma SpaceStep(x: real, y: real, p: nat, s: nat, q: nat)
    requires x * p as real == s as real && y * p as real == q as real
    ensures (x + y) * p as real == (s + q) as real
  {
    SumTimes(x, y, p as real);
  }

  lemma SumTimes(x: real, y: real, p: real)
    ensures (x + y) * p == x * p + y * p
  {
  }

  lemma AtMostOne(x: real, p: nat)
    requires x <= 1.0
    ensures x * p as real <= p as real
  {
  }

  lemma {:induction false} Longest(d: seq<nat>) returns (m: nat)
    ensures forall x :: 0 <= x < |d| ==> d[x] <= m
  {
    if d == [] {
      m := 0;
    } else {
      var m' := Longest(d[..|d| - 1]);
      m := if d[|d| - 1] > m' then d[|d| - 1] else m';
    }
  }

  /** Lengths with a Kraft sum of at most one fit into some code space. */
  lemma KraftFits(freq: seq<nat>, d: seq<nat>) returns (m: nat)
    requires |freq| == |d| && (forall x :: 0 <= x < |freq| ==> freq[x] <= LIMIT) && KraftAll(d, |d|) <= 1.0
    ensures HuffmanOptimal.Fits(freq, LIMIT, d, m)
  {
    hide Bits.Pow2, KraftAll, HuffmanOptimal.Space;
    m := Longest(d);
    KraftSpace(freq, d, m, |d|);
    AtMostOne(KraftAll(d, |d|), Bits.Pow2(m));
    NotAbove(HuffmanOptimal.Space(freq, LIMIT, d, m, |d|), Bits.Pow2(m), KraftAll(d, |d|) * Bits.Pow2(m) as real);
  }

  lemma NotAbove(s: nat, p: nat, x: real)
    requires x == s as real && x <= p as real
    ensures s <= p
  {
  }

  /** Selection finds the two least entries. */
  lemma FoundLeast(freq: seq<nat>, a: int, b: int)
    requires TwoLeast(freq, |freq|, a, b) && b >= 0
    ensures a >= 0 && HuffmanOptimal.Least(freq, LIMIT, a, b)
  {
  }

  lemma OptimalStart(freq: seq<nat>, cs: seq<nat>, owner: seq<nat>)
    requires |freq| == |cs| == |owner| && Sum(freq, |freq|) <= LIMIT
    requires forall x :: 0 <= x < |cs| ==> cs[x] == 0 && owner[x] == x
    ensures Weighs(freq, freq, owner) && HuffmanOptimal.Best(freq, freq, LIMIT, TotalLength(freq, cs))
    ensures forall x :: 0 <= x < |freq| ==> freq[x] <= LIMIT
  {
    hide HuffmanOptimal.Best;
    WeighsStart(freq, owner);
    CostZero(freq, cs, |cs|);
    HuffmanOptimal.BestStart(freq, LIMIT);
    forall x | 0 <= x < |freq| ensures freq[x] <= LIMIT {
      SumMono(freq, x + 1, |freq|);
    }
  }

  /** No lengths that satisfy Kraft's inequality have a smaller total. */
  ghost predicate Shortest(freq0: seq<nat>, cs: seq<nat>)
    requires |freq0| == |cs|
  {
    forall d: seq<nat> :: |d| == |freq0| && KraftAll(d, |d|) <= 1.0 ==> TotalLength(freq0, cs) <= TotalLength(freq0, d)
  }

  /** In the end the lengths are no worse than any that satisfy Kraft's inequality. */
  lemma NothingShorter(freq0: seq<nat>, freq: seq<nat>, cs: seq<nat>)
    requires |cs| == |freq0| && HuffmanOptimal.Best(freq0, freq, LIMIT, TotalLength(freq0, cs))
    requires forall x :: 0 <= x < |freq0| ==> freq0[x] <= LIMIT
    ensures Shortest(freq0, cs)
  {
    forall d: seq<nat> | |d| == |freq0| && KraftAll(d, |d|) <= 1.0
      ensures TotalLength(freq0, cs) <= TotalLength(freq0, d) {
      var m := KraftFits(freq0, d);
      HuffmanOptimal.BestEnd(freq0, freq, LIMIT, TotalLength(freq0, cs), d, m);
    }
  }

  /** One merge keeps the bookkeeping of weights and the best code within reach. */
  lemma OptimalStep(freq0: seq<nat>, freq: seq<nat>, cs: seq<nat>, owner: seq<nat>,
                    freq': seq<nat>, cs': seq<nat>, owner': seq<nat>, a: nat, b: nat)
    requires Weighs(freq0, freq, owner) && Merged(freq, cs, owner, freq', cs', owner', a, b)
    requires TwoLeast(freq, |freq|, a, b) && (forall x :: 0 <= x < |freq0| ==> freq0[x] <= LIMIT)
    requires HuffmanOptimal.Best(freq0, freq, LIMIT, TotalLength(freq0, cs))
    ensures Weighs(freq0, freq', owner') && HuffmanOptimal.Best(freq0, freq', LIMIT, TotalLength(freq0, cs'))
  {
    hide HuffmanOptimal.Best;
    FoundLeast(freq, a, b);
    WeighsStep(freq0, freq, cs, owner, freq', cs', owner', a, b);
    CostOfMerge(freq0, cs, cs', owner, a, b, |freq|);
    HuffmanOptimal.BestStep(freq0, freq, LIMIT, TotalLength(freq0, cs), a, b);
    assert freq' == HuffmanOptimal.Merged(freq, LIMIT, a, b);
  }

  ghost function Reowned(owner: seq<nat>, a: nat, b: nat): (o: seq<nat>)
    ensures |o| == |owner| && forall x :: 0 <= x < |owner| ==> o[x] == if owner[x] == b then a else owner[x]
  {
    seq(|owner|, x requires 0 <= x < |owner| => if owner[x] == b then a else owner[x])
  }

  /** Merges tree `c2` into tree `c1`: adds the weights, lengthens both trees and links them. */
  method MergeOnce(freq: seq<nat>, cs: seq<nat>, others: seq<int>, c1: nat, c2: nat,
                   ghost owner: seq<nat>, ghost chains: seq<seq<nat>>)
    returns (freq': seq<nat>, cs': seq<nat>, others': seq<int>,
             ghost owner': seq<nat>, ghost chains': seq<seq<nat>>)
    requires Shape(freq, others, owner, chains) && |cs| == |freq|
    requires c1 < |freq| && c2 < |freq| && c1 != c2 && freq[c1] + freq[c2] <= LIMIT
    ensures Merged(freq, cs, owner, freq', cs', owner', c1, c2)
    ensures Shape(freq', others', owner', chains')
  {
    freq' := freq[c1 := freq[c1] + freq[c2]];
    freq' := freq'[c2 := DEAD];
    var mid, last := BumpChain(cs, others, c1, chains[c1]);
    others' := others[last := c2];
    LastOwned(freq, others, owner, chains, c1);
    LinkedFrame(others, chains[c2], last, c2);
    cs', last := BumpChain(mid, others', c2, chains[c2]);
    owner', chains' := Reowned(owner, c1, c2), chains[c1 := chains[c1] + chains[c2]];
    MergeShape(freq, others, owner, chains, freq', owner', c1, c2);
  }

  // ----- The lengths as a function -----

  /** Weights, lengths and roots during merging. */
  datatype Forest = Forest(freq: seq<nat>, cs: seq<nat>, owner: seq<nat>)

  ghost predicate ForestOk(f: Forest) {
    |f.freq| == |f.cs| == |f.owner|
  }

  ghost function MergeStep(f: Forest, a: nat, b: nat): (f': Forest)
    requires ForestOk(f) && a < |f.freq| && b < |f.freq|
    ensures ForestOk(f') && |f'.freq| == |f.freq|
  {
    Forest(f.freq[a := f.freq[a] + f.freq[b]][b := DEAD],
           seq(|f.cs|, x requires 0 <= x < |f.cs| =>
             f.cs[x] + (if f.owner[x] == a || f.owner[x] == b then 1 else 0)),
           Reowned(f.owner, a, b))
  }

  lemma {:induction false} FewerLive(freq: seq<nat>, w: nat, k: nat, a: nat, b: nat)
    requires a < |freq| && b < |freq| && a != b && k <= |freq| && freq[a] <= LIMIT && freq[b] <= LIMIT
    ensures LiveCount(freq[a := w][b := DEAD], k) <= LiveCount(freq, k) - (if b < k then 1 else 0)
  {
    if k != 0 {
      FewerLive(freq, w, k - 1, a, b);
    }
  }

  /** The lengths that merging to the end gives. */
  ghost function Finish(f: Forest): (cs: seq<nat>)
    requires ForestOk(f)
    ensures |cs| == |f.cs|
    decreases LiveCount(f.freq, |f.freq|)
  {
    var (a, b) := Select(f.freq, |f.freq|);
    if b < 0 then f.cs
    else
      FewerLive(f.freq, f.freq[a] + f.freq[b], |f.freq|, a, b);
      Finish(MergeStep(f, a, b))
  }

  ghost function Start(freq: seq<nat>): (f: Forest)
    ensures ForestOk(f) && f.freq == freq
  {
    Forest(freq, seq(|freq|, x => 0), seq(|freq|, x requires 0 <= x < |freq| => x))
  }

  /** The code lengths of the merge loop. */
  ghost function Lengths(freq: seq<nat>): (cs: seq<nat>)
    ensures |cs| == |freq|
  {
    Finish(Start(freq))
  }

  lemma StepMerges(f: Forest, a: nat, b: nat)
    requires ForestOk(f) && a < |f.freq| && b < |f.freq| && a != b && f.freq[a] + f.freq[b] <= LIMIT
    ensures var f' := MergeStep(f, a, b);
            Merged(f.freq, f.cs, f.owner, f'.freq, f'.cs, f'.owner, a, b)
  {
  }

  /** Kraft's equality, no symbol deeper than the last, the Fibonacci weight, and the least total length. */
  ghost predicate GoodLengths(freq0: seq<nat>, cs: seq<nat>) {
    && |cs| == |freq0| > 0 && KraftAll(cs, |cs|) == 1.0
    && (forall x :: 0 <= x < |cs| ==> cs[x] <= cs[|cs| - 1])
    && Sum(freq0, |freq0|) >= MinWeight(cs[|cs| - 1])
    && Shortest(freq0, cs)
  }

  /** Merging to the end from a state that satisfies the invariants gives good lengths. */
  lemma {:induction false} FinishGood(freq0: seq<nat>, f: Forest, wa: nat, wb: nat, ib: int)
    requires ForestOk(f) && Complete(f.freq, f.cs, f.owner, Sum(freq0, |freq0|)) && |f.freq| > 0
    requires Deepest(f.freq, f.cs, f.owner, wa, wb, ib) && Weighs(freq0, f.freq, f.owner)
    requires |freq0| == |f.cs| && HuffmanOptimal.Best(freq0, f.freq, LIMIT, TotalLength(freq0, f.cs))
    requires forall x :: 0 <= x < |freq0| ==> freq0[x] <= LIMIT
    ensures GoodLengths(freq0, Finish(f))
    decreases LiveCount(f.freq, |f.freq|)
  {
    hide Select, HuffmanOptimal.Best, Weighs, HuffmanOptimal.Cost, TotalLength, KraftAll, Kraft, MinWeight, Merged,
         Deepest,
         Complete, MergeStep;
    var n := |f.freq|;
    var (a, b) := Select(f.freq, n);
    DeepestBounds(f.freq, f.cs, f.owner, wa, wb, ib);
    if b < 0 {
      OneTreeLeft(f.freq, f.cs, f.owner, Sum(freq0, |freq0|), a);
      NothingShorter(freq0, f.freq, f.cs);
    } else {
      LivePairBound(f.freq, f.cs, f.owner, Sum(freq0, |freq0|), a, b);
      FewerLive(f.freq, f.freq[a] + f.freq[b], n, a, b);
      StepMerges(f, a, b);
      var f' := MergeStep(f, a, b);
      StepWeights(f, a, b);
      MergeComplete(f.freq, f.cs, f.owner, f'.freq, f'.cs, f'.owner, Sum(freq0, |freq0|), a, b);
      OptimalStep(freq0, f.freq, f.cs, f.owner, f'.freq, f'.cs, f'.owner, a, b);
      var wa', wb', ib' := DeepestStep(f.freq, f.cs, f.owner, f'.freq, f'.cs, f'.owner, a, b, wa, wb, ib);
      FinishGood(freq0, f', wa', wb', ib');
    }
  }

  lemma StepWeights(f: Forest, a: nat, b: nat)
    requires ForestOk(f) && a < |f.freq| && b < |f.freq|
    ensures MergeStep(f, a, b).freq == f.freq[a := f.freq[a] + f.freq[b]][b := DEAD]
  {
  }

  lemma LivePairBound(freq: seq<nat>, cs: seq<nat>, owner: seq<nat>, total: nat, a: int, b: int)
    requires Complete(freq, cs, owner, total) && TwoLeast(freq, |freq|, a, b) && b >= 0
    ensures 0 <= a < |freq| && b < |freq| && a != b && freq[a] <= LIMIT && freq[b] <= LIMIT
    ensures freq[a] + freq[b] <= LIMIT
  {
    LivePairAtMost(freq, |freq|, a, b);
  }

  lemma DeepestBounds(freq: seq<nat>, cs: seq<nat>, owner: seq<nat>, wa: nat, wb: nat, ib: int)
    requires Deepest(freq, cs, owner, wa, wb, ib)
    ensures |cs| == |owner| == |freq| > 0
    ensures forall x :: 0 <= x < |cs| ==> owner[x] < |freq| && freq[owner[x]] <= LIMIT && cs[x] <= cs[|cs| - 1]
    ensures freq[owner[|freq| - 1]] >= MinWeight(cs[|cs| - 1])
  {
  }

  /** The lengths of the merge loop, for weights whose last entry is the pseudo-symbol of weight one. */
  lemma LengthsGood(freq0: seq<nat>)
    requires |freq0| > 0 && Sum(freq0, |freq0|) <= LIMIT && freq0[|freq0| - 1] == 1
    requires forall x :: 0 <= x < |freq0| ==> freq0[x] > 0
    ensures GoodLengths(freq0, Lengths(freq0))
  {
    hide HuffmanOptimal.Best, Weighs, TotalLength, Deepest, Complete, Shape;
    var f := Start(freq0);
    var owner, chains := InitialForest(freq0, f.cs, seq(|freq0|, _ => -1));
    OptimalStart(freq0, f.cs, owner);
    StartIs(freq0, f.cs, owner);
    FinishGood(freq0, f, 0, 0, 0);
  }

  lemma StepIsMerge(f: Forest, f': Forest, a: nat, b: nat)
    requires ForestOk(f) && ForestOk(f') && Select(f.freq, |f.freq|) == (a, b)
    requires Merged(f.freq, f.cs, f.owner, f'.freq, f'.cs, f'.owner, a, b)
    ensures Finish(f') == Finish(f)
  {
    hide Select;
    assert MergeStep(f, a, b).cs == f'.cs && MergeStep(f, a, b).owner == f'.owner;
    assert MergeStep(f, a, b) == f';
  }

  lemma StartIs(freq: seq<nat>, cs: seq<nat>, owner: seq<nat>)
    requires |freq| == |cs| == |owner| && forall x :: 0 <= x < |cs| ==> cs[x] == 0 && owner[x] == x
    ensures Start(freq) == Forest(freq, cs, owner)
  {
    assert Start(freq).cs == cs && Start(freq).owner == owner;
  }

  lemma MergedSizes(freq: seq<nat>, cs: seq<nat>, owner: seq<nat>,
                    freq': seq<nat>, cs': seq<nat>, owner': seq<nat>, a: nat, b: nat)
    requires Merged(freq, cs, owner, freq', cs', owner', a, b)
    ensures |freq'| == |cs'| == |owner'| == |freq|
  {
  }

  lemma EndIs(f: Forest, a: int, b: int)
    requires ForestOk(f) && Select(f.freq, |f.freq|) == (a, b) && b < 0
    ensures Finish(f) == f.cs
  {
  }

  /**
   Code lengths for the given nonzero weights, whose last entry is the pseudo-symbol of weight one.
   The lengths satisfy Kraft's equality and have the least total length of all that satisfy Kraft's
   inequality; no symbol is deeper than the pseudo-symbol, and a code of length `h` needs a total weight
   of at least the matching Fibonacci number.
   */
  method CodeLengths(freq0: seq<nat>) returns (cs: seq<nat>)
    requires |freq0| > 0 && Sum(freq0, |freq0|) <= LIMIT && freq0[|freq0| - 1] == 1
    requires forall x :: 0 <= x < |freq0| ==> freq0[x] > 0
    ensures cs == Lengths(freq0) && GoodLengths(freq0, cs)
  {
    LengthsGood(freq0);
    hide GoodLengths, Select, Finish, Kraft, LiveWeight, LiveCount, Sum, Merged, Deepest, Complete, Shape, Lengths;
    var n := |freq0|;
    var freq, others := freq0, seq(n, _ => -1);
    cs := seq(n, _ => 0);
    ghost var total := Sum(freq0, n);
    ghost var owner, chains := InitialForest(freq, cs, others);
    StartIs(freq, cs, owner);
    while true
      invariant |freq| == |cs| == |owner| == n
      invariant Shape(freq, others, owner, chains)
      invariant Complete(freq, cs, owner, total)
      invariant Finish(Forest(freq, cs, owner)) == Lengths(freq0)
      decreases LiveCount(freq, |freq|)
    {
      var c1, c2 := FindTwoLeast(freq, n);
      if c2 < 0 {
        EndIs(Forest(freq, cs, owner), c1, c2);
        break;
      }
      LivePairBound(freq, cs, owner, total, c1, c2);
      ghost var freq1, cs1, owner1 := freq, cs, owner;
      freq, cs, others, owner, chains := MergeOnce(freq, cs, others, c1, c2, owner, chains);
      MergedSizes(freq1, cs1, owner1, freq, cs, owner, c1, c2);
      MergeComplete(freq1, cs1, owner1, freq, cs, owner, total, c1, c2);
      StepIsMerge(Forest(freq1, cs1, owner1), Forest(freq, cs, owner), c1, c2);
    }
  }
}
