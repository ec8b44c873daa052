/** Exactly how large a total frequency must be before some table needs a code longer than 32 bits. */
module HuffmanDepth {
  import opened HuffmanTree
  import opened HuffmanTable

  /** Entries of the deepest tree: 33 real symbols and the pseudo-symbol. */
  const N: nat := 34
  const LAST: nat := 32

  /** Weight of the symbol that joins the deepest tree at merge `i`; the last one takes what is left over. */
  function LeafWeight(i: nat, extra: nat): (w: nat)
    requires 1 <= i < N
    ensures w > 0
  {
    (if i == 1 then 1 else MinWeight(i - 2)) + (if i == N - 1 then extra else 0)
  }

  /** The weights in index order: heavy symbols first, the pseudo-symbol last. */
  function Weights(extra: nat): (w: seq<nat>)
    ensures |w| == N && w[N - 1] == 1 && forall x :: 0 <= x < N - 1 ==> w[x] == LeafWeight(N - 1 - x, extra)
    ensures forall x :: 0 <= x < N ==> w[x] > 0
  {
    seq(N, x requires 0 <= x < N => if x == N - 1 then 1 else LeafWeight(N - 1 - x, extra))
  }

  /** The root of the deepest tree after `i` merges. */
  function Root(i: nat): (r: nat)
    requires i <= LAST
    ensures N - 1 - i <= r < N
  {
    if i <= 1 then N - 1 else N - 1 - i
  }

  // ----- Fibonacci weights -----

  lemma {:induction false} MinWeightUp(a: nat, b: nat)
    requires a <= b
    ensures MinWeight(a) <= MinWeight(b) && (a < b ==> MinWeight(a) < MinWeight(b))
  {
    if a < b {
      MinWeightUp(a, b - 1);
    }
  }

  lemma LeafUp(i: nat, j: nat, extra: nat)
    requires 1 <= i <= j < N
    ensures LeafWeight(i, extra) <= LeafWeight(j, extra)
  {
    hide MinWeight;
    MinWeightUp(0, if j == 1 then 0 else j - 2);
    if i > 1 {
      MinWeightUp(i - 2, j - 2);
    }
  }

  lemma Values()
    ensures MinWeight(0) == 1 && MinWeight(1) == 2 && MinWeight(31) == 3524578 && MinWeight(32) == 5702887
    ensures MinWeight(33) == 9227465
  {
    First();
    hide MinWeight;
    Four(1, 2, 3);
    Four(5, 13, 21);
    Four(9, 89, 144);
    Four(13, 610, 987);
    Four(17, 4181, 6765);
    Four(21, 28657, 46368);
    Four(25, 196418, 317811);
    Four(29, 1346269, 2178309);
  }

  lemma First()
    ensures MinWeight(0) == 1 && MinWeight(1) == 2 && MinWeight(2) == 3
  {
  }

  lemma Four(h: nat, a: nat, b: nat)
    requires h >= 1 && MinWeight(h) == a && MinWeight(h + 1) == b
    ensures MinWeight(h + 2) == a + b && MinWeight(h + 3) == a + 2 * b
    ensures MinWeight(h + 4) == 2 * a + 3 * b && MinWeight(h + 5) == 3 * a + 5 * b
  {
    assert MinWeight(h + 2) == a + b;
    assert MinWeight(h + 3) == a + 2 * b;
  }

  /** Every weight of the family stays within the limit of live weights. */
  lemma WithinLimit(i: nat, extra: nat)
    requires 1 <= i < N && extra <= LIMIT - 9227465
    ensures LeafWeight(i, extra) <= LIMIT && MinWeight(i - 1) <= LIMIT
  {
    hide MinWeight;
    Values();
    LeafUp(i, N - 1, extra);
    MinWeightUp(i - 1, 32);
  }

  // ----- The merges -----

  /** After `i` merges the last `i + 1` entries form one tree, with the pseudo-symbol `i` levels down. */
  ghost predicate ChainState(f: Forest, i: nat, extra: nat) {
    && i <= LAST && ForestOk(f) && |f.freq| == N
    && (forall x :: 0 <= x < N - 1 - i ==> f.freq[x] == LeafWeight(N - 1 - x, extra))
    && (forall x :: N - 1 - i <= x < N && x != Root(i) ==> f.freq[x] == DEAD)
    && f.freq[Root(i)] == MinWeight(i)
    && f.owner[N - 1] == Root(i) && f.cs[N - 1] == i
  }

  /** The pair merged next: the symbol at `leaf` and the tree; only the very first time does the tree come first. */
  function Pair(i: nat): (p: (int, int))
    requires i < LAST
  {
    if i == 0 then (Root(0), N - 2) else (N - 2 - i, Root(i))
  }

  /** All symbols still waiting come after the next symbol and after the tree. */
  lemma Waiting(f: Forest, i: nat, extra: nat, x: nat)
    requires ChainState(f, i, extra) && i < LAST && x < N - 2 - i && extra <= LIMIT - 9227465
    ensures f.freq[x] <= LIMIT && Before(f.freq[N - 2 - i], N - 2 - i, f.freq[x], x)
    ensures Before(f.freq[Root(i)], Root(i), f.freq[x], x)
  {
    hide MinWeight;
    Values();
    WithinLimit(N - 1 - x, extra);
    LeafUp(i + 1, N - 1 - x, extra);
    LeafUp(i + 2, N - 1 - x, extra);
  }

  /** A symbol joining the tree adds what the Fibonacci weight of the tree grows by. */
  lemma LeafGrows(i: nat, extra: nat)
    requires 1 <= i <= LAST
    ensures MinWeight(i) == MinWeight(i - 1) + LeafWeight(i, extra)
  {
    First();
  }

  lemma NextPair(f: Forest, i: nat, extra: nat)
    requires ChainState(f, i, extra) && i < LAST && extra <= LIMIT - 9227465
    ensures Select(f.freq, N) == Pair(i)
    ensures f.freq[N - 2 - i] + f.freq[Root(i)] == MinWeight(i + 1)
  {
    hide Select, MinWeight;
    First();
    LeafGrows(i + 1, extra);
    WithinLimit(i + 1, extra);
    if i > 0 {
      MinWeightUp(i - 1, i);
    }
    forall x | 0 <= x < N && f.freq[x] <= LIMIT && x != N - 2 - i && x != Root(i)
      ensures Before(f.freq[N - 2 - i], N - 2 - i, f.freq[x], x) && Before(f.freq[Root(i)], Root(i), f.freq[x], x)
    {
      Waiting(f, i, extra, x);
    }
    SelectUnique(f.freq, N, Pair(i).0, Pair(i).1);
  }

  lemma ChainStep(f: Forest, i: nat, extra: nat)
    requires ChainState(f, i, extra) && i < LAST && extra <= LIMIT - 9227465
    ensures Select(f.freq, N) == Pair(i) && ChainState(MergeStep(f, Pair(i).0, Pair(i).1), i + 1, extra)
  {
    hide Select;
    NextPair(f, i, extra);
    hide MinWeight;
  }

  lemma FinishStep(f: Forest, a: nat, b: nat)
    requires ForestOk(f) && Select(f.freq, |f.freq|) == (a, b)
    ensures a < |f.freq| && b < |f.freq| && Finish(f) == Finish(MergeStep(f, a, b))
  {
    hide Select, MergeStep;
  }

  /** The last symbol and the tree are merged, whichever comes first. */
  lemma LastMerge(f: Forest, extra: nat)
    requires ChainState(f, LAST, extra) && extra <= LIMIT - 9227465
    ensures |Finish(f)| == N && Finish(f)[N - 1] == 33
  {
    hide Select, Finish;
    Values();
    hide MinWeight;
    var first := f.freq[0] < f.freq[1];
    var a, b := if first then 0 else 1, if first then 1 else 0;
    SelectUnique(f.freq, N, a, b);
    FinishStep(f, a, b);
    var f' := MergeStep(f, a, b);
    SelectUnique(f'.freq, N, a, -1);
    EndIs(f', a, -1);
  }

  lemma {:induction false} ChainEnd(f: Forest, i: nat, extra: nat)
    requires ChainState(f, i, extra) && extra <= LIMIT - 9227465
    ensures |Finish(f)| == N && Finish(f)[N - 1] == 33
    decreases LAST - i
  {
    if i == LAST {
      LastMerge(f, extra);
    } else {
      ChainStep(f, i, extra);
      FinishStep(f, Pair(i).0, Pair(i).1);
      hide ChainState, Select, Finish, MergeStep;
      ChainEnd(MergeStep(f, Pair(i).0, Pair(i).1), i + 1, extra);
    }
  }

  /** The family of weights gives a code of 33 bits. */
  lemma DeepCode(extra: nat)
    requires extra <= LIMIT - 9227465
    ensures Lengths(Weights(extra))[N - 1] == 33
  {
    Values();
    ChainEnd(Start(Weights(extra)), 0, extra);
  }

  // ----- Frequencies -----

  /** Frequencies of 33 symbols with the given weights. */
  function Frequencies(extra: nat): (freq: seq<nat>)
    ensures |freq| == 257
  {
    seq(257, x requires 0 <= x < 257 => if x < N - 1 then Weights(extra)[x] else 0)
  }

  lemma {:induction false} PackedFamily(extra: nat, k: nat)
    requires k <= 256
    ensures Packed(Frequencies(extra)[256 := 1], k) == Weights(extra)[..if k < N - 1 then k else N - 1]
  {
    hide LeafWeight;
    var freq := Frequencies(extra)[256 := 1];
    if k != 0 {
      PackedFamily(extra, k - 1);
    }
  }

  lemma PackedWhole(extra: nat)
    ensures Packed(Frequencies(extra)[256 := 1], 257) == Weights(extra)
  {
    hide LeafWeight;
    PackedFamily(extra, 256);
    assert Weights(extra)[..N - 1] + [1] == Weights(extra);
  }

  /** The last `i + 1` weights add up to the Fibonacci weight of a tree of height `i`. */
  lemma {:induction false} FamilySum(extra: nat, i: nat)
    requires i <= LAST
    ensures Sum(Weights(extra), N) == Sum(Weights(extra), N - 1 - i) + MinWeight(i)
  {
    hide MinWeight, LeafWeight, Weights;
    First();
    if i != 0 {
      LeafGrows(i, extra);
      FamilySum(extra, i - 1);
    }
  }

  lemma FamilyTotal(extra: nat)
    ensures Sum(Frequencies(extra)[256 := 1], 257) == 9227465 + extra
  {
    Values();
    hide MinWeight;
    FamilySum(extra, LAST);
    assert Sum(Weights(extra), 1) == Weights(extra)[0];
    hide Sum, Weights;
    PackedWhole(extra);
    SumPacked(Frequencies(extra)[256 := 1], 257);
  }

  /** Frequencies of 33 real symbols, of any total from 9227465 on, that need a code of 33 bits. */
  lemma DeepTable(total: nat) returns (freq: seq<nat>)
    requires 9227465 <= total <= LIMIT
    ensures |freq| == 257 && Sum(freq[256 := 1], 257) == total && Depth(freq) == 33
    ensures forall s :: 0 <= s < 33 ==> freq[s] > 0
  {
    var extra := total - 9227465;
    freq := Frequencies(extra);
    FamilyTotal(extra);
    PackedWhole(extra);
    DeepCode(extra);
    hide Weights, Lengths, Packed;
    assert forall s :: 0 <= s < 33 ==> freq[s] == Weights(extra)[s];
  }

  lemma {:induction false} PackedLast(freq: seq<nat>)
    requires |freq| == 257 && freq[256] == 1
    ensures var p := Packed(freq, 257); |p| > 0 && p[|p| - 1] == 1
  {
  }

  /** A code of some length needs the Fibonacci weight of that height. */
  lemma DepthNeedsWeight(freq: seq<nat>)
    requires |freq| == 257 && Sum(freq[256 := 1], 257) <= LIMIT
    ensures Sum(freq[256 := 1], 257) >= MinWeight(Depth(freq))
  {
    var p := Packed(freq[256 := 1], 257);
    PackedLast(freq[256 := 1]);
    SumPacked(freq[256 := 1], 257);
    hide Packed, Sum, Lengths, MinWeight;
    LengthsGood(p);
  }

  /** No table of a given total needs a code longer than 32 bits if and only if the total is below 9227465. */
  lemma NoDeepCodeIff(total: nat)
    requires total <= LIMIT
    ensures (forall freq: seq<nat> :: |freq| == 257 && Sum(freq[256 := 1], 257) == total ==> Depth(freq) <= MAX_LEN)
            <==> total < 9227465
  {
    hide Sum, Depth, MinWeight;
    if total < 9227465 {
      forall freq: seq<nat> | |freq| == 257 && Sum(freq[256 := 1], 257) == total ensures Depth(freq) <= MAX_LEN {
        DepthNeedsWeight(freq);
        if Depth(freq) > MAX_LEN {
          MinWeight33(Depth(freq));
        }
      }
    } else {
      var freq := DeepTable(total);
    }
  }
}
