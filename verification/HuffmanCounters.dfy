/** Frequencies whose code lengths the eight-bit counters of the table generator cannot hold. */
module HuffmanCounters {
  import opened HuffmanTree
  import opened HuffmanTable
  import HuffmanOptimal

  // ----- A line below the powers of one half -----

  /** A line that meets the powers of one half at `l` and lies below them everywhere else. */
  function Line(l: nat, d: nat): (v: real)
    decreases if d < l then l - d else d - l
  {
    if d == l then Half(l)
    else if d < l then Line(l, d + 1) + 0.75 * Half(l)
    else Line(l, d - 1) - 0.75 * Half(l)
  }

  lemma {:induction false} HalfDown(d: nat, l: nat)
    requires d <= l
    ensures Half(d) >= Half(l)
    decreases l
  {
    if d < l {
      HalfDown(d, l - 1);
    }
  }

  lemma {:induction false} LineNegative(l: nat, d: nat)
    requires d >= l + 2
    ensures Line(l, d) < 0.0
  {
    if d == l + 2 {
      assert Line(l, l + 1) == Half(l) - 0.75 * Half(l);
    } else {
      LineNegative(l, d - 1);
    }
  }

  lemma {:induction false} LineBelow(l: nat, d: nat)
    ensures Half(d) >= Line(l, d) && (d != l ==> Half(d) > Line(l, d))
    decreases if d < l then l - d else 0
  {
    if d < l {
      LineBelow(l, d + 1);
      HalfDown(d + 1, l);
      assert Half(d) == 2.0 * Half(d + 1);
    } else if d == l + 1 {
      assert Half(d) == Half(l) / 2.0;
    } else if d > l + 1 {
      LineNegative(l, d);
    }
  }

  function Lines(l: nat, cs: seq<nat>, k: nat): (v: real)
    requires k <= |cs|
  {
    if k == 0 then 0.0 else Lines(l, cs, k - 1) + Line(l, cs[k - 1])
  }

  lemma {:induction false} LinesBelow(l: nat, cs: seq<nat>, k: nat)
    requires k <= |cs|
    ensures KraftAll(cs, k) >= Lines(l, cs, k)
  {
    hide Line, Half;
    if k != 0 {
      LinesBelow(l, cs, k - 1);
      LineBelow(l, cs[k - 1]);
    }
  }

  /** Lengths whose Kraft sum does not exceed the lines all equal `l`. */
  lemma {:induction false} AllOnLine(l: nat, cs: seq<nat>, k: nat)
    requires k <= |cs| && KraftAll(cs, k) <= Lines(l, cs, k)
    ensures forall x :: 0 <= x < k ==> cs[x] == l
  {
    hide Line, Half;
    if k != 0 {
      LinesBelow(l, cs, k - 1);
      LineBelow(l, cs[k - 1]);
      AllOnLine(l, cs, k - 1);
    }
  }

  lemma HalfValues()
    ensures Half(0) == 1.0 && Half(1) == 0.5 && Half(2) == 0.25 && Half(8) == 1.0 / 256.0 && Half(9) == 1.0 / 512.0
  {
    assert Half(4) == 1.0 / 16.0;
    assert Half(8) == 1.0 / 256.0;
  }

  lemma {:induction false} LineAt8(d: nat)
    ensures Line(8, d) == (1.0 + 0.75 * (8.0 - d as real)) / 256.0
    decreases if d < 8 then 8 - d else d - 8
  {
    HalfValues();
    hide Half;
    if d < 8 {
      LineAt8(d + 1);
    } else if d > 8 {
      LineAt8(d - 1);
    }
  }

  lemma {:induction false} LinesAt8(cs: seq<nat>, k: nat)
    requires k <= |cs|
    ensures Lines(8, cs, k) == (k as real + 0.75 * (8.0 * k as real - Sum(cs, k) as real)) / 256.0
  {
    hide Line;
    if k != 0 {
      LinesAt8(cs, k - 1);
      LineAt8(cs[k - 1]);
    }
  }

  lemma {:induction false} LineAt9(d: nat)
    ensures Line(9, d) == (1.0 + 0.75 * (9.0 - d as real)) / 512.0
    decreases if d < 9 then 9 - d else d - 9
  {
    HalfValues();
    hide Half;
    if d < 9 {
      LineAt9(d + 1);
    } else if d > 9 {
      LineAt9(d - 1);
    }
  }

  lemma {:induction false} LinesAt9(cs: seq<nat>, k: nat)
    requires k <= |cs|
    ensures Lines(9, cs, k) == (k as real + 0.75 * (9.0 * k as real - Sum(cs, k) as real)) / 512.0
  {
    hide Line;
    if k != 0 {
      LinesAt9(cs, k - 1);
      LineAt9(cs[k - 1]);
    }
  }

  // ----- Weights of one -----

  lemma {:induction false} CostOfOnes(w: seq<nat>, d: seq<nat>, k: nat)
    requires k <= |w| == |d| && forall x :: 0 <= x < k ==> w[x] == 1
    ensures HuffmanOptimal.Cost(w, LIMIT, d, k) == Sum(d, k)
  {
    if k != 0 {
      CostOfOnes(w, d, k - 1);
    }
  }

  lemma {:induction false} AllSame(d: seq<nat>, l: nat, k: nat)
    requires k <= |d| && forall x :: 0 <= x < k ==> d[x] == l
    ensures Sum(d, k) == l * k && KraftAll(d, k) == Half(l) * k as real
  {
    hide Half;
    if k != 0 {
      AllSame(d, l, k - 1);
    }
  }

  lemma {:induction false} CountSame(cs: seq<nat>, l: nat, k: nat)
    requires k <= |cs| && forall x :: 0 <= x < k ==> cs[x] == l
    ensures Count(cs, k, l) == k
  {
    if k != 0 {
      CountSame(cs, l, k - 1);
    }
  }

  lemma {:induction false} PackedPrefix(freq: seq<nat>, k: nat)
    requires k <= |freq| && forall x :: 0 <= x < k ==> freq[x] > 0
    ensures Packed(freq, k) == freq[..k]
  {
    if k != 0 {
      PackedPrefix(freq, k - 1);
    }
  }

  lemma {:induction false} SumSame(w: seq<nat>, v: nat, k: nat)
    requires k <= |w| && forall x :: 0 <= x < k ==> w[x] == v
    ensures Sum(w, k) == v * k
  {
    if k != 0 {
      SumSame(w, v, k - 1);
    }
  }

  /** 256 entries of weight one all get eight bits. */
  lemma EqualWeights(w: seq<nat>)
    requires |w| == 256 && forall x :: 0 <= x < 256 ==> w[x] == 1
    ensures AllEight(Lengths(w)) && forall x :: 0 <= x < 256 ==> Lengths(w)[x] == 8
  {
    hide HuffmanOptimal.Cost, Lengths, KraftAll, Sum, Lines, Half, MinWeight, Count;
    SumSame(w, 1, 256);
    LengthsGood(w);
    var cs, d := Lengths(w), seq(256, _ => 8);
    HalfValues();
    AllSame(d, 8, 256);
    CostOfOnes(w, d, 256);
    CostOfOnes(w, cs, 256);
    assert TotalLength(w, cs) <= TotalLength(w, d);
    LinesAt8(cs, 256);
    AllOnLine(8, cs, 256);
    CountSame(cs, 8, 256);
  }

  /** 255 symbols that occur once each. */
  function EqualFrequencies(): (freq: seq<nat>)
    ensures |freq| == 257 && forall s :: 0 <= s < 257 ==> freq[s] == if s < 255 then 1 else 0
  {
    seq(257, s => if s < 255 then 1 else 0)
  }

  /** 255 symbols that occur once each make the generator panic, although the total is only 256. */
  lemma EqualPanics()
    ensures var freq := EqualFrequencies();
            Sum(freq[256 := 1], 257) == 256 && Depth(freq) == 8 && AllEight(LengthsOf(freq))
  {
    hide AllEight, Lengths, EqualFrequencies, Sum;
    var freq := EqualFrequencies()[256 := 1];
    PackedPrefix(freq, 255);
    var w := Packed(freq, 257);
    assert w == freq[..255] + [1] by {
      assert Packed(freq, 256) == freq[..255] + [];
    }
    SumSame(w, 1, 256);
    SumPacked(freq, 257);
    EqualWeights(w);
  }

  // ----- One heavy symbol -----

  /** 256 symbols, one of which occurs as often as all others and the pseudo-symbol together. */
  function HeavyFrequencies(): (freq: seq<nat>)
    ensures |freq| == 257 && freq[0] == 256 && forall s :: 1 <= s < 257 ==> freq[s] == 1
  {
    seq(257, s => if s == 0 then 256 else 1)
  }

  lemma {:induction false} KraftTail(cs: seq<nat>, k: nat)
    requires k < |cs|
    ensures KraftAll(cs, k + 1) == Half(cs[0]) + KraftAll(cs[1..], k)
  {
    hide Half;
    if k != 0 {
      KraftTail(cs, k - 1);
    }
  }

  lemma {:induction false} CostTail(w: seq<nat>, d: seq<nat>, k: nat)
    requires k < |w| == |d| && w[0] <= LIMIT && forall x :: 1 <= x <= k ==> w[x] == 1
    ensures HuffmanOptimal.Cost(w, LIMIT, d, k + 1) == w[0] * d[0] + Sum(d[1..], k)
  {
    if k != 0 {
      CostTail(w, d, k - 1);
    } else {
      assert HuffmanOptimal.Cost(w, LIMIT, d, 0) == 0;
    }
  }

  lemma {:induction false} CountTail(cs: seq<nat>, l: nat, k: nat)
    requires k < |cs|
    ensures Count(cs, k + 1, l) == Count(cs[1..], k, l) + (if cs[0] == l then 1 else 0)
  {
    if k != 0 {
      CountTail(cs, l, k - 1);
    }
  }

  /** The line below the powers of one half leaves the heavy entry one bit. */
  lemma OneBit(d0: nat, kraft: real, total: nat)
    requires Half(d0) + kraft == 1.0 && 256 * d0 + total <= 2560
    requires kraft >= (256.0 + 0.75 * (2304.0 - total as real)) / 512.0
    ensures d0 == 1 && kraft <= (256.0 + 0.75 * (2304.0 - total as real)) / 512.0
  {
    HalfValues();
    hide Half;
  }

  lemma HeavyWeights(w: seq<nat>)
    requires |w| == 257 && w[0] == 256 && forall x :: 1 <= x < 257 ==> w[x] == 1
    ensures OneAndNines(Lengths(w))
  {
    hide HuffmanOptimal.Cost, Lengths, KraftAll, Sum, Lines, Half, MinWeight, Count;
    HeavySum(w);
    LengthsGood(w);
    var cs, d := Lengths(w), [1] + seq(256, _ => 9);
    HalfValues();
    assert d[1..] == seq(256, _ => 9);
    AllSame(d[1..], 9, 256);
    KraftTail(d, 256);
    CostTail(w, d, 256);
    CostTail(w, cs, 256);
    assert TotalLength(w, cs) <= TotalLength(w, d);
    KraftTail(cs, 256);
    LinesAt9(cs[1..], 256);
    LinesBelow(9, cs[1..], 256);
    OneBit(cs[0], KraftAll(cs[1..], 256), Sum(cs[1..], 256));
    AllOnLine(9, cs[1..], 256);
    CountSame(cs[1..], 9, 256);
    CountTail(cs, 9, 256);
  }

  lemma HeavySum(w: seq<nat>)
    requires |w| == 257 && w[0] == 256 && forall x :: 1 <= x < 257 ==> w[x] == 1
    ensures Sum(w, 257) == 512
  {
    SumTail(w, 256);
    SumSame(w[1..], 1, 256);
  }

  lemma {:induction false} SumTail(w: seq<nat>, k: nat)
    requires k < |w|
    ensures Sum(w, k + 1) == w[0] + Sum(w[1..], k)
  {
    if k != 0 {
      SumTail(w, k - 1);
    } else {
      assert Sum(w, 0) == 0;
    }
  }

  /** With one heavy symbol and 255 rare ones the table comes out empty. */
  lemma HeavyIsEmpty()
    ensures var freq := HeavyFrequencies();
            Sum(freq[256 := 1], 257) == 512 && OneAndNines(LengthsOf(freq))
  {
    hide OneAndNines, Lengths, HeavyFrequencies, Sum;
    var freq := HeavyFrequencies();
    assert freq[256 := 1] == freq;
    PackedPrefix(freq, 257);
    assert freq[..257] == freq;
    HeavySum(freq);
    HeavyWeights(freq);
  }
}
