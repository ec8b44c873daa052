/**
 From code lengths to a Huffman table: counting, limiting to 16 bits, dropping the pseudo-symbol and
 listing the symbols by code length (section K.2 of ITU-T T.81).
 */
module HuffmanTable {
  import opened Bits
  import HuffmanTree

  const MAX_LEN := 32

  datatype Result<T> = Ok(value: T) | Panic

  // ----- Horner form of the Kraft sum -----

  /**
   `sum of b[k] * 2^(i - k)` for `k <= i`. It equals `Pow2(i)` exactly when the lengths up to `i` fill the
   code space, and it is the first free code word of length `i` in a canonical code.
   */
  function Horner(b: seq<nat>, i: nat): (h: nat)
    requires i < |b|
  {
    if i == 0 then b[0] else 2 * Horner(b, i - 1) + b[i]
  }

  function Total(b: seq<nat>, k: nat): (t: nat)
    requires k <= |b|
  {
    if k == 0 then 0 else Total(b, k - 1) + b[k - 1]
  }

  lemma {:induction false} HornerAdd(b: seq<nat>, j: nat, d: int, i: nat)
    requires i < |b| && j < |b| && b[j] + d >= 0
    ensures Horner(b[j := b[j] + d], i) == Horner(b, i) + (if j <= i then d * Pow2(i - j) else 0)
  {
    var b' := b[j := b[j] + d];
    if i != 0 {
      HornerAdd(b, j, d, i - 1);
      if j < i {
        assert Pow2(i - j) == 2 * Pow2(i - 1 - j);
        MulDouble(d, Pow2(i - 1 - j));
      }
    }
  }

  lemma {:induction false} TotalAdd(b: seq<nat>, j: nat, d: int, k: nat)
    requires k <= |b| && j < |b| && b[j] + d >= 0
    ensures Total(b[j := b[j] + d], k) == Total(b, k) + (if j < k then d else 0)
  {
    if k != 0 {
      TotalAdd(b, j, d, k - 1);
    }
  }

  lemma {:induction false} TotalZero(b: seq<nat>, k: nat)
    requires k <= |b| && forall j :: 0 <= j < k ==> b[j] == 0
    ensures Total(b, k) == 0
  {
    if k != 0 {
      TotalZero(b, k - 1);
    }
  }

  lemma {:induction false} TotalMono(b: seq<nat>, j: nat, k: nat)
    requires j <= k <= |b|
    ensures Total(b, j) <= Total(b, k)
    ensures (forall x :: j <= x < k ==> b[x] == 0) ==> Total(b, j) == Total(b, k)
  {
    if j < k {
      TotalMono(b, j, k - 1);
    }
  }

  lemma {:induction false} HornerZero(b: seq<nat>, i: nat)
    requires i < |b| && forall j :: 0 <= j <= i ==> b[j] == 0
    ensures Horner(b, i) == 0
  {
    if i != 0 {
      HornerZero(b, i - 1);
    }
  }

  // ----- Counters of eight bits -----

  const BYTE: nat := 256

  ghost predicate InBytes(b: seq<nat>) {
    forall k :: 0 <= k < |b| ==> b[k] < BYTE
  }

  // ----- Limiting to 16 bits -----

  /** The code space is exactly filled by lengths up to `i`, with at most 257 symbols. */
  ghost predicate Full(b: seq<nat>, i: nat, count: nat) {
    && i < |b| && Horner(b, i) == Pow2(i)
    && (forall k :: i < k < |b| ==> b[k] == 0)
    && Total(b, |b|) == count <= 257
  }

  lemma FullLower(b: seq<nat>, i: nat, count: nat)
    requires 0 < i && Full(b, i, count) && b[i] == 0
    ensures Full(b, i - 1, count)
  {
  }

  lemma {:induction false} Pow2AtLeast(i: nat)
    requires i >= 10
    ensures Pow2(i) >= 1024
  {
    if i == 10 {
      assert Pow2(5) == 32;
    } else {
      Pow2AtLeast(i - 1);
    }
  }

  lemma Pow2Even(i: nat)
    requires i > 0
    ensures Pow2(i) % 2 == 0
  {
  }

  /** The longest class is even, and some class at least two bits shorter is not empty. */
  lemma EvenLongest(b: seq<nat>, i: nat, count: nat)
    requires 17 <= i && Full(b, i, count) && b[i] > 0
    ensures b[i] >= 2 && b[i] % 2 == 0
  {
    assert Horner(b, i) == 2 * Horner(b, i - 1) + b[i];
    Pow2Even(i);
  }

  lemma LongestIsEven(b: seq<nat>, i: nat, count: nat)
    requires 17 <= i && Full(b, i, count) && b[i] > 0
    ensures b[i] >= 2 && b[i] % 2 == 0
    ensures exists k :: 0 <= k <= i - 2 && b[k] > 0
  {
    EvenLongest(b, i, count);
    if forall k :: 0 <= k <= i - 2 ==> b[k] == 0 {
      HornerZero(b, i - 2);
      Pow2AtLeast(i);
      TotalMono(b, i - 1, |b|);
      assert Horner(b, i - 1) == b[i - 1];
      assert Total(b, i + 1) == Total(b, i - 1) + b[i - 1] + b[i];
      TotalMono(b, i + 1, |b|);
      assert false;
    }
  }

  lemma TotalSplit(b: seq<nat>, l: nat)
    requires l < |b|
    ensures Total(b, |b|) == b[l] + Total(b[l := 0], |b|)
  {
    var c: int := b[l];
    TotalAdd(b, l, -c, |b|);
  }

  lemma HornerSplit(b: seq<nat>, l: nat, i: nat)
    requires l <= i < |b|
    ensures Horner(b, i) == b[l] * Pow2(i - l) + Horner(b[l := 0], i)
  {
    var c: int := b[l];
    HornerAdd(b, l, -c, i);
    assert -c * Pow2(i - l) == -(c * Pow2(i - l));
  }

  lemma {:induction false} NothingInTotal(b: seq<nat>, k: nat)
    requires k <= |b| && Total(b, k) == 0
    ensures forall j :: 0 <= j < k ==> b[j] == 0
  {
    if k != 0 {
      NothingInTotal(b, k - 1);
    }
  }

  /** The one class that is not empty. */
  lemma {:induction false} OnlyClass(b: seq<nat>, k: nat) returns (m: nat)
    requires k <= |b| && Total(b, k) == 1
    ensures m < k && b[m] == 1 && forall j :: 0 <= j < k && j != m ==> b[j] == 0
  {
    if b[k - 1] == 0 {
      m := OnlyClass(b, k - 1);
    } else {
      m := k - 1;
      NothingInTotal(b, k - 1);
    }
  }

  lemma Pow2Strict(a: nat, b: nat)
    requires a < b
    ensures 2 * Pow2(a) <= Pow2(b)
  {
    Pow2Mono(a + 1, b);
  }

  lemma Pow2Injective(a: nat, b: nat)
    requires Pow2(a) == Pow2(b)
    ensures a == b
  {
    hide Pow2;
    if a < b {
      Pow2Strict(a, b);
    } else if b < a {
      Pow2Strict(b, a);
    }
  }

  lemma Words256(l: nat, i: nat)
    requires l <= i
    ensures BYTE * Pow2(i - l) == Pow2(8 + i - l)
  {
    assert Pow2(8) == BYTE;
    hide Pow2;
    Pow2Add(8, i - l);
  }

  /** 256 words of `l` bits fill the code space alone. */
  lemma FilledAlone(c: nat, l: nat, i: nat)
    requires l <= i && 256 <= c <= 257 && c * Pow2(i - l) == Pow2(i)
    ensures c == BYTE && l == 8
  {
    Words256(l, i);
    if c == 257 {
      OneTooMany(l, i);
    }
    hide Pow2;
    Pow2Injective(8 + i - l, i);
  }

  lemma OneTooMany(l: nat, i: nat)
    requires l <= i
    ensures 257 * Pow2(i - l) != Pow2(i)
  {
    hide Pow2;
    Words256(l, i);
    assert 257 * Pow2(i - l) == BYTE * Pow2(i - l) + Pow2(i - l);
    if l <= 8 {
      Pow2Mono(i, 8 + i - l);
    } else {
      Pow2Strict(i - l, 8 + i - l);
      Pow2Strict(8 + i - l, i);
    }
  }

  /** 256 words of `l` bits and one of `m` bits fill the code space. */
  lemma FilledWithOne(l: nat, m: nat, i: nat)
    requires l <= i && m <= i && BYTE * Pow2(i - l) + Pow2(i - m) == Pow2(i)
    ensures l == 9 && m == 1
  {
    hide Pow2;
    Words256(l, i);
    if l <= 8 {
      Pow2Mono(i, 8 + i - l);
    } else if m > 0 {
      Pow2Strict(i - 1, i);
      Pow2Mono(8 + i - l, i - 1);
      Pow2Mono(i - m, i - 1);
      Pow2Injective(8 + i - l, i - 1);
      Pow2Injective(i - m, i - 1);
    }
  }

  /** A class of 256 or more fills the code space alone at eight bits, or but for one code word at nine. */
  lemma CrowdedClass(b: seq<nat>, i: nat, count: nat, l: nat)
    requires Full(b, i, count) && l <= i && b[l] >= BYTE
    ensures b[l] == BYTE && (count == 256 || count == 257)
    ensures if count == 256 then l == 8 && (forall k :: 0 <= k < |b| && k != 8 ==> b[k] == 0)
            else l == 9 && |b| > 1 && b[1] == 1 && (forall k :: 0 <= k < |b| && k != 9 && k != 1 ==> b[k] == 0)
  {
    hide Horner, Total, Pow2;
    var rest := b[l := 0];
    TotalSplit(b, l);
    HornerSplit(b, l, i);
    if Total(rest, |b|) == 0 {
      NothingInTotal(rest, |b|);
      HornerZero(rest, i);
      FilledAlone(b[l], l, i);
    } else {
      var m := OnlyClass(rest, |b|);
      HornerSplit(rest, m, i);
      HornerZero(rest[m := 0], i);
      FilledWithOne(l, m, i);
    }
    forall k | 0 <= k < |b| && k != l ensures b[k] == rest[k] {
    }
  }

  lemma AboveZero(b: seq<nat>, i: nat, count: nat, k: nat)
    requires Full(b, i, count) && k < |b| && b[k] > 0
    ensures k <= i && i < |b|
  {
    hide Horner, Total, Pow2;
  }

  /** A code longer than 16 bits leaves no room for a class of 256. */
  lemma LongStaysInBytes(b: seq<nat>, i: nat, count: nat)
    requires Full(b, i, count) && 17 <= i <= MAX_LEN && b[i - 1] > 0
    ensures InBytes(b)
  {
    hide Full;
    forall k | 0 <= k < |b| ensures b[k] < BYTE {
      if b[k] >= BYTE {
        AboveZero(b, i, count, k);
        CrowdedClass(b, i, count, k);
        assert false;
      }
    }
  }

  lemma LimitStepHorner(b: seq<nat>, i: nat, j: nat)
    requires 2 <= i < |b| && b[i] >= 2 && j <= i - 2 && b[j] > 0
    ensures var b1 := b[i := b[i] - 2];
            var b2 := b1[i - 1 := b1[i - 1] + 1];
            var b3 := b2[j + 1 := b2[j + 1] + 2];
            Horner(b3[j := b3[j] - 1], i) == Horner(b, i)
  {
    var b1 := b[i := b[i] - 2];
    var b2 := b1[i - 1 := b1[i - 1] + 1];
    var b3 := b2[j + 1 := b2[j + 1] + 2];
    HornerAdd(b, i, -2, i);
    HornerAdd(b1, i - 1, 1, i);
    HornerAdd(b2, j + 1, 2, i);
    HornerAdd(b3, j, -1, i);
  }

  lemma LimitStepTotal(b: seq<nat>, i: nat, j: nat)
    requires 2 <= i < |b| && b[i] >= 2 && j <= i - 2 && b[j] > 0
    ensures var b1 := b[i := b[i] - 2];
            var b2 := b1[i - 1 := b1[i - 1] + 1];
            var b3 := b2[j + 1 := b2[j + 1] + 2];
            Total(b3[j := b3[j] - 1], |b|) == Total(b, |b|)
  {
    var b1 := b[i := b[i] - 2];
    var b2 := b1[i - 1 := b1[i - 1] + 1];
    var b3 := b2[j + 1 := b2[j + 1] + 2];
    TotalAdd(b, i, -2, |b|);
    TotalAdd(b1, i - 1, 1, |b|);
    TotalAdd(b2, j + 1, 2, |b|);
    TotalAdd(b3, j, -1, |b|);
  }

  /**
   The longest word at least two bits shorter becomes the prefix of two words: one is its old symbol, the other one
   of the two symbols of `i` bits that lose it. The other of these moves one bit up.
   */
  ghost predicate SplitsLongest(b: seq<nat>, b': seq<nat>, i: nat) {
    && 2 <= i < |b| == |b'|
    && exists j :: 0 <= j <= i - 2 && b[j] > 0 && (forall k :: j < k <= i - 2 ==> b[k] == 0) && Split(b, b', i, j)
  }

  ghost predicate Split(b: seq<nat>, b': seq<nat>, i: nat, j: nat) {
    && |b| == |b'|
    && forall k :: 0 <= k < |b| ==>
         b'[k] + (if k == i then 2 else 0) + (if k == j then 1 else 0)
         == b[k] + (if k == i - 1 then 1 else 0) + (if k == j + 1 then 2 else 0)
  }

  lemma SplitIs(b: seq<nat>, i: nat, j: nat)
    requires 2 <= i < |b| && b[i] >= 2 && j <= i - 2 && b[j] > 0 && forall k :: j < k <= i - 2 ==> b[k] == 0
    ensures var b1 := b[i := b[i] - 2];
            var b2 := b1[i - 1 := b1[i - 1] + 1];
            var b3 := b2[j + 1 := b2[j + 1] + 2];
            SplitsLongest(b, b3[j := b3[j] - 1], i)
  {
    var b1 := b[i := b[i] - 2];
    var b2 := b1[i - 1 := b1[i - 1] + 1];
    var b3 := b2[j + 1 := b2[j + 1] + 2];
    assert Split(b, b3[j := b3[j] - 1], i, j);
  }

  lemma FullSize(b: seq<nat>, i: nat, count: nat)
    requires Full(b, i, count)
    ensures i < |b|
  {
    hide Horner, Total, Pow2;
  }

  lemma LimitStepKeeps(b: seq<nat>, i: nat, j: nat, count: nat)
    requires 17 <= i <= MAX_LEN && Full(b, i, count) && b[i] >= 2
    requires j <= i - 2 && b[j] > 0 && forall k :: j < k <= i - 2 ==> b[k] == 0
    ensures var b1 := b[i := b[i] - 2];
            var b2 := b1[i - 1 := b1[i - 1] + 1];
            var b3 := b2[j + 1 := b2[j + 1] + 2];
            var b4 := b3[j := b3[j] - 1];
            Full(b4, i, count) && InBytes(b4) && SplitsLongest(b, b4, i)
  {
    hide InBytes, SplitsLongest, Horner, Total, Pow2;
    LimitStepHorner(b, i, j);
    LimitStepTotal(b, i, j);
    SplitIs(b, i, j);
    var b1 := b[i := b[i] - 2];
    var b2 := b1[i - 1 := b1[i - 1] + 1];
    var b3 := b2[j + 1 := b2[j + 1] + 2];
    LongStaysInBytes(b3[j := b3[j] - 1], i, count);
  }

  /**
   One limiting step: two symbols leave the longest class, one goes one bit up, and a shorter code
   word becomes the prefix of two. It keeps the symbol count and the filled code space, and no counter
   leaves its eight bits.
   */
  method LimitOnce(bits0: seq<nat>, i: nat, ghost count: nat) returns (bits: seq<nat>)
    requires 17 <= i <= MAX_LEN && Full(bits0, i, count) && bits0[i] > 0
    ensures |bits| == |bits0| && Full(bits, i, count) && bits[i] == bits0[i] - 2
    ensures InBytes(bits) && SplitsLongest(bits0, bits, i)
  {
    hide Full, InBytes, SplitsLongest;
    bits := bits0;
    FullSize(bits, i, count);
    LongestIsEven(bits, i, count);
    var j := i - 2;
    while bits[j] == 0
      invariant 0 <= j <= i - 2 && forall k :: j < k <= i - 2 ==> bits[k] == 0
      invariant exists k :: 0 <= k <= j && bits[k] > 0
      decreases j
    {
      j := j - 1;
    }
    LimitStepKeeps(bits, i, j, count);
    bits := bits[i := bits[i] - 2];
    bits := bits[i - 1 := bits[i - 1] + 1];
    bits := bits[j + 1 := bits[j + 1] + 2];
    bits := bits[j := bits[j] - 1];
  }

  /** No code is longer than 16 bits, so there is nothing to limit. */
  ghost predicate NoneLong(b: seq<nat>) {
    forall k :: 17 <= k < |b| ==> b[k] == 0
  }

  /** Rearranges the counts so that no code is longer than 16 bits. */
  method Limit(bits0: seq<nat>, ghost count: nat) returns (bits: seq<nat>)
    requires |bits0| == MAX_LEN + 1 && InBytes(bits0) && (Full(bits0, MAX_LEN, count) || NoneLong(bits0))
    ensures |bits| == MAX_LEN + 1 && InBytes(bits)
    ensures Full(bits0, MAX_LEN, count) ==> Full(bits, 16, count)
    ensures NoneLong(bits0) ==> bits == bits0
  {
    hide Full, InBytes;
    bits := bits0;
    var i := MAX_LEN;
    while i >= 17
      invariant 16 <= i <= MAX_LEN && |bits| == MAX_LEN + 1 && InBytes(bits)
      invariant Full(bits0, MAX_LEN, count) ==> Full(bits, i, count)
      invariant NoneLong(bits0) ==> bits == bits0
    {
      while bits[i] > 0
        invariant |bits| == MAX_LEN + 1 && InBytes(bits)
        invariant Full(bits0, MAX_LEN, count) ==> Full(bits, i, count)
        invariant NoneLong(bits0) ==> bits == bits0
        decreases bits[i]
      {
        bits := LimitOnce(bits, i, count);
      }
      if Full(bits0, MAX_LEN, count) {
        FullLower(bits, i, count);
      }
      i := i - 1;
    }
  }

  // ----- Dropping the pseudo-symbol -----

  /** Counts for which canonical code assignment never reaches an all-ones code word. */
  ghost predicate Assignable(b: seq<nat>) {
    |b| == 17 && b[0] == 0 && forall l :: 0 <= l <= 16 ==> Horner(b, l) < Pow2(l)
  }

  lemma {:induction false} HornerPrefix(b: seq<nat>, b': seq<nat>, i: nat)
    requires i < |b| && i < |b'| && forall k :: 0 <= k <= i ==> b[k] == b'[k]
    ensures Horner(b, i) == Horner(b', i)
  {
    if i != 0 {
      HornerPrefix(b, b', i - 1);
    }
  }

  /** Below a used length the code space is not yet full. */
  lemma {:induction false} BelowFull(b: seq<nat>, l: nat, i: nat)
    requires l < i < |b| && Horner(b, i) <= Pow2(i) && (Horner(b, i) < Pow2(i) || b[i] > 0)
    ensures Horner(b, l) < Pow2(l)
    decreases i - l
  {
    if l < i - 1 {
      BelowFull(b, l, i - 1);
    }
  }

  lemma {:induction false} AboveStrict(b: seq<nat>, l: nat, i: nat)
    requires i <= l < |b| && Horner(b, i) < Pow2(i) && forall k :: i < k <= l ==> b[k] == 0
    ensures Horner(b, l) < Pow2(l)
  {
    if i < l {
      AboveStrict(b, l - 1, i);
    }
  }

  lemma {:induction false} ZeroClass(b: seq<nat>, i: nat)
    requires i < |b| && Horner(b, i) <= Pow2(i) && b[0] > 0
    ensures b[0] == 1 && Horner(b, i) == Pow2(i)
    ensures forall k :: 0 < k <= i ==> b[k] == 0
    ensures Total(b, i + 1) == 1
  {
    if i != 0 {
      ZeroClass(b, i - 1);
    }
  }

  /**
   Takes the pseudo-symbol off the longest class in use. Without a class in use the search runs past the
   first counter, and it panics.
   */
  method DropLongest(bits0: seq<nat>, ghost count: nat) returns (r: Result<seq<nat>>)
    requires |bits0| == MAX_LEN + 1
    ensures r.Panic? <==> forall k :: 0 <= k <= 16 ==> bits0[k] == 0
    ensures Full(bits0, 16, count) ==> r.Ok? && Assignable(r.value) && Total(r.value, 17) == count - 1
    ensures OnlyOne(bits0) ==> r.Ok? && |r.value| == 17 && forall k :: 0 <= k < 17 ==> r.value[k] == 0
    ensures r.Ok? ==> OneLess(bits0, r.value)
  {
    hide Full, Assignable;
    var i := 16;
    while bits0[i] == 0
      invariant 0 <= i <= 16 && (Full(bits0, 16, count) ==> Full(bits0, i, count))
      invariant forall k :: i < k <= 16 ==> bits0[k] == 0
      decreases i
    {
      if i == 0 {
        if Full(bits0, 16, count) {
          NotEmpty(bits0, count);
        }
        return Panic;
      }
      if Full(bits0, 16, count) {
        FullLower(bits0, i, count);
      }
      i := i - 1;
    }
    var b := bits0[i := bits0[i] - 1];
    if Full(bits0, 16, count) {
      DropFacts(bits0, i, count);
    }
    r := Ok(b[..17]);
  }

  /** The longest class in use loses one symbol; the others are as before. */
  ghost predicate OneLess(b: seq<nat>, b': seq<nat>) {
    && |b| >= |b'| == 17
    && exists i :: 0 <= i < 17 && b[i] > 0 && (forall k :: i < k < 17 ==> b[k] == 0)
                   && forall k :: 0 <= k < 17 ==> b'[k] == b[k] - (if k == i then 1 else 0)
  }

  /** A single code of one bit. */
  ghost predicate OnlyOne(b: seq<nat>) {
    |b| == MAX_LEN + 1 && b[1] == 1 && forall k :: 0 <= k < |b| && k != 1 ==> b[k] == 0
  }

  lemma NotEmpty(b: seq<nat>, count: nat)
    requires |b| > 0 && b[0] == 0
    ensures !Full(b, 0, count)
  {
  }

  lemma DropFacts(b0: seq<nat>, i: nat, count: nat)
    requires |b0| == MAX_LEN + 1 && Full(b0, i, count) && i <= 16 && b0[i] > 0
    ensures Assignable(b0[i := b0[i] - 1][..17])
    ensures Total(b0[i := b0[i] - 1][..17], 17) == count - 1
  {
    var b := b0[i := b0[i] - 1];
    TotalMono(b0, i + 1, |b0|);
    if b0[0] > 0 {
      ZeroClass(b0, i);
    }
    HornerAdd(b0, i, -1, i);
    TotalAdd(b0, i, -1, |b0|);
    TotalMono(b, 17, |b|);
    TotalPrefix(b, b[..17], 17);
    forall l | 0 <= l <= 16 ensures Horner(b[..17], l) < Pow2(l) {
      HornerPrefix(b, b[..17], l);
      if l < i {
        BelowFull(b0, l, i);
        HornerPrefix(b0, b, l);
      } else {
        AboveStrict(b, l, i);
      }
    }
  }

  lemma {:induction false} TotalPrefix(b: seq<nat>, b': seq<nat>, k: nat)
    requires k <= |b| && k <= |b'| && forall x :: 0 <= x < k ==> b[x] == b'[x]
    ensures Total(b, k) == Total(b', k)
  {
    if k != 0 {
      TotalPrefix(b, b', k - 1);
    }
  }

  // ----- Counting code lengths -----

  /** How many of the first `k` symbols have code length `l`. */
  function Count(cs: seq<nat>, k: nat, l: nat): (c: nat)
    requires k <= |cs|
  {
    if k == 0 then 0 else Count(cs, k - 1, l) + (if cs[k - 1] == l then 1 else 0)
  }

  /** How many of the first `k` symbols have a code length below `l`. */
  function Below(cs: seq<nat>, k: nat, l: nat): (c: nat)
    requires k <= |cs|
    ensures c <= k
  {
    if k == 0 then 0 else Below(cs, k - 1, l) + (if cs[k - 1] < l then 1 else 0)
  }

  /** Kraft sum of the first `k` symbols, scaled by `2^32`. */
  function ScaledKraft(cs: seq<nat>, k: nat): (s: nat)
    requires k <= |cs| && forall x :: 0 <= x < k ==> cs[x] <= MAX_LEN
  {
    if k == 0 then 0 else ScaledKraft(cs, k - 1) + Pow2(MAX_LEN - cs[k - 1])
  }

  const TWO_32: real := 4294967296.0

  lemma {:induction false} HalfScaled(k: nat)
    requires k <= MAX_LEN
    ensures HuffmanTree.Half(k) * TWO_32 == Pow2(MAX_LEN - k) as real
  {
    if k == 0 {
      Pow2At32();
    } else {
      HalfScaled(k - 1);
      assert Pow2(MAX_LEN - k + 1) == 2 * Pow2(MAX_LEN - k);
    }
  }

  lemma Pow2At32()
    ensures Pow2(16) == 65536 && Pow2(32) == 4294967296
  {
    assert Pow2(8) == 256;
    Pow2Add(8, 8);
    Pow2Add(16, 16);
  }

  lemma {:induction false} KraftScaled(cs: seq<nat>, k: nat)
    requires k <= |cs| && forall x :: 0 <= x < k ==> cs[x] <= MAX_LEN
    ensures HuffmanTree.KraftAll(cs, k) * TWO_32 == ScaledKraft(cs, k) as real
  {
    if k != 0 {
      KraftScaled(cs, k - 1);
      HalfScaled(cs[k - 1]);
    }
  }

  /** The lengths of the first `i` symbols are counted. */
  ghost predicate Counted(bits: seq<nat>, cs: seq<nat>, i: nat) {
    && i <= |cs| && |bits| == MAX_LEN + 1 && (forall x :: 0 <= x < i ==> cs[x] <= MAX_LEN)
    && (forall l :: 0 <= l <= MAX_LEN ==> bits[l] == Count(cs, i, l))
    && Horner(bits, MAX_LEN) == ScaledKraft(cs, i) && Total(bits, MAX_LEN + 1) == i
  }

  lemma CountedNone(bits: seq<nat>, cs: seq<nat>)
    requires |bits| == MAX_LEN + 1 && forall l :: 0 <= l <= MAX_LEN ==> bits[l] == 0
    ensures Counted(bits, cs, 0)
  {
    HornerZero(bits, MAX_LEN);
    TotalZero(bits, MAX_LEN + 1);
    hide Horner, Total;
  }

  lemma CountedNext(bits: seq<nat>, cs: seq<nat>, i: nat)
    requires Counted(bits, cs, i) && i < |cs| && cs[i] <= MAX_LEN && |bits| == MAX_LEN + 1
    ensures Counted(bits[cs[i] := bits[cs[i]] + 1], cs, i + 1)
  {
    HornerAdd(bits, cs[i], 1, MAX_LEN);
    TotalAdd(bits, cs[i], 1, MAX_LEN + 1);
    hide Horner, Total;
  }

  lemma NextRemainder(x: nat)
    ensures (x % BYTE + 1) % BYTE == (x + 1) % BYTE
  {
  }

  /** The number of symbols of each length, in counters of eight bits, or a panic when a length exceeds 32. */
  method CountLengths(cs: seq<nat>) returns (r: Result<seq<nat>>)
    ensures r.Ok? <==> forall x :: 0 <= x < |cs| ==> cs[x] <= MAX_LEN
    ensures r.Ok? ==> |r.value| == MAX_LEN + 1
    ensures r.Ok? ==> forall l :: 0 <= l <= MAX_LEN ==> r.value[l] == Count(cs, |cs|, l) % BYTE
  {
    var bits: seq<nat> := seq(MAX_LEN + 1, _ => 0);
    for i := 0 to |cs|
      invariant |bits| == MAX_LEN + 1 && forall x :: 0 <= x < i ==> cs[x] <= MAX_LEN
      invariant forall l :: 0 <= l <= MAX_LEN ==> bits[l] == Count(cs, i, l) % BYTE
    {
      if cs[i] > MAX_LEN {
        return Panic;
      }
      NextRemainder(Count(cs, i, cs[i]));
      bits := bits[cs[i] := (bits[cs[i]] + 1) % BYTE];
    }
    r := Ok(bits);
  }

  // ----- When the counters are right -----

  /** The number of symbols of each length. */
  function Counts(cs: seq<nat>, i: nat): (b: seq<nat>)
    requires i <= |cs|
    ensures |b| == MAX_LEN + 1 && forall l :: 0 <= l <= MAX_LEN ==> b[l] == Count(cs, i, l)
  {
    seq(MAX_LEN + 1, l requires 0 <= l => Count(cs, i, l))
  }

  lemma {:induction false} CountsCounted(cs: seq<nat>, i: nat)
    requires i <= |cs| && forall x :: 0 <= x < i ==> cs[x] <= MAX_LEN
    ensures Counted(Counts(cs, i), cs, i)
    decreases i
  {
    hide Counted;
    if i == 0 {
      CountedNone(Counts(cs, 0), cs);
    } else {
      CountsCounted(cs, i - 1);
      CountedNext(Counts(cs, i - 1), cs, i - 1);
      assert Counts(cs, i) == Counts(cs, i - 1)[cs[i - 1] := Count(cs, i - 1, cs[i - 1]) + 1];
    }
  }

  /** Lengths that satisfy Kraft's equality, the last one the greatest. */
  ghost predicate FullCode(cs: seq<nat>) {
    && 0 < |cs| <= 257 && HuffmanTree.KraftAll(cs, |cs|) == 1.0
    && forall x :: 0 <= x < |cs| ==> cs[x] <= cs[|cs| - 1] <= MAX_LEN
  }

  lemma CountsFull(cs: seq<nat>)
    requires FullCode(cs)
    ensures Full(Counts(cs, |cs|), MAX_LEN, |cs|)
  {
    CountsCounted(cs, |cs|);
    FullCounts(Counts(cs, |cs|), cs);
  }

  /** 256 entries of eight bits each: the counter of that length wraps to zero. */
  ghost predicate AllEight(cs: seq<nat>) {
    |cs| == 256 && Count(cs, 256, 8) == 256
  }

  /** One entry of one bit and 256 entries of nine: the counter of the latter wraps to zero. */
  ghost predicate OneAndNines(cs: seq<nat>) {
    |cs| == 257 && Count(cs, 257, 9) == 256
  }

  /** The counters are right unless 256 entries share a length, and then one of two shapes remains. */
  lemma CountersRight(cs: seq<nat>)
    requires FullCode(cs)
    ensures InBytes(Counts(cs, |cs|)) <==> !AllEight(cs) && !OneAndNines(cs)
    ensures AllEight(cs) ==> forall l :: 0 <= l <= MAX_LEN && l != 8 ==> Count(cs, |cs|, l) == 0
    ensures OneAndNines(cs) ==> Count(cs, |cs|, 1) == 1
                                && forall l :: 0 <= l <= MAX_LEN && l != 1 && l != 9 ==> Count(cs, |cs|, l) == 0
  {
    hide Full, FullCode, Count;
    CountsFull(cs);
    forall l | 0 <= l <= MAX_LEN && Count(cs, |cs|, l) >= BYTE
      ensures AllEight(cs) || OneAndNines(cs)
    {
      CrowdedClass(Counts(cs, |cs|), MAX_LEN, |cs|, l);
    }
    if AllEight(cs) {
      CrowdedClass(Counts(cs, |cs|), MAX_LEN, |cs|, 8);
    }
    if OneAndNines(cs) {
      CrowdedClass(Counts(cs, |cs|), MAX_LEN, |cs|, 9);
    }
  }

  /** The longest length is in use. */
  lemma LongestCounted(cs: seq<nat>)
    requires |cs| > 0
    ensures Count(cs, |cs|, cs[|cs| - 1]) > 0
  {
  }

  /** What the eight-bit counters hold. */
  lemma WrappedCounts(cs: seq<nat>, w: seq<nat>)
    requires FullCode(cs) && |w| == MAX_LEN + 1
    requires forall l :: 0 <= l <= MAX_LEN ==> w[l] == Count(cs, |cs|, l) % BYTE
    ensures InBytes(w) && forall l :: 0 <= l < cs[|cs| - 1] && !AllEight(cs) ==> w[l] == Count(cs, |cs|, l)
    ensures AllEight(cs) ==> forall k :: 0 <= k < |w| ==> w[k] == 0
    ensures OneAndNines(cs) ==> OnlyOne(w)
    ensures !AllEight(cs) && !OneAndNines(cs) ==>
              Full(w, MAX_LEN, |cs|) && forall l :: 0 <= l <= MAX_LEN ==> w[l] == Count(cs, |cs|, l)
  {
    hide Full, Count;
    CountersRight(cs);
    LongestCounted(cs);
    if !AllEight(cs) && !OneAndNines(cs) {
      CountsFull(cs);
      assert w == Counts(cs, |cs|);
    }
  }

  // ----- Listing symbols by code length -----

  /** Slot of symbol `x` in a stable sort by code length. */
  function Slot(cs: seq<nat>, x: nat): (p: nat)
    requires x < |cs|
  {
    Below(cs, |cs|, cs[x]) + Count(cs, x, cs[x])
  }

  lemma {:induction false} BelowNext(cs: seq<nat>, k: nat, l: nat)
    requires k <= |cs|
    ensures Below(cs, k, l + 1) == Below(cs, k, l) + Count(cs, k, l)
  {
    if k != 0 {
      BelowNext(cs, k - 1, l);
    }
  }

  lemma {:induction false} BelowMono(cs: seq<nat>, k: nat, l: nat, l': nat)
    requires k <= |cs| && l <= l'
    ensures Below(cs, k, l) <= Below(cs, k, l')
  {
    if k != 0 {
      BelowMono(cs, k - 1, l, l');
    }
  }

  lemma {:induction false} CountStrict(cs: seq<nat>, x: nat, k: nat)
    requires x < k <= |cs|
    ensures Count(cs, x, cs[x]) < Count(cs, k, cs[x])
  {
    if x < k - 1 {
      CountStrict(cs, x, k - 1);
    }
  }

  lemma {:induction false} BelowAll(cs: seq<nat>, k: nat, l: nat)
    requires k <= |cs| && forall x :: 0 <= x < k ==> cs[x] < l
    ensures Below(cs, k, l) == k
  {
    if k != 0 {
      BelowAll(cs, k - 1, l);
    }
  }

  /** Shorter codes come first, and equal lengths keep their order; so slots never collide. */
  lemma SlotOrder(cs: seq<nat>, x: nat, y: nat)
    requires x < |cs| && y < |cs|
    ensures cs[x] < cs[y] || (cs[x] == cs[y] && x < y) ==> Slot(cs, x) < Slot(cs, y)
    ensures Slot(cs, x) < |cs|
  {
    CountStrict(cs, x, |cs|);
    BelowNext(cs, |cs|, cs[x]);
    if cs[x] < cs[y] {
      BelowMono(cs, |cs|, cs[x] + 1, cs[y]);
    } else if cs[x] == cs[y] && x < y {
      CountStrict(cs, x, y);
    }
  }

  lemma {:induction false} NthOfLength(cs: seq<nat>, k: nat, l: nat, r: nat) returns (x: nat)
    requires k <= |cs| && r < Count(cs, k, l)
    ensures x < k && cs[x] == l && Count(cs, x, l) == r
  {
    if r < Count(cs, k - 1, l) {
      x := NthOfLength(cs, k - 1, l, r);
    } else {
      x := k - 1;
    }
  }

  /** Every slot is taken by some symbol. */
  lemma {:induction false} SlotOnto(cs: seq<nat>, p: nat, l: nat) returns (x: nat)
    requires p < Below(cs, |cs|, l)
    ensures x < |cs| && Slot(cs, x) == p && cs[x] < l
    decreases l
  {
    if l == 0 {
      NothingBelowZero(cs, |cs|);
      assert false;
    }
    BelowNext(cs, |cs|, l - 1);
    if p < Below(cs, |cs|, l - 1) {
      x := SlotOnto(cs, p, l - 1);
    } else {
      x := NthOfLength(cs, |cs|, l - 1, p - Below(cs, |cs|, l - 1));
    }
  }

  lemma {:induction false} NothingBelowZero(cs: seq<nat>, k: nat)
    requires k <= |cs|
    ensures Below(cs, k, 0) == 0
  {
    if k != 0 {
      NothingBelowZero(cs, k - 1);
    }
  }

  /** The deepest symbol, being last, takes the last slot. */
  lemma LastSlot(cs: seq<nat>)
    requires |cs| > 0 && forall x :: 0 <= x < |cs| ==> cs[x] <= cs[|cs| - 1]
    ensures Slot(cs, |cs| - 1) == |cs| - 1
    ensures forall x :: 0 <= x < |cs| - 1 ==> Slot(cs, x) < |cs| - 1
  {
    var n := |cs|;
    var m := cs[n - 1];
    BelowAll(cs, n, m + 1);
    BelowNext(cs, n, m);
    assert Count(cs, n, m) == Count(cs, n - 1, m) + 1;
    forall x | 0 <= x < n - 1 ensures Slot(cs, x) < n - 1 {
      SlotOrder(cs, x, n - 1);
    }
  }

  /** `vals` lists the first `|cs| - 1` symbols in order of code length. */
  ghost predicate Listed(vals: seq<nat>, syms: seq<nat>, cs: seq<nat>) {
    && |syms| == |cs| > 0 && |cs| - 1 <= |vals|
    && forall x :: 0 <= x < |cs| - 1 ==> Slot(cs, x) < |cs| - 1 && vals[Slot(cs, x)] == syms[x]
  }

  method ListSymbols(vals0: seq<nat>, bits: seq<nat>, cs: seq<nat>, syms: seq<nat>) returns (vals: seq<nat>)
    requires |syms| == |cs| && 0 < |cs| <= 257 && |vals0| == 256 && |bits| == MAX_LEN + 1
    requires InBytes(vals0) && forall x :: 0 <= x < |cs| - 1 ==> syms[x] < BYTE
    requires forall x :: 0 <= x < |cs| ==> cs[x] <= cs[|cs| - 1] <= MAX_LEN
    requires forall l :: 0 <= l < cs[|cs| - 1] ==> bits[l] == Count(cs, |cs|, l)
    ensures |vals| == 256 && InBytes(vals) && Listed(vals, syms, cs)
  {
    var bitPos: seq<nat> := seq(MAX_LEN + 1, _ => 0);
    var p := 0;
    NothingBelowZero(cs, |cs|);
    for i := 0 to MAX_LEN + 1
      invariant |bitPos| == MAX_LEN + 1 && (i <= cs[|cs| - 1] ==> p == Below(cs, |cs|, i))
      invariant forall l :: 0 <= l < i && l <= cs[|cs| - 1] ==> bitPos[l] == Below(cs, |cs|, l)
    {
      bitPos := bitPos[i := p];
      p := p + bits[i];
      BelowNext(cs, |cs|, i);
    }
    vals := vals0;
    LastSlot(cs);
    for i := 0 to |cs| - 1
      invariant |bitPos| == MAX_LEN + 1 && |vals| == 256 && InBytes(vals)
      invariant forall l :: 0 <= l <= cs[|cs| - 1] ==> bitPos[l] == Below(cs, |cs|, l) + Count(cs, i, l)
      invariant forall x :: 0 <= x < i ==> vals[Slot(cs, x)] == syms[x]
    {
      forall x | 0 <= x < i ensures Slot(cs, x) != Slot(cs, i) {
        SlotOrder(cs, x, i);
        SlotOrder(cs, i, x);
      }
      assert bitPos[cs[i]] == Slot(cs, i);
      vals := vals[bitPos[cs[i]] := syms[i]];
      bitPos := bitPos[cs[i] := bitPos[cs[i]] + 1];
    }
  }

  // ----- The whole table -----

  datatype HuffTbl = HuffTbl(bits: seq<nat>, vals: seq<nat>)

  lemma {:induction false} SumPrefix(a: seq<nat>, b: seq<nat>, k: nat)
    requires k <= |a| && k <= |b| && forall x :: 0 <= x < k ==> a[x] == b[x]
    ensures HuffmanTree.Sum(a, k) == HuffmanTree.Sum(b, k)
  {
    if k != 0 {
      SumPrefix(a, b, k - 1);
    }
  }

  /** `syms` lists, in increasing order, exactly the indices of nonzero entries of `freq` below `k`. */
  ghost predicate NonzeroIndices(syms: seq<nat>, freq: seq<nat>, k: nat)
    requires k <= |freq|
  {
    && (forall j :: 0 <= j < |syms| ==> syms[j] < k && freq[syms[j]] > 0)
    && (forall i, j :: 0 <= i < j < |syms| ==> syms[i] < syms[j])
    && (forall x :: 0 <= x < k && freq[x] > 0 ==> x in syms)
  }

  lemma NonzeroPush(syms: seq<nat>, freq: seq<nat>, i: nat)
    requires i < |freq| && NonzeroIndices(syms, freq, i) && freq[i] > 0
    ensures NonzeroIndices(syms + [i], freq, i + 1)
  {
    assert forall x :: x in syms ==> x in syms + [i];
  }

  /** The nonzero entries below `k`, in order. */
  function Packed(freq: seq<nat>, k: nat): (p: seq<nat>)
    requires k <= |freq|
    ensures |p| <= k && forall i :: 0 <= i < |p| ==> p[i] > 0
  {
    if k == 0 then []
    else Packed(freq, k - 1) + (if freq[k - 1] > 0 then [freq[k - 1]] else [])
  }

  /** Symbol `syms[x]` is the one with `x` used symbols before it. */
  ghost predicate AtRank(syms: seq<nat>, freq: seq<nat>) {
    forall x :: 0 <= x < |syms| ==> syms[x] < |freq| && |Packed(freq, syms[x])| == x
  }

  lemma RankPush(syms: seq<nat>, freq: seq<nat>, i: nat)
    requires AtRank(syms, freq) && i < |freq| && |Packed(freq, i)| == |syms|
    ensures AtRank(syms + [i], freq)
  {
    hide Packed;
  }

  /** Packing the nonzero entries keeps their sum. */
  lemma {:induction false} SumPacked(freq: seq<nat>, k: nat)
    requires k <= |freq|
    ensures HuffmanTree.Sum(Packed(freq, k), |Packed(freq, k)|) == HuffmanTree.Sum(freq, k)
  {
    if k != 0 {
      SumPacked(freq, k - 1);
      var p := Packed(freq, k - 1);
      assert p + [] == p;
      if freq[k - 1] > 0 {
        SumPrefix(p + [freq[k - 1]], p, |p|);
      }
    }
  }

  /** Moves the nonzero frequencies to the front, remembering which symbol each one belongs to. */
  method Compact(freq0: seq<nat>) returns (freq: seq<nat>, syms: seq<nat>)
    ensures NonzeroIndices(syms, freq0, |freq0|)
    ensures |freq| == |syms| && forall j :: 0 <= j < |syms| ==> freq[j] == freq0[syms[j]]
    ensures HuffmanTree.Sum(freq, |freq|) == HuffmanTree.Sum(freq0, |freq0|)
    ensures freq == Packed(freq0, |freq0|)
    ensures AtRank(syms, freq0)
  {
    hide NonzeroIndices, HuffmanTree.Sum, AtRank;
    var work := freq0;
    syms := [];
    NoneYet(freq0);
    for i := 0 to |freq0|
      invariant |work| == |freq0| && |syms| <= i && NonzeroIndices(syms, freq0, i)
      invariant work[i..] == freq0[i..] && work[..|syms|] == Packed(freq0, i)
      invariant PackedFrom(work[..|syms|], syms, freq0)
      invariant AtRank(syms, freq0)
    {
      SameHead(work, freq0, i);
      if work[i] > 0 {
        NonzeroPush(syms, freq0, i);
        RankPush(syms, freq0, i);
        MoveForward(work, |syms|, i);
        PackedMore(work[..|syms|], syms, freq0, i);
        work := work[|syms| := work[i]];
        syms := syms + [i];
      } else {
        NonzeroSkip(syms, freq0, i);
      }
    }
    freq := work[..|syms|];
    assert freq0[..|freq0|] == freq0;
    PackedEqual(freq, syms, freq0);
    SumPacked(freq0, |freq0|);
  }

  /** `packed` holds the entries that `syms` names. */
  ghost predicate PackedFrom(packed: seq<nat>, syms: seq<nat>, freq: seq<nat>) {
    |packed| == |syms| && forall j :: 0 <= j < |syms| ==> syms[j] < |freq| && packed[j] == freq[syms[j]]
  }

  lemma NoneYet(freq: seq<nat>)
    ensures NonzeroIndices([], freq, 0) && freq[..0] == Packed(freq, 0) && PackedFrom(freq[..0], [], freq)
    ensures AtRank([], freq)
  {
  }

  lemma SameHead(a: seq<nat>, b: seq<nat>, i: nat)
    requires i < |a| == |b| && a[i..] == b[i..]
    ensures a[i] == b[i] && a[i + 1..] == b[i + 1..]
  {
    assert a[i] == a[i..][0] && b[i] == b[i..][0];
    assert a[i + 1..] == a[i..][1..] && b[i + 1..] == b[i..][1..];
  }

  lemma MoveForward(a: seq<nat>, p: nat, i: nat)
    requires p <= i < |a|
    ensures a[p := a[i]][..p + 1] == a[..p] + [a[i]] && a[p := a[i]][i + 1..] == a[i + 1..]
  {
  }

  lemma PackedMore(packed: seq<nat>, syms: seq<nat>, freq: seq<nat>, i: nat)
    requires PackedFrom(packed, syms, freq) && i < |freq|
    ensures PackedFrom(packed + [freq[i]], syms + [i], freq)
  {
  }

  lemma NonzeroSkip(syms: seq<nat>, freq: seq<nat>, i: nat)
    requires i < |freq| && NonzeroIndices(syms, freq, i) && freq[i] == 0
    ensures NonzeroIndices(syms, freq, i + 1)
  {
  }

  lemma PackedEqual(packed: seq<nat>, syms: seq<nat>, freq: seq<nat>)
    requires PackedFrom(packed, syms, freq) && NonzeroIndices(syms, freq, |freq|)
    ensures |packed| == |syms| && forall j :: 0 <= j < |syms| ==> packed[j] == freq[syms[j]]
  {
  }

  /** A table whose code counts can be assigned and which lists each used symbol exactly once. */
  ghost predicate TableFor(t: HuffTbl, freq: seq<nat>) {
    && |freq| == 257 && |t.vals| == 256 && Assignable(t.bits)
    && var m := Total(t.bits, 17);
    && m <= 256
    && (forall p :: 0 <= p < m ==> t.vals[p] < 256 && freq[t.vals[p]] > 0)
    && (forall p, q :: 0 <= p < q < m ==> t.vals[p] != t.vals[q])
    && (forall s :: 0 <= s < 256 && freq[s] > 0 ==> s in t.vals[..m])
  }

  lemma ListedIsTable(bits: seq<nat>, vals: seq<nat>, freq: seq<nat>, syms: seq<nat>, cs: seq<nat>)
    requires |freq| == 257 && |vals| == 256 && Assignable(bits) && Total(bits, 17) == |cs| - 1
    requires NonzeroIndices(syms, freq[256 := 1], 257) && Listed(vals, syms, cs)
    requires forall x :: 0 <= x < |cs| ==> cs[x] <= cs[|cs| - 1]
    ensures TableFor(HuffTbl(bits, vals), freq)
  {
    var m := |cs| - 1;
    LastIs256(syms, freq);
    forall p | 0 <= p < m ensures vals[p] < 256 && freq[vals[p]] > 0 {
      var x := SlotTaken(cs, p);
    }
    forall p, q | 0 <= p < q < m ensures vals[p] != vals[q] {
      var x := SlotTaken(cs, p);
      var y := SlotTaken(cs, q);
      assert syms[x] != syms[y];
    }
    forall s | 0 <= s < 256 && freq[s] > 0 ensures s in vals[..m] {
      assert s in syms;
      var x :| 0 <= x < |syms| && syms[x] == s;
      assert vals[..m][Slot(cs, x)] == s;
    }
  }

  lemma SlotTaken(cs: seq<nat>, p: nat) returns (x: nat)
    requires p < |cs| - 1 && forall x :: 0 <= x < |cs| ==> cs[x] <= cs[|cs| - 1]
    ensures x < |cs| - 1 && Slot(cs, x) == p
  {
    var m := |cs| - 1;
    BelowAll(cs, |cs|, cs[m] + 1);
    x := SlotOnto(cs, p, cs[m] + 1);
    LastSlot(cs);
  }

  lemma LastIs256(syms: seq<nat>, freq: seq<nat>)
    requires |freq| == 257 && NonzeroIndices(syms, freq[256 := 1], 257)
    ensures |syms| > 0 && syms[|syms| - 1] == 256
    ensures forall x :: 0 <= x < |syms| - 1 ==> syms[x] < 256
  {
    assert 256 in syms;
    var x :| 0 <= x < |syms| && syms[x] == 256;
  }

  lemma {:induction false} IncreasingLength(syms: seq<nat>, k: nat)
    requires forall i, j :: 0 <= i < j < |syms| ==> syms[i] < syms[j]
    requires forall j :: 0 <= j < |syms| ==> syms[j] < k
    ensures |syms| <= k
  {
    if |syms| != 0 {
      IncreasingLength(syms[..|syms| - 1], syms[|syms| - 1]);
    }
  }

  lemma SymbolCount(syms: seq<nat>, freq: seq<nat>)
    requires |freq| == 257 && NonzeroIndices(syms, freq, 257)
    ensures |syms| <= 257
  {
    IncreasingLength(syms, 257);
  }

  lemma MinWeightJump(h: nat, a: nat, b: nat)
    requires h >= 1 && HuffmanTree.MinWeight(h) >= a && HuffmanTree.MinWeight(h + 1) >= b
    ensures HuffmanTree.MinWeight(h + 4) >= 2 * a + 3 * b
    ensures HuffmanTree.MinWeight(h + 5) >= 3 * a + 5 * b
  {
    assert HuffmanTree.MinWeight(h + 2) >= a + b;
    assert HuffmanTree.MinWeight(h + 3) >= a + 2 * b;
  }

  /** A code of length 33 needs a total weight of at least 9227465. */
  lemma MinWeight33(h: nat)
    requires h >= 33
    ensures HuffmanTree.MinWeight(h) >= 9227465
  {
    MinWeightJump(1, 2, 3);
    MinWeightJump(5, 13, 21);
    MinWeightJump(9, 89, 144);
    MinWeightJump(13, 610, 987);
    MinWeightJump(17, 4181, 6765);
    MinWeightJump(21, 28657, 46368);
    MinWeightJump(25, 196418, 317811);
    MinWeightJump(29, 1346269, 2178309);
    MinWeightMono(33, h);
  }

  lemma {:induction false} MinWeightMono(a: nat, b: nat)
    requires a <= b
    ensures HuffmanTree.MinWeight(a) <= HuffmanTree.MinWeight(b)
  {
    if a < b {
      MinWeightMono(a, b - 1);
    }
  }

  /** The code lengths the merge loop gives for these frequencies, with the pseudo-symbol added. */
  ghost function LengthsOf(freq: seq<nat>): (cs: seq<nat>)
    requires |freq| == 257
    ensures |cs| == |Packed(freq[256 := 1], 257)|
  {
    HuffmanTree.Lengths(Packed(freq[256 := 1], 257))
  }

  /** The length the merge loop gives symbol `s`. */
  ghost function LengthOf(freq: seq<nat>, s: nat): (l: nat)
    requires |freq| == 257 && s <= 256
  {
    var cs, x := LengthsOf(freq), |Packed(freq[256 := 1], s)|;
    if x < |cs| then cs[x] else 0
  }

  /** The greatest code length. */
  ghost function Depth(freq: seq<nat>): (d: nat)
    requires |freq| == 257
  {
    var cs := LengthsOf(freq);
    cs[|cs| - 1]
  }

  /** The listed symbols are in the order of their lengths, and of their numbers where these are equal. */
  ghost predicate Sorted(vals: seq<nat>, m: nat, freq: seq<nat>) {
    && |freq| == 257 && m <= |vals| && (forall p :: 0 <= p < m ==> vals[p] <= 256)
    && forall p, q :: 0 <= p < q < m ==>
         || LengthOf(freq, vals[p]) < LengthOf(freq, vals[q])
         || (LengthOf(freq, vals[p]) == LengthOf(freq, vals[q]) && vals[p] < vals[q])
  }

  /** Every listed symbol lies in the class of its length. */
  ghost predicate InClass(bits: seq<nat>, vals: seq<nat>, m: nat, freq: seq<nat>) {
    && |freq| == 257 && |bits| == 17 && m <= |vals| && (forall p :: 0 <= p < m ==> vals[p] <= 256)
    && forall p :: 0 <= p < m ==>
         var l := LengthOf(freq, vals[p]);
         l <= 16 && Total(bits, l) <= p < Total(bits, l + 1)
  }

  /** `syms` lists the used symbols, each at the rank its code length has. */
  ghost predicate Ranked(syms: seq<nat>, cs: seq<nat>, freq: seq<nat>) {
    && |freq| == 257 && |syms| == |cs| && cs == LengthsOf(freq)
    && (forall x :: 0 <= x < |syms| ==> syms[x] <= 256 && |Packed(freq[256 := 1], syms[x])| == x)
    && forall x, y :: 0 <= x < y < |syms| ==> syms[x] < syms[y]
  }

  lemma RankedLength(syms: seq<nat>, cs: seq<nat>, freq: seq<nat>, x: nat)
    requires Ranked(syms, cs, freq) && x < |syms|
    ensures syms[x] <= 256 && LengthOf(freq, syms[x]) == cs[x]
  {
    hide LengthsOf, Packed;
  }

  lemma SlotPair(cs: seq<nat>, x: nat, y: nat)
    requires x < |cs| && y < |cs| && Slot(cs, x) < Slot(cs, y)
    ensures cs[x] < cs[y] || (cs[x] == cs[y] && x < y)
  {
    hide Slot;
    SlotOrder(cs, y, x);
  }

  lemma ListedIsSorted(vals: seq<nat>, syms: seq<nat>, cs: seq<nat>, freq: seq<nat>)
    requires Listed(vals, syms, cs) && Ranked(syms, cs, freq)
    requires forall x :: 0 <= x < |cs| ==> cs[x] <= cs[|cs| - 1]
    ensures Sorted(vals, |cs| - 1, freq)
  {
    hide LengthOf, LengthsOf, Packed, Slot;
    forall p | 0 <= p < |cs| - 1 ensures vals[p] <= 256 {
      var x := SlotTaken(cs, p);
      RankedLength(syms, cs, freq, x);
    }
    forall p, q | 0 <= p < q < |cs| - 1
      ensures || LengthOf(freq, vals[p]) < LengthOf(freq, vals[q])
              || (LengthOf(freq, vals[p]) == LengthOf(freq, vals[q]) && vals[p] < vals[q])
    {
      var x := SlotTaken(cs, p);
      var y := SlotTaken(cs, q);
      SlotPair(cs, x, y);
      RankedLength(syms, cs, freq, x);
      RankedLength(syms, cs, freq, y);
    }
  }

  lemma {:induction false} TotalIsBelow(b: seq<nat>, cs: seq<nat>, l: nat)
    requires l <= |b| && forall k :: 0 <= k < l ==> b[k] == Count(cs, |cs|, k)
    ensures Total(b, l) == Below(cs, |cs|, l)
  {
    if l == 0 {
      NothingBelowZero(cs, |cs|);
    } else {
      TotalIsBelow(b, cs, l - 1);
      BelowNext(cs, |cs|, l - 1);
    }
  }

  /** The slot of a symbol lies in the class of its length, also when the last symbol is dropped. */
  lemma SlotInClass(b: seq<nat>, cs: seq<nat>, x: nat)
    requires |b| == 17 && x < |cs| - 1 && (forall y :: 0 <= y < |cs| ==> cs[y] <= cs[|cs| - 1] <= 16)
    requires forall l :: 0 <= l < 17 ==> b[l] == Count(cs, |cs|, l) - (if l == cs[|cs| - 1] then 1 else 0)
    ensures Total(b, cs[x]) <= Slot(cs, x) < Total(b, cs[x] + 1)
  {
    hide Total, Below, Count;
    TotalIsBelow(b, cs, cs[x]);
    BelowNext(cs, |cs|, cs[x]);
    CountStrict(cs, x, |cs|);
    TotalNext(b, cs[x]);
    if cs[x] == cs[|cs| - 1] {
      LastSlot(cs);
      BelowAll(cs, |cs|, cs[x] + 1);
    }
  }

  lemma TotalNext(b: seq<nat>, l: nat)
    requires l < |b|
    ensures Total(b, l + 1) == Total(b, l) + b[l]
  {
  }

  lemma DroppedCounts(w: seq<nat>, b: seq<nat>, cs: seq<nat>)
    requires |w| == MAX_LEN + 1 && OneLess(w, b) && |cs| > 0
    requires forall l :: 0 <= l < |w| ==> w[l] == Count(cs, |cs|, l)
    requires forall y :: 0 <= y < |cs| ==> cs[y] <= cs[|cs| - 1] <= 16
    ensures forall l :: 0 <= l < 17 ==> b[l] == Count(cs, |cs|, l) - (if l == cs[|cs| - 1] then 1 else 0)
  {
    hide Count;
    LongestCounted(cs);
    var i :| 0 <= i < 17 && w[i] > 0 && (forall k :: i < k < 17 ==> w[k] == 0)
             && forall k :: 0 <= k < 17 ==> b[k] == w[k] - (if k == i then 1 else 0);
    if i > cs[|cs| - 1] {
      NoneLonger(cs, |cs|, i);
    }
  }

  lemma {:induction false} NoneLonger(cs: seq<nat>, k: nat, l: nat)
    requires k <= |cs| && forall y :: 0 <= y < k ==> cs[y] < l
    ensures Count(cs, k, l) == 0
  {
    if k != 0 {
      NoneLonger(cs, k - 1, l);
    }
  }

  lemma ListedInClass(b: seq<nat>, vals: seq<nat>, syms: seq<nat>, cs: seq<nat>, freq: seq<nat>)
    requires Listed(vals, syms, cs) && Ranked(syms, cs, freq) && |b| == 17
    requires forall y :: 0 <= y < |cs| ==> cs[y] <= cs[|cs| - 1] <= 16
    requires forall l :: 0 <= l < 17 ==> b[l] == Count(cs, |cs|, l) - (if l == cs[|cs| - 1] then 1 else 0)
    ensures InClass(b, vals, |cs| - 1, freq)
  {
    hide LengthOf, LengthsOf, Packed, Slot, Total, Count;
    forall p | 0 <= p < |cs| - 1
      ensures vals[p] <= 256
      ensures LengthOf(freq, vals[p]) <= 16
              && Total(b, LengthOf(freq, vals[p])) <= p < Total(b, LengthOf(freq, vals[p]) + 1)
    {
      var x := SlotTaken(cs, p);
      RankedLength(syms, cs, freq, x);
      SlotInClass(b, cs, x);
    }
  }

  /** The table is in the order of the lengths, and when none had to be limited its classes are the lengths. */
  lemma OrderedTable(w: seq<nat>, bits: seq<nat>, b: seq<nat>, vals: seq<nat>, syms: seq<nat>, cs: seq<nat>,
                     freq: seq<nat>)
    requires FullCode(cs) && |w| == MAX_LEN + 1 && forall l :: 0 <= l <= MAX_LEN ==> w[l] == Count(cs, |cs|, l)
    requires (NoneLong(w) ==> bits == w) && OneLess(bits, b) && Listed(vals, syms, cs) && Ranked(syms, cs, freq)
    ensures Sorted(vals, |cs| - 1, freq) && (Depth(freq) <= 16 ==> InClass(b, vals, |cs| - 1, freq))
  {
    hide Listed, Ranked, Sorted, InClass, Count, LengthsOf;
    ListedIsSorted(vals, syms, cs, freq);
    LengthsRanked(syms, cs, freq);
    if Depth(freq) <= 16 {
      forall k | 17 <= k < |w| ensures w[k] == 0 {
        NoneLonger(cs, |cs|, k);
      }
      DroppedCounts(w, b, cs);
      ListedInClass(b, vals, syms, cs, freq);
    }
  }

  lemma LengthsRanked(syms: seq<nat>, cs: seq<nat>, freq: seq<nat>)
    requires Ranked(syms, cs, freq)
    ensures |freq| == 257 && cs == LengthsOf(freq)
  {
    hide LengthsOf, Packed;
  }

  lemma SymbolsRanked(syms: seq<nat>, cs: seq<nat>, freq: seq<nat>)
    requires |freq| == 257 && NonzeroIndices(syms, freq[256 := 1], 257) && AtRank(syms, freq[256 := 1])
    requires |syms| == |cs| && cs == LengthsOf(freq)
    ensures Ranked(syms, cs, freq)
  {
    hide LengthsOf, Packed;
  }

  /** A table without code words. */
  ghost predicate EmptyTable(t: HuffTbl) {
    |t.bits| == 17 && (forall k :: 0 <= k < 17 ==> t.bits[k] == 0) && |t.vals| == 256
  }

  /**
   Builds a Huffman table from symbol frequencies. It panics exactly when a code comes out longer than 32
   bits, which a total frequency below 9227465 rules out, or when 255 symbols and the pseudo-symbol all get
   eight bits. When 256 symbols get lengths of one and nine bits, the table comes out empty; otherwise it
   lists each symbol used. With fewer than 255 symbols used only the first case can occur.
   */
  method GenOptimalTable(vals0: seq<nat>, freq0: seq<nat>) returns (r: Result<HuffTbl>)
    requires |freq0| == 257 && |vals0| == 256 && InBytes(vals0)
    requires HuffmanTree.Sum(freq0[256 := 1], 257) <= HuffmanTree.LIMIT
    ensures r.Panic? <==> Depth(freq0) > MAX_LEN || AllEight(LengthsOf(freq0))
    ensures r.Ok? ==> if OneAndNines(LengthsOf(freq0)) then EmptyTable(r.value) else TableFor(r.value, freq0)
    ensures r.Ok? ==> InBytes(r.value.vals)
    ensures r.Ok? && !OneAndNines(LengthsOf(freq0)) ==>
              var t, m := r.value, |LengthsOf(freq0)| - 1;
              && |t.bits| == 17 && Total(t.bits, 17) == m && Sorted(t.vals, m, freq0)
              && (Depth(freq0) <= 16 ==> InClass(t.bits, t.vals, m, freq0))
    ensures |LengthsOf(freq0)| < 256 ==> !AllEight(LengthsOf(freq0)) && !OneAndNines(LengthsOf(freq0))
    ensures HuffmanTree.Sum(freq0[256 := 1], 257) < 9227465 ==> Depth(freq0) <= MAX_LEN
  {
    hide Full, ScaledKraft, HuffmanTree.Shortest, HuffmanTree.Lengths, TableFor, Packed, HuffmanTree.Sum, Count, Horner,
         Assignable, Total, Listed, AtRank, NonzeroIndices, Ranked, Sorted, InClass;
    var freq, syms := Compact(freq0[256 := 1]);
    LastIs256(syms, freq0);
    SymbolCount(syms, freq0[256 := 1]);
    var cs := HuffmanTree.CodeLengths(freq);
    if HuffmanTree.Sum(freq0[256 := 1], 257) < 9227465 && cs[|cs| - 1] > MAX_LEN {
      MinWeight33(cs[|cs| - 1]);
    }
    var counts := CountLengths(cs);
    if counts.Panic? {
      return Panic;
    }
    WrappedCounts(cs, counts.value);
    var bits := Limit(counts.value, |cs|);
    var dropped := DropLongest(bits, |cs|);
    if dropped.Panic? {
      return Panic;
    }
    var vals := ListSymbols(vals0, counts.value, cs, syms);
    if !OneAndNines(cs) {
      ListedIsTable(dropped.value, vals, freq0, syms, cs);
      SymbolsRanked(syms, cs, freq0);
      OrderedTable(counts.value, bits, dropped.value, vals, syms, cs, freq0);
    }
    r := Ok(HuffTbl(dropped.value, vals));
  }

  /** Lengths that satisfy Kraft's equality fill the code space. */
  lemma FullCounts(bits: seq<nat>, cs: seq<nat>)
    requires |bits| == MAX_LEN + 1 && |cs| <= 257 && HuffmanTree.KraftAll(cs, |cs|) == 1.0
    requires forall x :: 0 <= x < |cs| ==> cs[x] <= MAX_LEN
    requires Horner(bits, MAX_LEN) == ScaledKraft(cs, |cs|) && Total(bits, MAX_LEN + 1) == |cs|
    ensures Full(bits, MAX_LEN, |cs|)
  {
    KraftScaled(cs, |cs|);
    Pow2At32();
  }
}
