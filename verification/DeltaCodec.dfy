/**
 Inter-frame coding of quantized coefficients. Each frame has a quantization level; the encoder sends the
 difference to the previous frame, rescaled to the new level. Sampled blocks are quantized beforehand at
 the finest level and brought to the chosen level from that cache.
 */
module DeltaCodec {
  import opened Bits
  import opened Quantizer

  const LEVELS: nat := 32
  const FINEST: nat := 31

  // ----- Shifts and their fractions -----

  function Shl(x: int, k: nat): (y: int)
    decreases k
  {
    if k == 0 then x else Shl(2 * x, k - 1)
  }

  /** The low `k` bits in two's complement. */
  function Low(x: int, k: nat): (r: nat)
    decreases k
  {
    if k == 0 then 0 else x % 2 + 2 * Low(x / 2, k - 1)
  }

  /** One for a negative number whose shift drops a fraction. */
  function Off(x: int, k: nat): (o: int) {
    if x < 0 && Low(x, k) > 0 then 1 else 0
  }

  lemma {:induction false} AsrComplement(x: int, k: nat)
    ensures Asr(-x - 1, k) == -Asr(x, k) - 1
    decreases k
  {
    if k != 0 {
      AsrComplement(x / 2, k - 1);
      assert (-x - 1) / 2 == -(x / 2) - 1;
    }
  }

  lemma AtZero(x: int)
    ensures Asr(x, 0) == x && Low(x, 0) == 0
  {
  }

  lemma Negated(x: int)
    ensures (-x) / 2 == if x % 2 == 0 then -(x / 2) else -(x / 2) - 1
  {
  }

  lemma {:induction false} AsrNegate(x: int, k: nat)
    ensures -Asr(-x, k) == Asr(x, k) + (if Low(x, k) > 0 then 1 else 0)
    decreases k
  {
    hide Asr, Low;
    if k == 0 {
      AtZero(x);
      AtZero(-x);
    } else {
      AsrNext(x, k);
      AsrNext(-x, k);
      LowNext(x, k);
      Negated(x);
      AsrNegate(x / 2, k - 1);
      AsrComplement(x / 2, k - 1);
    }
  }

  /** Shifting and correcting a negative fraction truncates toward zero. */
  lemma TruncateIs(x: int, k: nat)
    ensures Truncate(x, k) == Asr(x, k) + Off(x, k)
  {
    if x < 0 {
      AsrNegate(x, k);
    }
  }

  lemma LowNext(x: int, k: nat)
    requires k > 0
    ensures Low(x, k) > 0 <==> x % 2 == 1 || Low(x / 2, k - 1) > 0
  {
  }

  lemma AsrNext(x: int, k: nat)
    requires k > 0
    ensures Asr(x, k) == Asr(x / 2, k - 1)
  {
  }

  lemma HalfDifference(n: int, p: int, b: nat)
    requires b <= 1
    ensures (n - p - b) / 2 == n / 2 - p / 2 - (if p % 2 + b > n % 2 then 1 else 0)
  {
  }

  lemma LowCompared(n: int, p: int, b: nat, k: nat)
    requires b <= 1 && k > 0
    ensures Low(p, k) + b > Low(n, k)
       <==> Low(p / 2, k - 1) + (if p % 2 + b > n % 2 then 1 else 0) > Low(n / 2, k - 1)
  {
  }

  /** The shift of a difference, from the shifts and the fractions. */
  lemma {:induction false} AsrDifference(n: int, p: int, b: nat, k: nat)
    requires b <= 1
    ensures Asr(n - p - b, k) == Asr(n, k) - Asr(p, k) - (if Low(p, k) + b > Low(n, k) then 1 else 0)
    decreases k
  {
    hide Asr, Low;
    if k == 0 {
      AtZero(n - p - b);
      AtZero(n);
      AtZero(p);
    } else {
      var b' := if p % 2 + b > n % 2 then 1 else 0;
      HalfDifference(n, p, b);
      LowCompared(n, p, b, k);
      AsrDifference(n / 2, p / 2, b', k - 1);
      AsrNext(n - p - b, k);
      AsrNext(n, k);
      AsrNext(p, k);
    }
  }

  lemma {:induction false} ShlDouble(x: int, k: nat)
    ensures Shl(2 * x, k) == 2 * Shl(x, k)
    decreases k
  {
    if k != 0 {
      ShlDouble(2 * x, k - 1);
    }
  }

  /** Shifting left and then right by less leaves the rest of the shift and no fraction. */
  lemma {:induction false} AsrOfShl(x: int, k: nat, j: nat)
    requires j <= k
    ensures Asr(Shl(x, k), j) == Shl(x, k - j) && Low(Shl(x, k), j) == 0
    decreases j
  {
    if j != 0 {
      ShlDouble(x, k - 1);
      AsrOfShl(x, k - 1, j - 1);
    }
  }

  lemma {:induction false} ShlSign(x: int, k: nat)
    ensures (x < 0 <==> Shl(x, k) < 0) && Shl(-x, k) == -Shl(x, k) && Abs(x) <= Abs(Shl(x, k))
    decreases k
  {
    if k != 0 {
      ShlSign(2 * x, k - 1);
    }
  }

  lemma {:induction false} ShlOfAsr(x: nat, k: nat)
    ensures 0 <= Shl(Asr(x, k), k) <= x
    decreases k
  {
    if k != 0 {
      ShlOfAsr(x / 2, k - 1);
      ShlDouble(Asr(x / 2, k - 1), k - 1);
    }
  }

  lemma TruncateAdd(x: int, a: nat, b: nat)
    ensures Truncate(x, a + b) == Truncate(Truncate(x, a), b)
  {
    AsrAdd(Abs(x), a, b);
    if x < 0 && Asr(-x, a) == 0 {
      AsrZero(b);
    }
  }

  lemma {:induction false} AsrZero(k: nat)
    ensures Asr(0, k) == 0
  {
    if k != 0 {
      AsrZero(k - 1);
    }
  }

  /** Truncating a left-shifted number. */
  lemma TruncateShl(x: int, a: nat, b: nat)
    ensures Truncate(Shl(x, a), a + b) == Truncate(x, b)
  {
    ShlSign(x, a);
    AsrOfShl(Abs(x), a, a);
    AsrAdd(Shl(Abs(x), a), a, b);
  }

  lemma {:induction false} HalvedBound(x: nat, k: nat)
    requires k >= 1 && x <= 32767
    ensures Asr(x, k) <= 16383
  {
    assert Asr(x / 2, k - 1) <= x / 2;
  }

  lemma EvenSum(x: int, y: int)
    ensures (x + 2 * y) / 2 == x / 2 + y
  {
  }

  lemma AsrShifted(x: int, c: int, k: nat)
    ensures Asr(x + c * Pow2(k), k) == Asr(x, k) + c
  {
    AsrMoved(x, c * Pow2(k), c, k);
  }

  lemma {:induction false} AsrMoved(x: int, y: int, c: int, k: nat)
    requires y == c * Pow2(k)
    ensures Asr(x + y, k) == Asr(x, k) + c
    decreases k
  {
    if k != 0 {
      var h := c * Pow2(k - 1);
      MulDouble(c, Pow2(k - 1));
      assert y == 2 * h;
      EvenSum(x, h);
      AsrMoved(x / 2, h, c, k - 1);
      hide Asr, Pow2;
      AsrNext(x + y, k);
      AsrNext(x, k);
    }
  }

  // ----- Coding one coefficient -----

  /** Extra shifts by level: finer levels shift no more than coarser ones. */
  ghost predicate TableOk(t: seq<nat>) {
    |t| == LEVELS && t[0] <= 15 && forall i, j :: 0 <= i <= j < LEVELS ==> t[j] <= t[i]
  }

  /** The shifts of the table leave the total shift below the width of the word. */
  ghost predicate Usable(p: Divisor, t: seq<nat>) {
    TableOk(t) && p.shift + t[0] < 32
  }

  lemma UsableAt(p: Divisor, t: seq<nat>, level: nat)
    requires Usable(p, t) && level < LEVELS
    ensures TableOk(t) && p.shift + t[level] < 32
  {
  }

  /** The divisors of the finest quantization values are usable with every table of shifts up to 12. */
  lemma UsableInProgram(scale: nat, t: seq<nat>)
    requires 1247 <= scale <= 31521 && TableOk(t) && t[0] <= 12
    ensures 1 <= Descale(1, scale) <= 15 && Usable(ComputeReciprocal(Descale(1, scale)), t)
  {
    DivisorsInUse(1, scale);
    SmallDivisorShift(Descale(1, scale));
  }

  /** Brings a stored coefficient to another level, in the arithmetic of the machine. */
  function RescalePrev(c: int, rescale: bool, shr: bool, s: nat): (r: int) {
    if !rescale then c
    else if shr then Wrap16(Asr(c, s) + Off(c, s))
    else Wrap16(Shl(c, s))
  }

  /** The shift between the previous and the new level. */
  function RescaleShift(t: seq<nat>, last: nat, level: nat): (s: nat)
    requires TableOk(t) && last < LEVELS && level < LEVELS
  {
    if level > last then t[last] - t[level] else t[level] - t[last]
  }

  /** The stored coefficient at the new level, as encoder and decoder both compute it. */
  function Rescaled(prev: int, t: seq<nat>, last: nat, level: nat): (r: int)
    requires TableOk(t) && last < LEVELS && level < LEVELS
  {
    RescalePrev(prev, level != last, level < last, RescaleShift(t, last, level))
  }

  datatype Coded = Coded(diff: int, prev: int)

  /** Quantizing directly at the new level. */
  function Direct(prev: int, x: int, p: Divisor, t: seq<nat>, last: nat, level: nat): (c: Coded)
    requires Usable(p, t) && last < LEVELS && level < LEVELS
  {
    var next := Quantize(x, p, t[level]);
    Coded(Wrap16(next - Rescaled(prev, t, last, level)), next)
  }

  /** A sampled coefficient: difference and value at the finest level, and the stored value brought to it. */
  datatype Sampled = Sampled(cache: int, next: int, prev: int)

  function Sample(prev: int, x: int, p: Divisor, t: seq<nat>, last: nat): (c: Sampled)
    requires Usable(p, t) && last < LEVELS
  {
    var prev1 := RescalePrev(prev, last != FINEST, false, t[last] - t[FINEST]);
    var next := Quantize(x, p, t[FINEST]);
    Sampled(Wrap16(next - prev1), next, prev1)
  }

  /** The correction of a shifted difference. */
  function OffDiff(next: int, prev: int, s: nat, coarser: bool): (o: int) {
    if coarser then Off(next, s) - Off(prev, s) + (if Low(prev, s) > Low(next, s) then 1 else 0)
    else Off(next, s)
  }

  /** The cached branch: shifts of the cached values with corrections for signs and fractions. */
  function FromCache(c: Sampled, t: seq<nat>, last: nat, level: nat): (r: Coded)
    requires TableOk(t) && last < LEVELS && level < LEVELS
  {
    if level == FINEST then Coded(c.cache, c.next)
    else
      var s := t[level] - t[FINEST];
      Coded(Wrap16(Asr(c.cache, s) + OffDiff(c.next, c.prev, s, level < last)),
            Wrap16(Asr(c.next, s) + Off(c.next, s)))
  }

  // ----- The cache agrees with direct quantization -----

  /** The coefficient is what quantizing some input at the level gives. */
  ghost predicate Reachable(prev: int, x0: int, d: nat, l: nat)
    requires d > 0
  {
    -32767 <= x0 <= 32767 && prev == Truncate(Rounded(x0, d), l)
  }

  lemma RoundedSmall(x: int, d: nat)
    requires d > 0 && -32767 <= x <= 32767
    ensures -32767 <= Rounded(x, d) <= 32767
  {
    var q := RoundedBound(Abs(x), d);
    SignedQuotient(x, d);
    hide Rounded;
  }

  lemma TruncateSmall(x: int, k: nat)
    requires -32767 <= x <= 32767
    ensures -32767 <= Truncate(x, k) <= 32767
    ensures k >= 1 ==> -16383 <= Truncate(x, k) <= 16383
  {
    if k >= 1 {
      HalvedBound(Abs(x), k);
    }
  }

  /** Bringing a truncated value back to the finest level stays within its original. */
  lemma ShlOfTruncate(r: int, k: nat)
    requires -32767 <= r <= 32767
    ensures -32767 <= Shl(Truncate(r, k), k) <= 32767
  {
    ShlOfAsr(Abs(r), k);
    ShlSign(Asr(Abs(r), k), k);
  }

  /** The stored value at the finest level. */
  lemma SampledPrev(prev: int, x0: int, d: nat, t: seq<nat>, last: nat)
    requires TableOk(t) && last < LEVELS && d > 0 && Reachable(prev, x0, d, t[last])
    ensures var a := t[last] - t[FINEST];
            && RescalePrev(prev, last != FINEST, false, a) == Shl(prev, a)
            && -32767 <= Shl(prev, a) <= 32767
  {
    hide Rounded, Truncate, Shl;
    var a, r := t[last] - t[FINEST], Rounded(x0, d);
    RoundedSmall(x0, d);
    TruncateAdd(r, t[FINEST], a);
    TruncateSmall(r, t[FINEST]);
    ShlOfTruncate(Truncate(r, t[FINEST]), a);
    WrapSmall(Shl(prev, a));
    ShlNone(prev);
  }

  lemma ShlNone(x: int)
    ensures Shl(x, 0) == x
  {
  }

  /** The stored value at the new level, from the one at the finest level. */
  lemma RescaledPrev(prev: int, t: seq<nat>, last: nat, level: nat)
    requires TableOk(t) && last < LEVELS && level < LEVELS && -32767 <= Shl(prev, t[last] - t[FINEST]) <= 32767
    ensures var p, s := Shl(prev, t[last] - t[FINEST]), t[level] - t[FINEST];
            && Rescaled(prev, t, last, level) == Truncate(p, s) == Asr(p, s) + Off(p, s)
            && -32767 <= Truncate(p, s) <= 32767 && (s >= 1 ==> -16383 <= Truncate(p, s) <= 16383)
            && (level >= last ==> Low(p, s) == 0 && Off(p, s) == 0)
  {
    hide Shl, Low, Off, Asr, Truncate, Wrap16;
    var a, s := t[last] - t[FINEST], t[level] - t[FINEST];
    var p := Shl(prev, a);
    TruncateIs(p, s);
    TruncateSmall(p, s);
    WrapSmall(Truncate(p, s));
    if level < last {
      TruncateShl(prev, a, t[level] - t[last]);
      TruncateIs(prev, t[level] - t[last]);
    } else {
      AsrOfShl(prev, a, s);
      ShlNone(prev);
      NoOff(p, s);
    }
  }

  lemma NoOff(x: int, k: nat)
    requires Low(x, k) == 0
    ensures Off(x, k) == 0
  {
  }

  /** What the caller can check: the difference at the finest level fits in 16 bits. */
  ghost predicate CacheFits(prev: int, x: int, d: nat, t: seq<nat>, last: nat, level: nat)
    requires TableOk(t) && last < LEVELS && level < LEVELS && d > 0
  {
    || t[level] == t[FINEST]
    || -32768 <= Truncate(Rounded(x, d), t[FINEST]) - Shl(prev, t[last] - t[FINEST]) <= 32767
  }

  lemma WrapCases(x: int)
    requires -65536 <= x <= 65535
    ensures Wrap16(x) == if x < -32768 then x + 65536 else if x > 32767 then x - 65536 else x
  {
  }

  lemma AsrWrapped(v: int, s: nat) returns (k: nat)
    requires 1 <= s <= 15
    ensures Asr(v + 65536, s) == Asr(v, s) + k && 2 <= k <= 32768
  {
    k := Pow2(16 - s);
    PowersTo16();
    Pow2Add(16 - s, s);
    Pow2Mono(1, 16 - s);
    Pow2Mono(16 - s, 15);
    AsrShifted(v, k, s);
  }

  /** A wrapped difference shifts to a wrong result. */
  lemma WrongAfterWrap(v: int, s: nat, off: int)
    requires 1 <= s <= 15
    ensures -32768 <= Asr(v, s) + off <= 32767 ==> Wrap16(Asr(v + 65536, s) + off) != Asr(v, s) + off
    ensures -32768 <= Asr(v + 65536, s) + off <= 32767 ==> Wrap16(Asr(v, s) + off) != Asr(v + 65536, s) + off
  {
    var k := AsrWrapped(v, s);
    hide Asr, Wrap16;
    if -32768 <= Asr(v, s) + off <= 32767 {
      WrapDiffers(Asr(v, s) + off, k);
    }
    if -32768 <= Asr(v + 65536, s) + off <= 32767 {
      WrapDiffers(Asr(v + 65536, s) + off, 0 - (k as int));
    }
  }

  lemma WrapDiffers(x: int, k: int)
    requires -32768 <= x <= 32767 && k != 0 && -32768 <= k <= 32768
    ensures Wrap16(x + k) != x
  {
  }

  /** The difference and stored value that direct quantization gives, in unbounded arithmetic. */
  lemma DirectIs(prev: int, x: int, d: nat, t: seq<nat>, last: nat, level: nat)
    requires 1 <= d < TWO16 && d != 65534 && Usable(ComputeReciprocal(d), t) && last < LEVELS && level < LEVELS
    requires -32767 <= x <= 32767
    ensures var n, s := Truncate(Rounded(x, d), t[FINEST]), t[level] - t[FINEST];
            && -32767 <= n <= 32767
            && Quantize(x, ComputeReciprocal(d), t[FINEST]) == n
            && Quantize(x, ComputeReciprocal(d), t[level]) == Truncate(n, s) == Asr(n, s) + Off(n, s)
            && -32767 <= Truncate(n, s) <= 32767 && (s >= 1 ==> -16383 <= Truncate(n, s) <= 16383)
  {
    hide Quantize, ComputeReciprocal, Rounded, Truncate;
    var n, s := Truncate(Rounded(x, d), t[FINEST]), t[level] - t[FINEST];
    QuantizeExact(x, d, t[level]);
    QuantizeExact(x, d, t[FINEST]);
    RoundedSmall(x, d);
    TruncateSmall(Rounded(x, d), t[FINEST]);
    TruncateAdd(Rounded(x, d), t[FINEST], s);
    TruncateSmall(n, s);
    TruncateIs(n, s);
  }

  /** With a cached difference that did not wrap, the corrections make up for the floor shifts. */
  lemma CorrectedShift(n: int, p: int, s: nat, coarser: bool)
    requires !coarser ==> Low(p, s) == 0 && Off(p, s) == 0
    ensures Asr(n - p, s) + OffDiff(n, p, s, coarser) == (Asr(n, s) + Off(n, s)) - (Asr(p, s) + Off(p, s))
  {
    AsrDifference(n, p, 0, s);
  }

  lemma ShiftNone(x: int)
    ensures Asr(x, 0) == x && Off(x, 0) == 0
  {
  }

  /**
   The sampled-block cache: it always leaves the same stored value as direct quantization, and it gives
   the same difference if and only if the difference at the finest level fits in 16 bits or needs no shift.
   */
  lemma CachedAgrees(prev: int, x0: int, x: int, d: nat, t: seq<nat>, last: nat, level: nat)
    requires 1 <= d < TWO16 && d != 65534 && Usable(ComputeReciprocal(d), t) && last < LEVELS && level < LEVELS
    requires -32767 <= x <= 32767
    requires Reachable(prev, x0, d, t[last])
    ensures var p := ComputeReciprocal(d);
            var cached := FromCache(Sample(prev, x, p, t, last), t, last, level);
            var direct := Direct(prev, x, p, t, last, level);
            && cached.prev == direct.prev
            && (cached.diff == direct.diff <==> CacheFits(prev, x, d, t, last, level))
  {
    hide Quantize, ComputeReciprocal, Rounded, Truncate, Shl, Low, Off, Asr, Rescaled, RescalePrev, Reachable, OffDiff,
         Wrap16;
    var n, s, p := Truncate(Rounded(x, d), t[FINEST]), t[level] - t[FINEST], Shl(prev, t[last] - t[FINEST]);
    SampledPrev(prev, x0, d, t, last);
    RescaledPrev(prev, t, last, level);
    DirectIs(prev, x, d, t, last, level);
    CachedDiff(n, p, s, level < last);
    WrapSmall(Truncate(n, s));
    if level == FINEST {
      ShiftNone(n);
      ShiftNone(p);
    }
  }

  /** The difference computed from a cached one that may have wrapped. */
  lemma CachedDiff(n: int, p: int, s: nat, coarser: bool)
    requires s <= 15 && -32767 <= n <= 32767 && -32767 <= p <= 32767
    requires s >= 1 ==> -32768 <= (Asr(n, s) + Off(n, s)) - (Asr(p, s) + Off(p, s)) <= 32767
    requires !coarser ==> Low(p, s) == 0 && Off(p, s) == 0
    ensures Wrap16(Asr(Wrap16(n - p), s) + OffDiff(n, p, s, coarser))
            == Wrap16((Asr(n, s) + Off(n, s)) - (Asr(p, s) + Off(p, s)))
            <==> s == 0 || -32768 <= n - p <= 32767
  {
    hide Off, Low, Wrap16, Asr, OffDiff;
    var off := OffDiff(n, p, s, coarser);
    CorrectedShift(n, p, s, coarser);
    WrapCases(n - p);
    if s == 0 {
      ShiftNone(n);
      ShiftNone(p);
      ShiftNone(n - p);
      ShiftNone(Wrap16(n - p));
      WrapTwice(n - p);
    } else {
      WrapSmall(Asr(n - p, s) + off);
      WrongAfterWrap(n - p - 65536, s, off);
      WrongAfterWrap(n - p, s, off);
    }
  }

  lemma WrapTwice(x: int)
    ensures Wrap16(Wrap16(x)) == Wrap16(x)
  {
  }

  // ----- Encoder and decoder over many frames -----

  /** One frame of a coefficient: its DCT output, the level, and whether its block was sampled. */
  datatype Frame = Frame(x: int, level: nat, sampled: bool)

  /** The coefficient stored between frames and its level. */
  datatype Stored = Stored(value: int, level: nat)

  ghost predicate FrameOk(f: Frame) {
    -32767 <= f.x <= 32767 && f.level < LEVELS
  }

  function EncodeFrame(s: Stored, f: Frame, p: Divisor, t: seq<nat>): (c: Coded)
    requires Usable(p, t) && s.level < LEVELS && f.level < LEVELS
  {
    if f.sampled then FromCache(Sample(s.value, f.x, p, t, s.level), t, s.level, f.level)
    else Direct(s.value, f.x, p, t, s.level, f.level)
  }

  /**
   The receiver's stored coefficient at a new level: multiplied by a power of two for a finer level, divided by
   one toward zero for a coarser level.
   */
  function Restored(prev: int, t: seq<nat>, last: nat, level: nat): (r: int)
    requires TableOk(t) && last < LEVELS && level < LEVELS
  {
    if level >= last then Wrap16(prev * Pow2(t[last] - t[level]))
    else if prev >= 0 then prev / Pow2(t[level] - t[last])
    else -(-prev / Pow2(t[level] - t[last]))
  }

  lemma {:induction false} ShlIs(x: int, k: nat)
    ensures Shl(x, k) == x * Pow2(k)
    decreases k
  {
    if k != 0 {
      ShlIs(2 * x, k - 1);
      MulDouble(x, Pow2(k - 1));
    }
  }

  lemma AsrDivides(x: nat, k: nat)
    ensures Asr(x, k) == x / Pow2(k)
  {
    hide Asr, Pow2;
    DivMod(x, Pow2(k));
    AsrIs(x, k, x / Pow2(k));
  }

  /** Encoder and receiver bring a stored coefficient to another level alike. */
  lemma RestoredIs(prev: int, t: seq<nat>, last: nat, level: nat)
    requires TableOk(t) && last < LEVELS && level < LEVELS && -32767 <= prev <= 32767
    ensures Restored(prev, t, last, level) == Rescaled(prev, t, last, level)
  {
    hide Asr, Shl, Low, Off, Wrap16;
    var s := RescaleShift(t, last, level);
    ShlIs(prev, s);
    TruncateIs(prev, s);
    AsrDivides(Abs(prev), s);
    TruncateSmall(prev, s);
    WrapSmall(Truncate(prev, s));
    WrapSmall(prev);
  }

  /** The receiver brings its stored coefficient to the new level and adds the difference. */
  function DecodeFrame(s: Stored, diff: int, level: nat, t: seq<nat>): (s': Stored)
    requires TableOk(t) && s.level < LEVELS && level < LEVELS
  {
    Stored(Wrap16(Restored(s.value, t, s.level, level) + diff), level)
  }

  lemma ReachableFits(prev: int, x0: int, d: nat, l: nat)
    requires d > 0 && Reachable(prev, x0, d, l)
    ensures -32767 <= prev <= 32767
  {
    hide Rounded, Truncate;
    RoundedSmall(x0, d);
    TruncateSmall(Rounded(x0, d), l);
  }

  ghost predicate FramesOk(frames: seq<Frame>) {
    forall i :: 0 <= i < |frames| ==> FrameOk(frames[i])
  }

  lemma PrefixOk(frames: seq<Frame>, n: nat)
    requires FramesOk(frames) && n < |frames|
    ensures FramesOk(frames[..n]) && FrameOk(frames[n]) && frames[n].level < LEVELS
  {
    hide FrameOk;
    forall i | 0 <= i < n ensures FrameOk(frames[..n][i]) {
      assert frames[..n][i] == frames[i];
    }
    assert FrameOk(frames[n]);
    LevelOk(frames[n]);
  }

  lemma LevelOk(f: Frame)
    requires FrameOk(f)
    ensures f.level < LEVELS
  {
  }

  /** What the encoder stores after a run; it starts with zero at the finest level. */
  function Encoded(frames: seq<Frame>, p: Divisor, t: seq<nat>): (s: Stored)
    requires Usable(p, t) && FramesOk(frames)
    ensures s.level < LEVELS
  {
    hide FramesOk, EncodeFrame;
    if frames == [] then Stored(0, FINEST)
    else
      var n := |frames| - 1;
      PrefixOk(frames, n);
      Stored(EncodeFrame(Encoded(frames[..n], p, t), frames[n], p, t).prev, frames[n].level)
  }

  /** What the decoder stores after receiving the differences of the run. */
  function Decoded(frames: seq<Frame>, p: Divisor, t: seq<nat>): (s: Stored)
    requires Usable(p, t) && FramesOk(frames)
    ensures s.level < LEVELS
  {
    hide FramesOk, EncodeFrame;
    if frames == [] then Stored(0, FINEST)
    else
      var n := |frames| - 1;
      PrefixOk(frames, n);
      DecodeFrame(Decoded(frames[..n], p, t), EncodeFrame(Encoded(frames[..n], p, t), frames[n], p, t).diff,
                  frames[n].level, t)
  }

  lemma WrapAdd(a: int, b: int)
    requires -32768 <= b <= 32767
    ensures Wrap16(a + Wrap16(b - a)) == b
  {
  }

  lemma WrapAddOnly(a: int, v: int, b: int)
    requires -32768 <= b <= 32767 && -32768 <= v <= 32767 && Wrap16(a + v) == b
    ensures v == Wrap16(b - a)
  {
  }

  /** The quantizer gives 16-bit values. */
  lemma QuantizeFits(x: int, p: Divisor, l: nat)
    requires p.shift + l < 32
    ensures -32768 <= Quantize(x, p, l) <= 32767
  {
    hide Asr, Product, Magnitude;
  }

  /** Adding a directly computed difference always gives the stored value, whatever wraps. */
  lemma DirectDecodes(prev: int, x: int, p: Divisor, t: seq<nat>, last: nat, level: nat)
    requires Usable(p, t) && last < LEVELS && level < LEVELS
    ensures var c := Direct(prev, x, p, t, last, level);
            Wrap16(Rescaled(prev, t, last, level) + c.diff) == c.prev
  {
    hide Quantize, Rescaled;
    QuantizeFits(x, p, t[level]);
    WrapAdd(Rescaled(prev, t, last, level), Quantize(x, p, t[level]));
  }

  /** One frame keeps encoder and decoder together if and only if it is coded directly or its cache fits. */
  lemma FrameDecodes(s: Stored, x0: int, f: Frame, d: nat, t: seq<nat>)
    requires 1 <= d < TWO16 && d != 65534 && Usable(ComputeReciprocal(d), t) && s.level < LEVELS && FrameOk(f)
    requires Reachable(s.value, x0, d, t[s.level])
    ensures var c := EncodeFrame(s, f, ComputeReciprocal(d), t);
            && Reachable(c.prev, f.x, d, t[f.level])
            && (DecodeFrame(s, c.diff, f.level, t) == Stored(c.prev, f.level)
                <==> !f.sampled || CacheFits(s.value, f.x, d, t, s.level, f.level))
  {
    hide Quantize, ComputeReciprocal, Rescaled, Restored, FromCache, Sample, CacheFits, Truncate, Rounded;
    var p := ComputeReciprocal(d);
    ReachableFits(s.value, x0, d, t[s.level]);
    RestoredIs(s.value, t, s.level, f.level);
    DirectDecodes(s.value, f.x, p, t, s.level, f.level);
    CachedAgrees(s.value, x0, f.x, d, t, s.level, f.level);
    QuantizeExact(f.x, d, t[f.level]);
    CachedDiffFits(s.value, f.x, p, t, s.level, f.level);
    var direct := Direct(s.value, f.x, p, t, s.level, f.level);
    var c := EncodeFrame(s, f, p, t);
    QuantizeFits(f.x, p, t[f.level]);
    if Wrap16(Rescaled(s.value, t, s.level, f.level) + c.diff) == c.prev {
      WrapAddOnly(Rescaled(s.value, t, s.level, f.level), c.diff, c.prev);
    }
  }

  lemma CachedDiffFits(prev: int, x: int, p: Divisor, t: seq<nat>, last: nat, level: nat)
    requires Usable(p, t) && last < LEVELS && level < LEVELS
    ensures -32768 <= FromCache(Sample(prev, x, p, t, last), t, last, level).diff <= 32767
    ensures -32768 <= Direct(prev, x, p, t, last, level).diff <= 32767
  {
    hide Quantize, Rescaled, Asr, Off, OffDiff, RescalePrev;
  }

  /**
   In every frame of the run, the level exists, the input has a 16-bit magnitude, and a sampled block's cache
   fits.
   */
  ghost predicate RunOk(frames: seq<Frame>, d: nat, t: seq<nat>)
    requires 1 <= d < TWO16 && Usable(ComputeReciprocal(d), t)
  {
    && FramesOk(frames)
    && forall i: nat :: i < |frames| && frames[i].sampled ==> SampleFits(frames[..i + 1], d, t)
  }

  /** The cached difference of the last frame fits. */
  ghost predicate SampleFits(frames: seq<Frame>, d: nat, t: seq<nat>)
    requires 1 <= d < TWO16 && Usable(ComputeReciprocal(d), t)
  {
    && frames != [] && FramesOk(frames)
    && var n := |frames| - 1;
       PrefixOk(frames, n);
       var s := Encoded(frames[..n], ComputeReciprocal(d), t);
       CacheFits(s.value, frames[n].x, d, t, s.level, frames[n].level)
  }

  lemma RunPrefix(frames: seq<Frame>, d: nat, t: seq<nat>)
    requires 1 <= d < TWO16 && Usable(ComputeReciprocal(d), t) && RunOk(frames, d, t) && frames != []
    ensures var n := |frames| - 1;
            && RunOk(frames[..n], d, t) && FrameOk(frames[n])
            && (frames[n].sampled ==> SampleFits(frames, d, t))
  {
    hide SampleFits, FramesOk, TableOk, FrameOk;
    var n := |frames| - 1;
    PrefixOk(frames, n);
    forall i: nat | i < n && frames[i].sampled ensures SampleFits(frames[..n][..i + 1], d, t) {
      assert frames[..n][..i + 1] == frames[..i + 1];
    }
    assert frames[..n + 1] == frames;
  }

  /** The input of the last frame; before the first one, zero. */
  function LastInput(frames: seq<Frame>): (x: int) {
    if frames == [] then 0 else frames[|frames| - 1].x
  }

  /**
   Encoder and decoder never drift apart: over any sequence of frames and level changes, mixing direct and
   cached blocks, the decoder holds exactly what the encoder stored, and that is the last input quantized
   at the last level.
   */
  lemma {:induction false} NoDrift(frames: seq<Frame>, d: nat, t: seq<nat>)
    requires 1 <= d < TWO16 && d != 65534 && Usable(ComputeReciprocal(d), t) && RunOk(frames, d, t)
    ensures var s := Encoded(frames, ComputeReciprocal(d), t);
            && Decoded(frames, ComputeReciprocal(d), t) == s
            && Reachable(s.value, LastInput(frames), d, t[s.level])
    decreases |frames|
  {
    hide ComputeReciprocal, CacheFits, EncodeFrame, DecodeFrame, Reachable;
    if frames == [] {
      ReachableZero(d, t[FINEST]);
    } else {
      RunPrefix(frames, d, t);
      var n := |frames| - 1;
      NoDrift(frames[..n], d, t);
      FrameDecodes(Encoded(frames[..n], ComputeReciprocal(d), t), LastInput(frames[..n]), frames[n], d, t);
    }
  }

  lemma ReachableZero(d: nat, l: nat)
    requires d > 0
    ensures Reachable(0, 0, d, l)
  {
    var q := Quotient(d / 2, d);
    if q >= 1 {
      MulMono(1, q, d);
    }
    AsrZero(l);
  }

  // ----- When the cached difference fits -----

  /** The rounded quotient is no larger than the input. */
  lemma RoundedAtMost(x: int, d: nat, m: nat)
    requires d > 0 && 0 <= x + m && x <= m
    ensures 0 <= Rounded(x, d) + m && Rounded(x, d) <= m
  {
    SignedQuotient(x, d);
    var a := Abs(x);
    var q := Quotient(a + d / 2, d);
    if q > a {
      MulMono(a + 1, q, d);
      AtLeast(a, d);
    }
    hide Rounded;
  }

  lemma AtLeast(a: nat, d: nat)
    requires d > 0
    ensures (a + 1) * d >= a + d
  {
    MulMono(1, d, a);
    assert (a + 1) * d == a * d + d;
  }

  lemma TruncateAtMost(x: int, k: nat, m: nat)
    requires 0 <= x + m && x <= m
    ensures 0 <= Truncate(x, k) + m && Truncate(x, k) <= m
  {
  }

  lemma ShlOfTruncateAtMost(r: int, k: nat, m: nat)
    requires 0 <= r + m && r <= m
    ensures 0 <= Shl(Truncate(r, k), k) + m && Shl(Truncate(r, k), k) <= m
  {
    ShlOfAsr(Abs(r), k);
    ShlSign(Asr(Abs(r), k), k);
  }

  /** Inputs of at most 15 bits with sign always fit, whatever the levels and the divisor. */
  lemma SmallInputsFit(prev: int, x0: int, x: int, d: nat, t: seq<nat>, last: nat, level: nat)
    requires TableOk(t) && last < LEVELS && level < LEVELS && d > 0 && Reachable(prev, x0, d, t[last])
    requires -16383 <= x <= 16383 && -16383 <= x0 <= 16383
    ensures CacheFits(prev, x, d, t, last, level)
  {
    hide Rounded, Truncate, Shl;
    var a := t[last] - t[FINEST];
    RoundedAtMost(x, d, 16383);
    RoundedAtMost(x0, d, 16383);
    TruncateAtMost(Rounded(x, d), t[FINEST], 16383);
    TruncateAtMost(Rounded(x0, d), t[FINEST], 16383);
    TruncateAdd(Rounded(x0, d), t[FINEST], a);
    ShlOfTruncateAtMost(Truncate(Rounded(x0, d), t[FINEST]), a, 16383);
  }

  /** For such inputs the cached branch and direct quantization give the same difference and stored value. */
  lemma SmallCachedAgrees(prev: int, x0: int, x: int, d: nat, t: seq<nat>, last: nat, level: nat)
    requires 1 <= d < TWO16 && d != 65534 && Usable(ComputeReciprocal(d), t) && last < LEVELS && level < LEVELS
    requires Reachable(prev, x0, d, t[last]) && -16383 <= x <= 16383 && -16383 <= x0 <= 16383
    ensures var p := ComputeReciprocal(d);
            FromCache(Sample(prev, x, p, t, last), t, last, level) == Direct(prev, x, p, t, last, level)
  {
    hide ComputeReciprocal, FromCache, Sample, Direct, CacheFits, Reachable;
    CachedAgrees(prev, x0, x, d, t, last, level);
    SmallInputsFit(prev, x0, x, d, t, last, level);
  }

  ghost predicate SmallFrames(frames: seq<Frame>) {
    forall i :: 0 <= i < |frames| ==> frames[i].level < LEVELS && -16383 <= frames[i].x <= 16383
  }

  lemma SmallOk(frames: seq<Frame>)
    requires SmallFrames(frames)
    ensures FramesOk(frames) && -16383 <= LastInput(frames) <= 16383
  {
  }

  lemma SmallPrefix(frames: seq<Frame>, n: nat)
    requires SmallFrames(frames) && n <= |frames|
    ensures SmallFrames(frames[..n])
  {
  }

  /** For inputs of that size the condition of `NoDrift` always holds. */
  lemma {:induction false} SmallRunOk(frames: seq<Frame>, d: nat, t: seq<nat>)
    requires 1 <= d < TWO16 && d != 65534 && Usable(ComputeReciprocal(d), t) && SmallFrames(frames)
    ensures RunOk(frames, d, t)
    decreases |frames|
  {
    SmallOk(frames);
    hide ComputeReciprocal, Encoded, FrameOk, SmallFrames, FramesOk;
    forall i: nat | i < |frames| && frames[i].sampled ensures SampleFits(frames[..i + 1], d, t) {
      SmallPrefix(frames, i);
      SmallPrefix(frames, i + 1);
      SmallRunOk(frames[..i], d, t);
      SampleFitsNext(frames, i, d, t);
    }
  }

  lemma SampleFitsNext(frames: seq<Frame>, i: nat, d: nat, t: seq<nat>)
    requires 1 <= d < TWO16 && d != 65534 && Usable(ComputeReciprocal(d), t) && i < |frames|
    requires SmallFrames(frames) && SmallFrames(frames[..i]) && SmallFrames(frames[..i + 1]) && RunOk(frames[..i], d, t)
    ensures SampleFits(frames[..i + 1], d, t)
  {
    hide ComputeReciprocal, Encoded, CacheFits, Reachable;
    var now := frames[..i + 1];
    SmallOk(now);
    SmallOk(frames[..i]);
    assert now[..i] == frames[..i] && now[i] == frames[i];
    NoDrift(frames[..i], d, t);
    PrefixOk(now, i);
    var s := Encoded(frames[..i], ComputeReciprocal(d), t);
    SmallInputsFit(s.value, LastInput(frames[..i]), frames[i].x, d, t, s.level, frames[i].level);
  }

  /** With inputs of that size encoder and decoder never drift apart, with no further condition. */
  lemma SmallNoDrift(frames: seq<Frame>, d: nat, t: seq<nat>)
    requires 1 <= d < TWO16 && d != 65534 && Usable(ComputeReciprocal(d), t) && SmallFrames(frames)
    ensures FramesOk(frames)
    ensures Decoded(frames, ComputeReciprocal(d), t) == Encoded(frames, ComputeReciprocal(d), t)
  {
    hide ComputeReciprocal, Encoded, Decoded, Reachable;
    SmallOk(frames);
    SmallRunOk(frames, d, t);
    NoDrift(frames, d, t);
  }

  // ----- A run that drifts -----

  /** A table whose finest level needs no shift and all others one. */
  function OneShift(): (t: seq<nat>)
    ensures TableOk(t) && (forall i :: 0 <= i < FINEST ==> t[i] == 1) && t[FINEST] == 0
  {
    seq(LEVELS, i => if i < FINEST then 1 else 0)
  }

  /**
   Larger inputs can drift: after the largest input has been coded at a coarse level, a sampled block with
   the opposite input gives a wrong difference.
   */
  lemma LargeInputsDrift()
    ensures Usable(ComputeReciprocal(1), OneShift()) && Reachable(16383, 32767, 1, 1)
    ensures !CacheFits(16383, -32767, 1, OneShift(), 0, 1)
    ensures var frames := [Frame(32767, 0, false), Frame(-32767, 1, true)];
            && FramesOk(frames)
            && Decoded(frames, ComputeReciprocal(1), OneShift()) != Encoded(frames, ComputeReciprocal(1), OneShift())
  {
    WitnessValues();
    FirstFrame();
    hide ComputeReciprocal, CacheFits, EncodeFrame, Encoded, Decoded, Reachable;
    var t, p := OneShift(), ComputeReciprocal(1);
    var f0, f1 := Frame(32767, 0, false), Frame(-32767, 1, true);
    FrameDecodes(Stored(16383, 0), 32767, f1, 1, t);
    TwoFrames(f0, f1, p, t);
  }

  lemma WitnessValues()
    ensures Usable(ComputeReciprocal(1), OneShift()) && Reachable(16383, 32767, 1, 1)
    ensures !CacheFits(16383, -32767, 1, OneShift(), 0, 1)
  {
    assert Rounded(32767, 1) == 32767 && Rounded(-32767, 1) == -32767;
    assert Truncate(32767, 1) == 16383 && Truncate(-32767, 0) == -32767 && Shl(16383, 1) == 32766;
    hide Rounded, Truncate, Shl;
  }

  lemma FirstFrame()
    ensures Usable(ComputeReciprocal(1), OneShift())
    ensures var start, f0 := Stored(0, FINEST), Frame(32767, 0, false);
            var e := EncodeFrame(start, f0, ComputeReciprocal(1), OneShift());
            && e.prev == 16383
            && DecodeFrame(start, e.diff, 0, OneShift()) == Stored(16383, 0)
  {
    var start, f0 := Stored(0, FINEST), Frame(32767, 0, false);
    assert Rounded(32767, 1) == 32767 && Truncate(32767, 1) == 16383;
    ReachableZero(1, 0);
    QuantizeExact(32767, 1, 1);
    hide Rounded, Truncate, Quantize, Reachable, CacheFits, DecodeFrame;
    FrameDecodes(start, 0, f0, 1, OneShift());
    hide FromCache, Sample, Rescaled;
  }

  lemma TwoFrames(f0: Frame, f1: Frame, p: Divisor, t: seq<nat>)
    requires FrameOk(f0) && FrameOk(f1) && Usable(p, t)
    ensures FramesOk([f0, f1])
    ensures var start := Stored(0, FINEST);
            var e0 := EncodeFrame(start, f0, p, t);
            var d0, s0 := DecodeFrame(start, e0.diff, f0.level, t), Stored(e0.prev, f0.level);
            var e1 := EncodeFrame(s0, f1, p, t);
            && Encoded([f0, f1], p, t) == Stored(e1.prev, f1.level)
            && Decoded([f0, f1], p, t) == DecodeFrame(d0, e1.diff, f1.level, t)
  {
    hide EncodeFrame, DecodeFrame;
    var frames := [f0, f1];
    assert frames[..1] == [f0] && [f0][..0] == [];
    assert Encoded([f0], p, t) == Stored(EncodeFrame(Encoded([], p, t), f0, p, t).prev, f0.level);
    assert Decoded([f0], p, t)
        == DecodeFrame(Decoded([], p, t), EncodeFrame(Encoded([], p, t), f0, p, t).diff, f0.level, t);
  }
}
