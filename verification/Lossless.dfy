/**
 Lossless coding of sample rows: each chunk of samples is coded either by residuals to a median
 prediction or by differences to the previous frame, in the top `b` bits of the samples.
 */
module Lossless {
  import opened Bits
  import opened Quantizer
  import opened PrefixCode

  const CHUNK: nat := 30

  type Row = seq<nat>

  ghost predicate RowOk(row: Row) {
    forall i :: 0 <= i < |row| ==> row[i] < 256
  }

  // ----- Samples -----

  function U8(x: int): (y: nat)
    ensures y < 256
  {
    x % 256
  }

  function ToI8(x: nat): (y: int)
  {
    if x < 128 then x else x - 256
  }

  /** The middle one of three samples, by sums that may wrap. */
  function Median3(a: nat, b: nat, c: nat): (m: nat) {
    var max := if a >= b && a >= c then a else if b >= c then b else c;
    var min := if a <= b && a <= c then a else if b <= c then b else c;
    U8(a + b + c - max - min)
  }

  /** The coded residual of sample `c` to prediction `p` in the top `b` bits. */
  function Residual(c: nat, p: nat, b: nat): (r: nat)
    requires 1 <= b <= 8
  {
    if b < 8 then
      var s := 8 - b;
      U8(U8(Asr(ToI8(U8(U8(Asr(c, s) - Asr(p, s)) * Pow2(s))), s)) + 128)
    else U8(c - p + 128)
  }

  /** The receiver's sample: prediction plus residual in `b` bits. */
  function Restore(p: nat, r: nat, b: nat): (c: nat) {
    (p + r - 128) % Pow2(b)
  }

  function Trunc(c: nat, b: nat): (t: nat)
    requires b <= 8
  {
    Asr(c, 8 - b)
  }

  // ----- Residuals are invertible -----

  lemma SmallPowers()
    ensures Pow2(0) == 1 && Pow2(1) == 2 && Pow2(2) == 4 && Pow2(3) == 8 && Pow2(4) == 16
    ensures Pow2(5) == 32 && Pow2(6) == 64 && Pow2(7) == 128 && Pow2(8) == 256
  {
    assert Pow2(4) == 16;
  }

  lemma {:induction false} AsrExact(x: int, s: nat)
    ensures Asr(x * Pow2(s), s) == x
    decreases s
  {
    if s != 0 {
      MulDouble(x, Pow2(s - 1));
      assert x * Pow2(s) / 2 == x * Pow2(s - 1);
      AsrExact(x, s - 1);
    }
  }

  lemma {:induction false} AsrBound(x: nat, s: nat, b: nat)
    requires x < Pow2(s + b)
    ensures Asr(x, s) < Pow2(b)
    decreases s
  {
    if s != 0 {
      AsrBound(x / 2, s - 1, b);
    }
  }

  /** `q` is `d` reduced to a signed number modulo `m`. */
  ghost predicate Reduced(q: int, d: int, m: int) {
    (q == d || q == d + m || q == d - m) && 0 <= 2 * q + m && 2 * q < m
  }

  /** Scaling a difference by `k` in 8 bits keeps its low bits, read as a signed number. */
  lemma ScaledDifference(d: int, k: int, m: int) returns (q: int)
    requires k * m == 256 && m % 2 == 0 && m > 0 && k > 0 && 0 < d + m && d < m
    ensures Reduced(q, d, m) && ToI8(U8(U8(d) * k)) == q * k && -128 <= q < 128
  {
    var h := m / 2;
    q := if d + h < 0 then d + m else if d >= h then d - m else d;
    ScaledMod(d, q, k, m);
    hide U8;
    ScaledBound(q, k, h, m);
    FromU8(q * k);
  }

  lemma ScaledBound(q: int, k: int, h: int, m: int)
    requires m == 2 * h && k * m == 256 && k > 0 && h > 0 && 0 <= q + h && q < h
    ensures -128 <= q * k < 128 && -128 <= q < 128
  {
    assert k * m == 2 * (k * h);
    assert (0 - h) * k == -128;
    MulMono(0 - h, q, k);
    MulMono(q + 1, h, k);
    MulMono(1, k, h);
    assert (q + 1) * k == q * k + k;
  }

  lemma FromU8(y: int)
    requires -128 <= y < 128
    ensures ToI8(U8(y)) == y
  {
  }

  lemma ScaledMod(d: int, q: int, k: int, m: int)
    requires k * m == 256 && k > 0 && m > 0 && 0 < d + m && d < m && (q == d || q == d + m || q == d - m)
    ensures U8(U8(d) * k) == U8(q * k)
  {
    var c := if d < 0 then 1 else 0;
    MulMono(1, k, m);
    assert U8(d) == d + 256 * c;
    assert U8(d) * k == d * k + 256 * (c * k);
    SameU8(d * k, c * k);
    assert (d + m) * k == d * k + 256 && (d - m) * k == d * k - 256;
    SameU8(d * k, 1);
    SameU8(d * k, -1);
  }

  lemma SameU8(x: int, c: int)
    ensures U8(x + 256 * c) == U8(x)
  {
  }

  lemma SplitByte(b: nat)
    requires 1 <= b <= 8
    ensures Pow2(8 - b) * Pow2(b) == 256 && Pow2(b) == 2 * Pow2(b - 1) && Pow2(b - 1) <= 128
  {
    SmallPowers();
    Pow2Add(8 - b, b);
    Pow2Mono(b - 1, 7);
  }

  lemma TruncBound(c: nat, b: nat)
    requires 1 <= b <= 8 && c < 256
    ensures Trunc(c, b) < Pow2(b)
  {
    SmallPowers();
    AsrBound(c, 8 - b, b);
  }

  /** The residual is the difference of the truncated samples, reduced to a signed `b`-bit number. */
  lemma ResidualIs(c: nat, p: nat, b: nat) returns (q: int)
    requires 1 <= b <= 8 && c < 256 && p < 256
    ensures q + 128 >= 0 && Residual(c, p, b) == q + 128 && Reduced(q, Trunc(c, b) - Trunc(p, b), Pow2(b))
  {
    hide Asr, Pow2, Trunc, U8, ToI8, Residual, Reduced;
    var s := 8 - b;
    SplitByte(b);
    TruncBound(c, b);
    TruncBound(p, b);
    q := ScaledDifference(Trunc(c, b) - Trunc(p, b), Pow2(s), Pow2(b));
    AsrExact(q, s);
    ResidualShape(c, p, b, q);
  }

  lemma ResidualShape(c: nat, p: nat, b: nat, q: int)
    requires 1 <= b <= 8 && -128 <= q < 128 && c < 256 && p < 256
    requires Asr(ToI8(U8(U8(Trunc(c, b) - Trunc(p, b)) * Pow2(8 - b))), 8 - b) == q
    ensures Residual(c, p, b) == q + 128
  {
    hide Residual, Trunc;
    if b == 8 {
      WholeByte(c, p, q);
    } else {
      PartOfByte(c, p, b, q);
    }
  }

  lemma PartOfByte(c: nat, p: nat, b: nat, q: int)
    requires 1 <= b < 8 && -128 <= q < 128 && c < 256 && p < 256
    requires Asr(ToI8(U8(U8(Trunc(c, b) - Trunc(p, b)) * Pow2(8 - b))), 8 - b) == q
    ensures Residual(c, p, b) == q + 128
  {
    hide Asr, Pow2, ToI8;
    ByteOf(q);
  }

  lemma ByteOf(q: int)
    requires -128 <= q < 128
    ensures U8(U8(q) + 128) == q + 128
  {
  }

  lemma ByteAlone(d: int, q: int)
    requires -256 < d < 256 && ToI8(U8(U8(d))) == q
    ensures U8(d + 128) == q + 128
  {
  }

  lemma WholeByte(c: nat, p: nat, q: int)
    requires c < 256 && p < 256 && Asr(ToI8(U8(U8(Trunc(c, 8) - Trunc(p, 8)) * Pow2(0))), 0) == q
    ensures Residual(c, p, 8) == q + 128
  {
    assert Trunc(c, 8) == c && Trunc(p, 8) == p && Pow2(0) == 1;
    hide U8, ToI8, Trunc, Pow2;
    ByteAlone(c - p, q);
  }

  /** The receiver recovers the top bits of the sample from those of the prediction. */
  lemma ResidualInvertible(c: nat, p: nat, b: nat)
    requires 1 <= b <= 8 && c < 256 && p < 256
    ensures Restore(Trunc(p, b), Residual(c, p, b), b) == Trunc(c, b)
    ensures InAlphabet(Residual(c, p, b), b)
  {
    hide Residual, Trunc, Restore, Reduced, InAlphabet, Pow2;
    var q := ResidualIs(c, p, b);
    TruncBound(c, b);
    RestoreIs(Trunc(c, b), Trunc(p, b), q, b);
    ReducedInAlphabet(q, Trunc(c, b) - Trunc(p, b), b);
  }

  lemma RestoreIs(c: nat, p: nat, q: int, b: nat)
    requires c < Pow2(b) && Reduced(q, c - p, Pow2(b)) && q + 128 >= 0
    ensures Restore(p, q + 128, b) == c
  {
    hide Pow2;
    ModBack(c, q - (c - p), Pow2(b));
  }

  lemma ReducedInAlphabet(q: int, d: int, b: nat)
    requires 1 <= b <= 8 && Reduced(q, d, Pow2(b)) && q + 128 >= 0
    ensures InAlphabet(q + 128, b)
  {
    SplitByte(b);
    hide Pow2;
  }

  lemma ModBack(c: nat, e: int, m: nat)
    requires c < m && (e == 0 || e == m || e + m == 0)
    ensures (c + e) % m == c
  {
    if e == m {
      MulDivExact(1, m, c);
    } else if e + m == 0 {
      MulDivNegative(m, c);
    }
  }

  lemma MulDivNegative(m: int, c: nat)
    requires c < m
    ensures (c - m) % m == c
  {
    var r, k := (c - m) % m, (c - m) / m;
    assert c - m == k * m + r;
    if k < -1 {
      MulMono(k, -2, m);
    }
  }

  /** The residuals that occur with `b` bits. */
  predicate InAlphabet(r: nat, b: nat)
    requires b >= 1
  {
    128 <= r + Pow2(b - 1) && r < 128 + Pow2(b - 1)
  }

  lemma {:induction false} AsrMono(x: nat, y: nat, s: nat)
    requires x <= y
    ensures Asr(x, s) <= Asr(y, s)
    decreases s
  {
    if s != 0 {
      AsrMono(x / 2, y / 2, s - 1);
    }
  }

  /** The median commutes with dropping low bits. */
  lemma MedianTrunc(a: nat, b: nat, c: nat, s: nat)
    requires a < 256 && b < 256 && c < 256
    ensures Asr(Median3(a, b, c), s) == Median3(Asr(a, s), Asr(b, s), Asr(c, s)) && Median3(a, b, c) < 256
  {
    hide Asr, Median3;
    MedianMiddle(a, b, c);
    AsrOrder(a, b, s);
    AsrOrder(b, c, s);
    AsrOrder(a, c, s);
    MedianMiddle(Asr(a, s), Asr(b, s), Asr(c, s));
  }

  lemma AsrOrder(a: nat, b: nat, s: nat)
    ensures a <= b ==> Asr(a, s) <= Asr(b, s)
    ensures b <= a ==> Asr(b, s) <= Asr(a, s)
    ensures Asr(a, s) <= a && Asr(b, s) <= b
  {
    if a <= b {
      AsrMono(a, b, s);
    } else {
      AsrMono(b, a, s);
    }
  }

  function Middle(a: nat, b: nat, c: nat): (m: nat) {
    if a <= b then (if b <= c then b else if a <= c then c else a)
    else if a <= c then a else if b <= c then c else b
  }

  /** The sums give the middle sample. */
  lemma MedianMiddle(a: nat, b: nat, c: nat)
    requires a < 256 && b < 256 && c < 256
    ensures Median3(a, b, c) == Middle(a, b, c)
  {
  }

  // ----- Rows -----

  /**
   The prediction from the sample above, the one to the left, and the one above that; `top` is empty in the
   first row.
   */
  function Predict(row: Row, top: Row, x: nat): (p: nat)
    requires x <= |row| && (top != [] ==> x < |top|)
  {
    if top == [] then (if x == 0 then 128 else row[x - 1])
    else if x == 0 then top[0]
    else Median3(top[x], row[x - 1], top[x - 1])
  }

  /** Inside the image the prediction is the middle one of three neighbours; at the edges it is the one there is. */
  lemma PredictIs(row: Row, top: Row, x: nat)
    requires RowOk(row) && RowOk(top) && x <= |row| && (top != [] ==> x < |top|)
    ensures top != [] && x > 0 ==> Predict(row, top, x) == Middle(top[x], row[x - 1], top[x - 1])
    ensures top != [] && x == 0 ==> Predict(row, top, x) == top[0]
    ensures top == [] && x > 0 ==> Predict(row, top, x) == row[x - 1]
    ensures top == [] && x == 0 ==> Predict(row, top, x) == 128
  {
    if top != [] && x > 0 {
      MedianMiddle(top[x], row[x - 1], top[x - 1]);
      hide Median3, Middle;
    }
  }

  /** What the receiver expects for its next sample, from its own truncated samples. */
  function Expected(row: Row, top: Row, b: nat): (p: nat)
    requires b >= 1 && (top != [] ==> |row| < |top|)
  {
    var x := |row|;
    if x == 0 && top == [] then Pow2(b - 1)
    else if x == 0 then top[0]
    else if top == [] then row[x - 1]
    else Middle(top[x], row[x - 1], top[x - 1])
  }

  function TruncRow(row: Row, b: nat): (t: Row)
    requires b <= 8
    ensures |t| == |row| && forall i :: 0 <= i < |row| ==> t[i] == Trunc(row[i], b)
  {
    seq(|row|, i requires 0 <= i < |row| => Trunc(row[i], b))
  }

  /** The prediction residuals of `n` samples from position `x` on. */
  function PredSymbols(row: Row, top: Row, x: nat, n: nat, b: nat): (syms: seq<nat>)
    requires x + n <= |row| && (top == [] || |top| == |row|) && 1 <= b <= 8
    ensures |syms| == n
    decreases n
  {
    if n == 0 then []
    else [Residual(row[x], Predict(row, top, x), b)] + PredSymbols(row, top, x + 1, n - 1, b)
  }

  /** The differences of `n` samples to the previous frame. */
  function DiffSymbols(row: Row, prev: Row, x: nat, n: nat, b: nat): (syms: seq<nat>)
    requires x + n <= |row| && |prev| == |row| && 1 <= b <= 8
    ensures |syms| == n
    decreases n
  {
    if n == 0 then []
    else [Residual(row[x], prev[x], b)] + DiffSymbols(row, prev, x + 1, n - 1, b)
  }

  /** The receiver appends samples restored from predictions on what it has so far. */
  function RestorePred(row: Row, top: Row, syms: seq<nat>, b: nat): (r: Row)
    requires 1 <= b <= 8 && (top == [] || |row| + |syms| <= |top|)
    decreases |syms|
  {
    if syms == [] then row
    else RestorePred(row + [Restore(Expected(row, top, b), syms[0], b)], top, syms[1..], b)
  }

  /** The receiver appends samples restored from the previous frame. */
  function RestoreDiff(row: Row, prev: Row, syms: seq<nat>, b: nat): (r: Row)
    requires 1 <= b <= 8 && |row| + |syms| <= |prev|
    decreases |syms|
  {
    if syms == [] then row
    else RestoreDiff(row + [Restore(prev[|row|], syms[0], b)], prev, syms[1..], b)
  }

  /** What the receiver expects from truncated samples is the truncated prediction. */
  lemma PredictTrunc(row: Row, top: Row, x: nat, b: nat)
    requires RowOk(row) && RowOk(top) && x < |row| && (top == [] || |top| == |row|) && 1 <= b <= 8
    ensures Expected(TruncRow(row[..x], b), TruncRow(top, b), b) == Trunc(Predict(row, top, x), b)
    ensures Predict(row, top, x) < 256
  {
    hide Asr, Median3, Middle, Pow2;
    if top == [] {
      if x == 0 {
        SplitHalf(b);
      }
    } else if x > 0 {
      MiddleTrunc(top[x], row[x - 1], top[x - 1], 8 - b);
    }
  }

  lemma MiddleTrunc(a: nat, b: nat, c: nat, s: nat)
    requires a < 256 && b < 256 && c < 256
    ensures Asr(Median3(a, b, c), s) == Middle(Asr(a, s), Asr(b, s), Asr(c, s)) && Median3(a, b, c) < 256
  {
    hide Asr, Median3, Middle;
    MedianTrunc(a, b, c, s);
    AsrOrder(a, b, s);
    AsrOrder(b, c, s);
    MedianMiddle(Asr(a, s), Asr(b, s), Asr(c, s));
  }

  lemma SplitHalf(b: nat)
    requires 1 <= b <= 8
    ensures Asr(128, 8 - b) == Pow2(b - 1)
  {
    SmallPowers();
    Pow2Add(b - 1, 8 - b);
    AsrExact(Pow2(b - 1), 8 - b);
  }

  lemma TruncAppend(row: Row, x: nat, b: nat)
    requires x < |row| && b <= 8
    ensures TruncRow(row[..x], b) + [Trunc(row[x], b)] == TruncRow(row[..x + 1], b)
  {
    hide Trunc;
  }

  /** The receiver restores the top bits of every predicted sample from truncated neighbours alone. */
  lemma {:induction false} PredRoundTrip(row: Row, top: Row, x: nat, n: nat, b: nat)
    requires RowOk(row) && RowOk(top) && x + n <= |row| && (top == [] || |top| == |row|) && 1 <= b <= 8
    ensures RestorePred(TruncRow(row[..x], b), TruncRow(top, b), PredSymbols(row, top, x, n, b), b)
         == TruncRow(row[..x + n], b)
    ensures forall i :: 0 <= i < n ==> InAlphabet(PredSymbols(row, top, x, n, b)[i], b)
    decreases n
  {
    hide Residual, Restore, Predict, Expected, Trunc, InAlphabet;
    if n != 0 {
      PredictTrunc(row, top, x, b);
      ResidualInvertible(row[x], Predict(row, top, x), b);
      TruncAppend(row, x, b);
      PredRoundTrip(row, top, x + 1, n - 1, b);
      var syms := PredSymbols(row, top, x, n, b);
      assert syms[1..] == PredSymbols(row, top, x + 1, n - 1, b);
    }
  }

  /** The same for differences to the previous frame. */
  lemma {:induction false} DiffRoundTrip(row: Row, prev: Row, x: nat, n: nat, b: nat)
    requires RowOk(row) && RowOk(prev) && x + n <= |row| && |prev| == |row| && 1 <= b <= 8
    ensures RestoreDiff(TruncRow(row[..x], b), TruncRow(prev, b), DiffSymbols(row, prev, x, n, b), b)
         == TruncRow(row[..x + n], b)
    ensures forall i :: 0 <= i < n ==> InAlphabet(DiffSymbols(row, prev, x, n, b)[i], b)
    decreases n
  {
    hide Residual, Restore, Trunc, InAlphabet;
    if n != 0 {
      ResidualInvertible(row[x], prev[x], b);
      TruncAppend(row, x, b);
      DiffRoundTrip(row, prev, x + 1, n - 1, b);
      var syms := DiffSymbols(row, prev, x, n, b);
      assert syms[1..] == DiffSymbols(row, prev, x + 1, n - 1, b);
    }
  }
}
