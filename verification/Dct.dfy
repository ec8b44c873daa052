/**
 The fast integer DCT in 16-bit arithmetic: for 8-bit samples nothing wraps around, and the coefficients
 stay far enough from the limits for the delta codec.
 */
module Dct {
  import opened Quantizer
  import opened DeltaCodec

  const EIGHT: nat := 8
  const BLOCK: nat := 64

  // ----- Machine arithmetic -----

  function Add16(a: int, b: int): (r: int) {
    Wrap16(a + b)
  }

  function Sub16(a: int, b: int): (r: int) {
    Wrap16(a - b)
  }

  /** Multiplication by a constant with eight bits of fraction, rounded down. */
  function Multiply(v: int, c: int): (r: int) {
    Wrap16(v * c / 256)
  }

  lemma AddIs(a: int, b: int)
    requires -32768 <= a + b <= 32767
    ensures Add16(a, b) == a + b
  {
  }

  lemma SubIs(a: int, b: int)
    requires -32768 <= a - b <= 32767
    ensures Sub16(a, b) == a - b
  {
  }

  lemma MulIs(v: int, c: int)
    requires -32768 <= v * c / 256 <= 32767
    ensures Multiply(v, c) == v * c / 256
  {
  }

  // ----- One row or column -----

  /** Eight values, transformed. */
  datatype Octet = Octet(v0: int, v1: int, v2: int, v3: int, v4: int, v5: int, v6: int, v7: int)

  /** Sums and differences of opposite values. */
  function Butterfly(x: Octet): (t: Octet) {
    Octet(Add16(x.v0, x.v7), Add16(x.v1, x.v6), Add16(x.v2, x.v5), Add16(x.v3, x.v4),
          Sub16(x.v3, x.v4), Sub16(x.v2, x.v5), Sub16(x.v1, x.v6), Sub16(x.v0, x.v7))
  }

  datatype Quad = Quad(a: int, b: int, c: int, d: int)

  /** Outputs 0, 4, 2 and 6 from the sums. */
  function EvenPart(t0: int, t1: int, t2: int, t3: int): (r: Quad) {
    var tmp10, tmp13 := Add16(t0, t3), Sub16(t0, t3);
    var tmp11, tmp12 := Add16(t1, t2), Sub16(t1, t2);
    var z1 := Multiply(Add16(tmp12, tmp13), 181);
    Quad(Add16(tmp10, tmp11), Sub16(tmp10, tmp11), Add16(tmp13, z1), Sub16(tmp13, z1))
  }

  /** The rotation of the odd part: `z2`, `z4` and `z3`. */
  datatype Rotation = Rotation(z2: int, z4: int, z3: int)

  function Rotate(t4: int, t5: int, t6: int, t7: int): (r: Rotation) {
    var tmp10, tmp11, tmp12 := Add16(t4, t5), Add16(t5, t6), Add16(t6, t7);
    var z5 := Multiply(Sub16(tmp10, tmp12), 98);
    Rotation(Add16(Multiply(tmp10, 139), z5), Add16(Multiply(tmp12, 334), z5), Multiply(tmp11, 181))
  }

  /** Outputs 5, 3, 1 and 7 from the differences. */
  function OddPart(t4: int, t5: int, t6: int, t7: int): (r: Quad) {
    var z := Rotate(t4, t5, t6, t7);
    var z11, z13 := Add16(t7, z.z3), Sub16(t7, z.z3);
    Quad(Add16(z13, z.z2), Sub16(z13, z.z2), Add16(z11, z.z4), Sub16(z11, z.z4))
  }

  /** The transform of one row or column. */
  function Transform(x: Octet): (y: Octet) {
    var t := Butterfly(x);
    var e, o := EvenPart(t.v0, t.v1, t.v2, t.v3), OddPart(t.v4, t.v5, t.v6, t.v7);
    Octet(e.a, o.c, e.c, o.b, e.b, o.a, e.d, o.d)
  }

  // ----- Bounds -----

  ghost predicate Within(v: int, m: int) {
    -m <= v <= m
  }

  ghost predicate AllWithin(x: Octet, m: int) {
    && Within(x.v0, m) && Within(x.v1, m) && Within(x.v2, m) && Within(x.v3, m)
    && Within(x.v4, m) && Within(x.v5, m) && Within(x.v6, m) && Within(x.v7, m)
  }

  const LARGEST: int := 1416

  lemma ButterflyIs(x: Octet, m: int)
    requires AllWithin(x, m) && m <= LARGEST
    ensures Butterfly(x) == Octet(x.v0 + x.v7, x.v1 + x.v6, x.v2 + x.v5, x.v3 + x.v4,
                                  x.v3 - x.v4, x.v2 - x.v5, x.v1 - x.v6, x.v0 - x.v7)
    ensures AllWithin(Butterfly(x), 2 * m)
  {
    hide Wrap16, Add16, Sub16;
    AddIs(x.v0, x.v7);
    AddIs(x.v1, x.v6);
    AddIs(x.v2, x.v5);
    AddIs(x.v3, x.v4);
    SubIs(x.v3, x.v4);
    SubIs(x.v2, x.v5);
    SubIs(x.v1, x.v6);
    SubIs(x.v0, x.v7);
  }

  /** Nothing wraps in the even part. */
  lemma EvenIs(t0: int, t1: int, t2: int, t3: int, m: int)
    requires Within(t0, 2 * m) && Within(t1, 2 * m) && Within(t2, 2 * m) && Within(t3, 2 * m) && 0 <= m <= LARGEST
    ensures var z1 := Scale(t1 - t2 + (t0 - t3), 181);
            EvenPart(t0, t1, t2, t3) == Quad(t0 + t3 + (t1 + t2), t0 + t3 - (t1 + t2), t0 - t3 + z1, t0 - t3 - z1)
  {
    hide Wrap16, Add16, Sub16, Multiply, Scale;
    var tmp10, tmp13, tmp11, tmp12 := t0 + t3, t0 - t3, t1 + t2, t1 - t2;
    AddIs(t0, t3);
    SubIs(t0, t3);
    AddIs(t1, t2);
    SubIs(t1, t2);
    AddIs(tmp12, tmp13);
    MultiplyIs(tmp12 + tmp13, 181);
    var z1 := Scale(tmp12 + tmp13, 181);
    AddIs(tmp10, tmp11);
    SubIs(tmp10, tmp11);
    AddIs(tmp13, z1);
    SubIs(tmp13, z1);
  }

  function Scale(v: int, c: int): (r: int) {
    v * c / 256
  }

  /** A constant of at most 1.31 keeps moderate values in range. */
  lemma MultiplyIs(v: int, c: nat)
    requires c == 98 || c == 139 || c == 181 || c == 334
    requires Within(v, 12000)
    ensures Multiply(v, c) == Scale(v, c) && Within(Scale(v, c), 15700)
    ensures c <= 181 ==> Within(Scale(v, c), 8500)
  {
    if c == 98 {
      MulIs(v, 98);
    } else if c == 139 {
      MulIs(v, 139);
    } else if c == 181 {
      MulIs(v, 181);
    } else {
      MulIs(v, 334);
    }
  }

  lemma EvenOutputs(t0: int, t1: int, t2: int, t3: int, m: int)
    requires Within(t0, 2 * m) && Within(t1, 2 * m) && Within(t2, 2 * m) && Within(t3, 2 * m) && 0 <= m <= LARGEST
    ensures var z1 := Scale(t1 - t2 + (t0 - t3), 181);
            && Within(t0 + t3 + (t1 + t2), 10 * m + 2) && Within(t0 + t3 - (t1 + t2), 10 * m + 2)
            && Within(t0 - t3 + z1, 10 * m + 2) && Within(t0 - t3 - z1, 10 * m + 2)
  {
  }

  /** Nothing wraps in the rotation. */
  lemma RotateIs(t4: int, t5: int, t6: int, t7: int, m: int)
    requires Within(t4, 2 * m) && Within(t5, 2 * m) && Within(t6, 2 * m) && Within(t7, 2 * m) && 0 <= m <= LARGEST
    ensures var z5 := Scale(t4 + t5 - (t6 + t7), 98);
            Rotate(t4, t5, t6, t7) == Rotation(Scale(t4 + t5, 139) + z5, Scale(t6 + t7, 334) + z5, Scale(t5 + t6, 181))
    ensures Within(Scale(t5 + t6, 181), 8500)
  {
    hide Wrap16, Add16, Sub16, Multiply, Scale;
    var tmp10, tmp11, tmp12 := t4 + t5, t5 + t6, t6 + t7;
    AddIs(t4, t5);
    AddIs(t5, t6);
    AddIs(t6, t7);
    SubIs(tmp10, tmp12);
    MultiplyIs(tmp10 - tmp12, 98);
    MultiplyIs(tmp10, 139);
    MultiplyIs(tmp12, 334);
    MultiplyIs(tmp11, 181);
    AddIs(Scale(tmp10, 139), Scale(tmp10 - tmp12, 98));
    AddIs(Scale(tmp12, 334), Scale(tmp10 - tmp12, 98));
  }

  /** Nothing wraps in the odd part, and no output exceeds eleven times the inputs. */
  lemma OddIs(t4: int, t5: int, t6: int, t7: int, m: int)
    requires Within(t4, 2 * m) && Within(t5, 2 * m) && Within(t6, 2 * m) && Within(t7, 2 * m) && 0 <= m <= LARGEST
    ensures var z5 := Scale(t4 + t5 - (t6 + t7), 98);
            var z2, z4, z3 := Scale(t4 + t5, 139) + z5, Scale(t6 + t7, 334) + z5, Scale(t5 + t6, 181);
            OddPart(t4, t5, t6, t7) == Quad(t7 - z3 + z2, t7 - z3 - z2, t7 + z3 + z4, t7 + z3 - z4)
    ensures var r := OddPart(t4, t5, t6, t7);
            Within(r.a, 11 * m + 8) && Within(r.b, 11 * m + 8) && Within(r.c, 11 * m + 8) && Within(r.d, 11 * m + 8)
  {
    hide Within, Rotate, Scale, Add16, Sub16;
    var z5 := Scale(t4 + t5 - (t6 + t7), 98);
    var z2, z4, z3 := Scale(t4 + t5, 139) + z5, Scale(t6 + t7, 334) + z5, Scale(t5 + t6, 181);
    OddOutputs(t4, t5, t6, t7, m, z5, z2, z4, z3);
    RotateIs(t4, t5, t6, t7, m);
    FinalSums(t7, z2, z4, z3, m);
  }

  lemma FinalSums(t7: int, z2: int, z4: int, z3: int, m: int)
    requires Within(t7, 2 * m) && Within(z3, 8500) && 0 <= m <= LARGEST
    requires Within(t7 - z3 + z2, 11 * m + 8) && Within(t7 - z3 - z2, 11 * m + 8)
    requires Within(t7 + z3 + z4, 11 * m + 8) && Within(t7 + z3 - z4, 11 * m + 8)
    ensures Add16(Sub16(t7, z3), z2) == t7 - z3 + z2 && Sub16(Sub16(t7, z3), z2) == t7 - z3 - z2
    ensures Add16(Add16(t7, z3), z4) == t7 + z3 + z4 && Sub16(Add16(t7, z3), z4) == t7 + z3 - z4
  {
    hide Wrap16, Add16, Sub16;
    AddIs(t7, z3);
    SubIs(t7, z3);
    AddIs(t7 - z3, z2);
    SubIs(t7 - z3, z2);
    AddIs(t7 + z3, z4);
    SubIs(t7 + z3, z4);
  }

  lemma OddOutputs(t4: int, t5: int, t6: int, t7: int, m: int, z5: int, z2: int, z4: int, z3: int)
    requires Within(t4, 2 * m) && Within(t5, 2 * m) && Within(t6, 2 * m) && Within(t7, 2 * m) && 0 <= m <= LARGEST
    requires z5 == Scale(t4 + t5 - (t6 + t7), 98) && z2 == Scale(t4 + t5, 139) + z5
    requires z4 == Scale(t6 + t7, 334) + z5 && z3 == Scale(t5 + t6, 181)
    ensures Within(t7 - z3 + z2, 11 * m + 8) && Within(t7 - z3 - z2, 11 * m + 8)
    ensures Within(t7 + z3 + z4, 11 * m + 8) && Within(t7 + z3 - z4, 11 * m + 8)
  {
  }

  lemma EvenBound(t0: int, t1: int, t2: int, t3: int, m: int)
    requires Within(t0, 2 * m) && Within(t1, 2 * m) && Within(t2, 2 * m) && Within(t3, 2 * m) && 0 <= m <= LARGEST
    ensures var r := EvenPart(t0, t1, t2, t3);
            Within(r.a, 11 * m + 8) && Within(r.b, 11 * m + 8) && Within(r.c, 11 * m + 8) && Within(r.d, 11 * m + 8)
  {
    hide EvenPart, Scale;
    EvenIs(t0, t1, t2, t3, m);
    EvenOutputs(t0, t1, t2, t3, m);
  }

  lemma TransformBound(x: Octet, m: int)
    requires AllWithin(x, m) && 0 <= m <= LARGEST
    ensures AllWithin(Transform(x), 11 * m + 8)
  {
    hide Butterfly, EvenPart, OddPart, Scale, Within;
    ButterflyIs(x, m);
    var t := Butterfly(x);
    EvenBound(t.v0, t.v1, t.v2, t.v3, m);
    OddIs(t.v4, t.v5, t.v6, t.v7, m);
  }

  // ----- The block -----

  /** Eight elements from `at` on, `step` apart. */
  function Take(b: seq<int>, at: nat, step: nat): (x: Octet)
    requires at + 7 * step < |b|
  {
    Octet(b[at], b[at + step], b[at + 2 * step], b[at + 3 * step],
          b[at + 4 * step], b[at + 5 * step], b[at + 6 * step], b[at + 7 * step])
  }

  /** The block with eight elements from `at` on, `step` apart, replaced. */
  function Put(b: seq<int>, at: nat, step: nat, y: Octet): (b': seq<int>)
    requires at + 7 * step < |b|
    ensures |b'| == |b|
  {
    b[at := y.v0][at + step := y.v1][at + 2 * step := y.v2][at + 3 * step := y.v3]
     [at + 4 * step := y.v4][at + 5 * step := y.v5][at + 6 * step := y.v6][at + 7 * step := y.v7]
  }

  /** Transforms eight elements in place. */
  method TransformInPlace(block: array<int>, at: nat, step: nat)
    requires at + 7 * step < block.Length
    modifies block
    ensures block[..] == Put(old(block[..]), at, step, Transform(Take(old(block[..]), at, step)))
  {
    hide Transform;
    var y := Transform(Take(block[..], at, step));
    Assign(block, at, y.v0);
    Assign(block, at + step, y.v1);
    Assign(block, at + 2 * step, y.v2);
    Assign(block, at + 3 * step, y.v3);
    Assign(block, at + 4 * step, y.v4);
    Assign(block, at + 5 * step, y.v5);
    Assign(block, at + 6 * step, y.v6);
    Assign(block, at + 7 * step, y.v7);
  }

  method Assign(block: array<int>, i: nat, v: int)
    requires i < block.Length
    modifies block
    ensures block[..] == old(block[..])[i := v]
  {
    block[i] := v;
  }

  /** Rows from `i` on transformed. */
  function Rows(b: seq<int>, i: nat): (b': seq<int>)
    requires |b| == BLOCK && i <= EIGHT
    ensures |b'| == BLOCK
    decreases EIGHT - i
  {
    if i == EIGHT then b else Rows(Put(b, 8 * i, 1, Transform(Take(b, 8 * i, 1))), i + 1)
  }

  /** Columns from `i` on transformed. */
  function Columns(b: seq<int>, i: nat): (b': seq<int>)
    requires |b| == BLOCK && i <= EIGHT
    ensures |b'| == BLOCK
    decreases EIGHT - i
  {
    if i == EIGHT then b else Columns(Put(b, i, 8, Transform(Take(b, i, 8))), i + 1)
  }

  /** The transform of a block of samples: the rows, then the columns. */
  function Transformed(b: seq<int>): (c: seq<int>)
    requires |b| == BLOCK
    ensures |c| == BLOCK
  {
    Columns(Rows(b, 0), 0)
  }

  /** The transform in place, first by rows, then by columns. */
  method FdctIfast(block: array<int>)
    requires block.Length == BLOCK
    modifies block
    ensures block[..] == Transformed(old(block[..]))
  {
    hide Transform, Put, Take;
    for i := 0 to EIGHT
      invariant Rows(block[..], i) == Rows(old(block[..]), 0)
    {
      TransformInPlace(block, 8 * i, 1);
    }
    for i := 0 to EIGHT
      invariant Columns(block[..], i) == Transformed(old(block[..]))
    {
      TransformInPlace(block, i, 8);
    }
  }

  // ----- Bounds of a block -----

  /** Rows before `i` are within the larger bound, the others within the smaller one. */
  ghost predicate RowsWithin(b: seq<int>, i: nat, small: int, large: int) {
    |b| == BLOCK && forall k :: 0 <= k < BLOCK ==> Within(b[k], if k < 8 * i then large else small)
  }

  ghost predicate ColumnsWithin(b: seq<int>, i: nat, small: int, large: int) {
    |b| == BLOCK && forall k :: 0 <= k < BLOCK ==> Within(b[k], if k % 8 < i then large else small)
  }

  lemma PutRow(b: seq<int>, i: nat, y: Octet, small: int, large: int)
    requires i < EIGHT && RowsWithin(b, i, small, large) && AllWithin(y, large)
    ensures RowsWithin(Put(b, 8 * i, 1, y), i + 1, small, large)
  {
    hide Within;
  }

  lemma PutColumn(b: seq<int>, i: nat, y: Octet, small: int, large: int)
    requires i < EIGHT && ColumnsWithin(b, i, small, large) && AllWithin(y, large)
    ensures ColumnsWithin(Put(b, i, 8, y), i + 1, small, large)
  {
    hide Within;
  }

  lemma {:induction false} RowsBound(b: seq<int>, i: nat)
    requires i <= EIGHT && RowsWithin(b, i, 128, LARGEST)
    ensures RowsWithin(Rows(b, i), EIGHT, 128, LARGEST)
    decreases EIGHT - i
  {
    hide Transform, Put, Within;
    if i < EIGHT {
      var x := Take(b, 8 * i, 1);
      assert AllWithin(x, 128);
      TransformBound(x, 128);
      PutRow(b, i, Transform(x), 128, LARGEST);
      RowsBound(Put(b, 8 * i, 1, Transform(x)), i + 1);
    }
  }

  const COEFFICIENT_MAX: int := 15584

  lemma {:induction false} ColumnsBound(b: seq<int>, i: nat)
    requires i <= EIGHT && ColumnsWithin(b, i, LARGEST, COEFFICIENT_MAX)
    ensures ColumnsWithin(Columns(b, i), EIGHT, LARGEST, COEFFICIENT_MAX)
    decreases EIGHT - i
  {
    hide Transform, Put, Within;
    if i < EIGHT {
      var x := Take(b, i, 8);
      assert AllWithin(x, LARGEST);
      TransformBound(x, LARGEST);
      PutColumn(b, i, Transform(x), LARGEST, COEFFICIENT_MAX);
      ColumnsBound(Put(b, i, 8, Transform(x)), i + 1);
    }
  }

  /** Samples of eight bits give coefficients of at most 15584: the cached differences of the delta codec fit. */
  lemma CoefficientBound(b: seq<int>)
    requires |b| == BLOCK && forall k :: 0 <= k < BLOCK ==> -128 <= b[k] <= 127
    ensures forall k :: 0 <= k < BLOCK ==> -16383 <= Transformed(b)[k] <= 16383
  {
    hide Rows, Columns;
    RowsBound(b, 0);
    ColumnsBound(Rows(b, 0), 0);
  }

  /** The inputs of the coefficient at one position over consecutive frames of sample blocks. */
  function Coefficients(blocks: seq<seq<int>>, k: nat): (xs: seq<int>)
    requires k < BLOCK && forall i :: 0 <= i < |blocks| ==> |blocks[i]| == BLOCK
    ensures |xs| == |blocks| && forall i :: 0 <= i < |blocks| ==> xs[i] == Transformed(blocks[i])[k]
  {
    hide Transformed;
    seq(|blocks|, i requires 0 <= i < |blocks| => Transformed(blocks[i])[k])
  }

  /**
   For video of 8-bit samples encoder and decoder never drift apart, at any levels and with any choice of
   sampled blocks: no condition on the coefficients is left.
   */
  lemma VideoNeverDrifts(blocks: seq<seq<int>>, k: nat, frames: seq<Frame>, d: nat, t: seq<nat>)
    requires k < BLOCK && |frames| == |blocks| && 1 <= d < TWO16 && d != 65534 && Usable(ComputeReciprocal(d), t)
    requires forall i :: 0 <= i < |blocks| ==>
               |blocks[i]| == BLOCK && forall j :: 0 <= j < BLOCK ==> -128 <= blocks[i][j] <= 127
    requires forall i :: 0 <= i < |frames| ==> frames[i].level < LEVELS && frames[i].x == Coefficients(blocks, k)[i]
    ensures FramesOk(frames)
    ensures Decoded(frames, ComputeReciprocal(d), t) == Encoded(frames, ComputeReciprocal(d), t)
  {
    hide Transformed, ComputeReciprocal, Encoded, Decoded;
    forall i | 0 <= i < |frames| ensures -16383 <= frames[i].x <= 16383 {
      CoefficientBound(blocks[i]);
    }
    SmallNoDrift(frames, d, t);
  }
}
