/** The FEC code as a matrix: every output byte is a sum over columns of a coefficient times the input byte. */
module FecMatrix {
  import opened Gf256
  import FieldInverse

  const LANES: nat := 8
  const SUMS: nat := 3

  function ColumnNumber(column: nat): (n: nat)
    ensures 3 <= n < 256
  {
    3 + column * 199 % 253
  }

  function RowNumber(row: nat): (n: nat)
    ensures 1 <= n < 256
  {
    1 + (row + 1) % 255
  }

  /** Columns have equal values only when they are a multiple of the period apart: 199 has the inverse 89. */
  lemma ColumnNumbersDiffer(c: nat, d: nat)
    ensures ColumnNumber(c) == ColumnNumber(d) <==> (c - d) % 253 == 0
  {
    var e, q := c - d, c * 199 / 253 - d * 199 / 253;
    if ColumnNumber(c) == ColumnNumber(d) {
      assert e * 199 == 253 * q;
      assert e == 253 * (89 * q - 70 * e);
      Multiple(e, 89 * q - 70 * e);
    }
    if e % 253 == 0 {
      var k := e / 253;
      assert c * 199 == d * 199 + 253 * (199 * k);
      SameRemainder(c * 199, d * 199, 199 * k);
    }
  }

  /** From one column to the next the value grows by 199, around the numbers from 3 to 255. */
  lemma NextColumn(c: nat)
    ensures ColumnNumber(0) == 3
    ensures var n, n' := ColumnNumber(c), ColumnNumber(c + 1);
            n' == if n + 199 < 256 then n + 199 else n + 199 - 253
  {
    NextRemainder(c * 199);
  }

  lemma NextRemainder(x: nat)
    ensures (x + 199) % 253 == if x % 253 < 54 then x % 253 + 199 else x % 253 - 54
  {
  }

  /** From one row to the next the value grows by one, around the numbers from 1 to 255. */
  lemma NextRow(row: nat)
    ensures RowNumber(0) == 2
    ensures RowNumber(row + 1) == if RowNumber(row) == 255 then 1 else RowNumber(row) + 1
  {
    assert (row + 2) % 255 == if (row + 1) % 255 == 254 then 0 else (row + 1) % 255 + 1;
  }

  lemma Multiple(e: int, k: int)
    requires e == 253 * k
    ensures e % 253 == 0
  {
  }

  lemma SameRemainder(a: int, b: int, k: int)
    requires a == b + 253 * k
    ensures a % 253 == b % 253
  {
  }

  /** The factor of a column in sum 0, 1 or 2: one, the column value, or its square. */
  function Power(column: nat, k: nat): (b: Byte) {
    if k == 0 then One()
    else if k == 1 then FromNat(ColumnNumber(column))
    else Mul(FromNat(ColumnNumber(column)), FromNat(ColumnNumber(column)))
  }

  // ----- Row vectors -----

  /** The product of a row of coefficients and a column of input bytes. */
  function Dot(coefs: seq<Byte>, v: seq<Byte>): (r: Byte)
    requires |coefs| == |v|
    decreases |v|
  {
    if v == [] then Zero()
    else
      var n := |v| - 1;
      Add(Dot(coefs[..n], v[..n]), Mul(coefs[n], v[n]))
  }

  function VecAdd(a: seq<Byte>, b: seq<Byte>): (c: seq<Byte>)
    requires |a| == |b|
    ensures |c| == |a| && forall i :: 0 <= i < |a| ==> c[i] == Add(a[i], b[i])
  {
    seq(|a|, i requires 0 <= i < |a| => Add(a[i], b[i]))
  }

  /** The product is linear in the coefficients and in the data. */
  lemma {:induction false} DotAdd(a: seq<Byte>, b: seq<Byte>, v: seq<Byte>)
    requires |a| == |b| == |v|
    ensures Dot(VecAdd(a, b), v) == Add(Dot(a, v), Dot(b, v))
    decreases |v|
  {
    hide Add, Mul;
    if v == [] {
      AddUnits(Zero());
    } else {
      var n := |v| - 1;
      assert VecAdd(a, b)[..n] == VecAdd(a[..n], b[..n]);
      DotAdd(a[..n], b[..n], v[..n]);
      MulAdd(a[n], b[n], v[n]);
      AddFour(Dot(a[..n], v[..n]), Dot(b[..n], v[..n]), Mul(a[n], v[n]), Mul(b[n], v[n]));
    }
  }

  lemma {:induction false} DotLinear(a: seq<Byte>, v: seq<Byte>, w: seq<Byte>)
    requires |a| == |v| == |w|
    ensures Dot(a, VecAdd(v, w)) == Add(Dot(a, v), Dot(a, w))
    decreases |v|
  {
    hide Add, Mul;
    if v == [] {
      AddUnits(Zero());
    } else {
      var n := |v| - 1;
      assert VecAdd(v, w)[..n] == VecAdd(v[..n], w[..n]);
      DotLinear(a[..n], v[..n], w[..n]);
      MulAdd(a[n], v[n], w[n]);
      AddFour(Dot(a[..n], v[..n]), Dot(a[..n], w[..n]), Mul(a[n], v[n]), Mul(a[n], w[n]));
    }
  }

  function Times(y: Byte, a: seq<Byte>): (c: seq<Byte>)
    ensures |c| == |a| && forall i :: 0 <= i < |a| ==> c[i] == Mul(y, a[i])
  {
    seq(|a|, i requires 0 <= i < |a| => Mul(y, a[i]))
  }

  lemma {:induction false} DotScaled(y: Byte, a: seq<Byte>, v: seq<Byte>)
    requires |a| == |v|
    ensures Dot(Times(y, a), v) == Mul(y, Dot(a, v))
    decreases |v|
  {
    hide Add, Mul;
    if v == [] {
      MulByNothing(y);
    } else {
      var n := |v| - 1;
      assert Times(y, a)[..n] == Times(y, a[..n]);
      DotScaled(y, a[..n], v[..n]);
      MulAssoc(y, a[n], v[n]);
      MulAdd(y, Dot(a[..n], v[..n]), Mul(a[n], v[n]));
    }
  }

  /** A row with a single coefficient. */
  function Single(n: nat, e: nat): (a: seq<Byte>)
    ensures |a| == n && forall i :: 0 <= i < n ==> a[i] == Part(i == e, One())
  {
    seq<Byte>(n, i requires 0 <= i < n => Part(i == e, One()))
  }

  lemma {:induction false} DotSingle(v: seq<Byte>, e: nat)
    ensures Dot(Single(|v|, e), v) == if e < |v| then v[e] else Zero()
    decreases |v|
  {
    hide Add, Mul, One, Zero;
    if v != [] {
      var n := |v| - 1;
      assert Single(|v|, e)[..n] == Single(n, e);
      DotSingle(v[..n], e);
      PartMul(n == e, One(), v[n]);
      MulUnits(v[n]);
      AddUnits(if e < n then v[e] else v[n]);
      AddUnits(Zero());
      AddUnits(v[n]);
    }
  }

  // ----- Lane sums -----

  /** Sum `k` of a lane over the columns of `v`. */
  function LaneSum(lane: nat, k: nat, v: seq<Byte>): (r: Byte)
    decreases |v|
  {
    if v == [] then Zero()
    else
      var n := |v| - 1;
      Add(LaneSum(lane, k, v[..n]), Part(n % LANES == lane, Mul(Power(n, k), v[n])))
  }

  /** A lane sum as a row of coefficients. */
  function LaneCoefs(lane: nat, k: nat, n: nat): (a: seq<Byte>)
    ensures |a| == n && forall i :: 0 <= i < n ==> a[i] == Part(i % LANES == lane, Power(i, k))
  {
    seq(n, i requires 0 <= i < n => Part(i % LANES == lane, Power(i, k)))
  }

  lemma {:induction false} LaneSumIsDot(lane: nat, k: nat, v: seq<Byte>)
    ensures LaneSum(lane, k, v) == Dot(LaneCoefs(lane, k, |v|), v)
    decreases |v|
  {
    hide Add, Mul, Power;
    if v != [] {
      var n := |v| - 1;
      assert LaneCoefs(lane, k, |v|)[..n] == LaneCoefs(lane, k, n);
      LaneSumIsDot(lane, k, v[..n]);
      PartMul(n % LANES == lane, Power(n, k), v[n]);
    }
  }

  /** Whether the operation code of lane `j / 3` uses its sum `j % 3`; `shift` chooses between the two halves. */
  function Uses(ops: seq<nat>, j: nat, shift: nat): (b: bool)
    requires |ops| == LANES && j < LANES * SUMS && (shift == 0 || shift == SUMS)
  {
    Bit(ops[j / SUMS], j % SUMS + shift)
  }

  function Bit(x: nat, k: nat): (b: bool) {
    if k == 0 then x % 2 == 1 else Bit(x / 2, k - 1)
  }

  /** The first `j` lane sums that the operation codes select, added to `start`. */
  function WithLanes(start: Byte, ops: seq<nat>, shift: nat, j: nat, v: seq<Byte>): (r: Byte)
    requires |ops| == LANES && j <= LANES * SUMS && (shift == 0 || shift == SUMS)
    decreases j
  {
    if j == 0 then start
    else
      Add(WithLanes(start, ops, shift, j - 1, v),
          Part(Uses(ops, j - 1, shift), LaneSum((j - 1) / SUMS, (j - 1) % SUMS, v)))
  }

  function WithLaneCoefs(start: seq<Byte>, ops: seq<nat>, shift: nat, j: nat): (a: seq<Byte>)
    requires |ops| == LANES && j <= LANES * SUMS && (shift == 0 || shift == SUMS)
    ensures |a| == |start|
    decreases j
  {
    if j == 0 then start
    else
      var rest := WithLaneCoefs(start, ops, shift, j - 1);
      if Uses(ops, j - 1, shift) then VecAdd(rest, LaneCoefs((j - 1) / SUMS, (j - 1) % SUMS, |start|)) else rest
  }

  lemma {:induction false} WithLanesIsDot(start: seq<Byte>, ops: seq<nat>, shift: nat, j: nat, v: seq<Byte>)
    requires |ops| == LANES && j <= LANES * SUMS && (shift == 0 || shift == SUMS) && |start| == |v|
    ensures WithLanes(Dot(start, v), ops, shift, j, v) == Dot(WithLaneCoefs(start, ops, shift, j), v)
    decreases j
  {
    hide Add, Dot, Uses, LaneSum;
    if j != 0 {
      WithLanesIsDot(start, ops, shift, j - 1, v);
      var rest := WithLaneCoefs(start, ops, shift, j - 1);
      if Uses(ops, j - 1, shift) {
        LaneSumIsDot((j - 1) / SUMS, (j - 1) % SUMS, v);
        DotAdd(rest, LaneCoefs((j - 1) / SUMS, (j - 1) % SUMS, |v|), v);
      } else {
        AddUnits(Dot(rest, v));
      }
    }
  }

  // ----- Random columns -----

  /** The sum of the picked columns, in the order of picking. */
  function PickSum(picks: seq<nat>, v: seq<Byte>): (r: Byte)
    requires forall i :: 0 <= i < |picks| ==> picks[i] < |v|
    decreases |picks|
  {
    if picks == [] then Zero()
    else
      var n := |picks| - 1;
      Add(PickSum(picks[..n], v), v[picks[n]])
  }

  function PickCoefs(picks: seq<nat>, n: nat): (a: seq<Byte>)
    ensures |a| == n
    decreases |picks|
  {
    if picks == [] then seq(n, i => Zero())
    else
      var m := |picks| - 1;
      VecAdd(PickCoefs(picks[..m], n), Single(n, picks[m]))
  }

  lemma {:induction false} DotNothing(v: seq<Byte>)
    ensures Dot(seq(|v|, i => Zero()), v) == Zero()
    decreases |v|
  {
    hide Add, Mul, Zero;
    if v != [] {
      var n := |v| - 1;
      assert seq(|v|, i => Zero())[..n] == seq(n, i => Zero());
      DotNothing(v[..n]);
      MulUnits(v[n]);
      AddUnits(Zero());
    }
  }

  lemma {:induction false} PickSumIsDot(picks: seq<nat>, v: seq<Byte>)
    requires forall i :: 0 <= i < |picks| ==> picks[i] < |v|
    ensures PickSum(picks, v) == Dot(PickCoefs(picks, |v|), v)
    decreases |picks|
  {
    hide Add, Dot, Zero;
    if picks == [] {
      DotNothing(v);
    } else {
      var m := |picks| - 1;
      PickSumIsDot(picks[..m], v);
      DotSingle(v, picks[m]);
      DotAdd(PickCoefs(picks[..m], |v|), Single(|v|, picks[m]), v);
    }
  }

  // ----- A row of the generator matrix -----

  /**
   What the random generator and the hash choose for a row: two columns for each pair, and an operation code
   for each lane.
   */
  datatype Row = Row(number: nat, first: seq<nat>, second: seq<nat>, ops: seq<nat>)

  ghost predicate RowOk(row: Row, n: nat) {
    && |row.ops| == LANES
    && (forall i :: 0 <= i < |row.first| ==> row.first[i] < n)
    && (forall i :: 0 <= i < |row.second| ==> row.second[i] < n)
  }

  function RowFactor(row: Row): (b: Byte) {
    FromNat(RowNumber(row.number))
  }

  /** Half of a row: the picked columns and the lanes chosen by one half of the operation codes. */
  function HalfCoefs(picks: seq<nat>, ops: seq<nat>, shift: nat, n: nat): (a: seq<Byte>)
    requires |ops| == LANES && (shift == 0 || shift == SUMS)
    ensures |a| == n
  {
    WithLaneCoefs(PickCoefs(picks, n), ops, shift, LANES * SUMS)
  }

  /** The row of the generator matrix: the first half plus the row factor times the second half. */
  function Coefficients(row: Row, n: nat): (a: seq<Byte>)
    requires |row.ops| == LANES
    ensures |a| == n
  {
    VecAdd(HalfCoefs(row.first, row.ops, 0, n), Times(RowFactor(row), HalfCoefs(row.second, row.ops, SUMS, n)))
  }

  /** What the encoder accumulates for one byte position. */
  function HalfSum(picks: seq<nat>, ops: seq<nat>, shift: nat, v: seq<Byte>): (r: Byte)
    requires |ops| == LANES && (shift == 0 || shift == SUMS) && forall i :: 0 <= i < |picks| ==> picks[i] < |v|
  {
    WithLanes(PickSum(picks, v), ops, shift, LANES * SUMS, v)
  }

  function Output(row: Row, v: seq<Byte>): (r: Byte)
    requires RowOk(row, |v|)
  {
    Add(HalfSum(row.first, row.ops, 0, v), Mul(RowFactor(row), HalfSum(row.second, row.ops, SUMS, v)))
  }

  lemma HalfIsDot(picks: seq<nat>, ops: seq<nat>, shift: nat, v: seq<Byte>)
    requires |ops| == LANES && (shift == 0 || shift == SUMS) && forall i :: 0 <= i < |picks| ==> picks[i] < |v|
    ensures HalfSum(picks, ops, shift, v) == Dot(HalfCoefs(picks, ops, shift, |v|), v)
  {
    hide Dot, Zero, WithLanes, WithLaneCoefs;
    PickSumIsDot(picks, v);
    WithLanesIsDot(PickCoefs(picks, |v|), ops, shift, LANES * SUMS, v);
  }

  /** Lane sums, random columns and the row factor together are a product with one row of a matrix. */
  lemma OutputIsDot(row: Row, v: seq<Byte>)
    requires RowOk(row, |v|)
    ensures Output(row, v) == Dot(Coefficients(row, |v|), v)
  {
    hide Dot, HalfSum, HalfCoefs, Add, Mul;
    HalfIsDot(row.first, row.ops, 0, v);
    HalfIsDot(row.second, row.ops, SUMS, v);
    DotScaled(RowFactor(row), HalfCoefs(row.second, row.ops, SUMS, |v|), v);
    DotAdd(HalfCoefs(row.first, row.ops, 0, |v|), Times(RowFactor(row), HalfCoefs(row.second, row.ops, SUMS, |v|)), v);
  }

  /** Encoding is linear. */
  lemma OutputLinear(row: Row, v: seq<Byte>, w: seq<Byte>)
    requires |v| == |w| && RowOk(row, |v|)
    ensures Output(row, VecAdd(v, w)) == Add(Output(row, v), Output(row, w))
  {
    hide Dot, Add, Output;
    OutputIsDot(row, v);
    OutputIsDot(row, w);
    OutputIsDot(row, VecAdd(v, w));
    DotLinear(Coefficients(row, |v|), v, w);
  }

  // ----- What each coefficient is -----

  /** Parity of the number of times a column is picked. */
  function PickedOdd(picks: seq<nat>, c: nat): (b: bool)
    decreases |picks|
  {
    if picks == [] then false else PickedOdd(picks[..|picks| - 1], c) != (picks[|picks| - 1] == c)
  }

  lemma {:induction false} PickCoefIs(picks: seq<nat>, n: nat, c: nat)
    requires c < n
    ensures PickCoefs(picks, n)[c] == Part(PickedOdd(picks, c), One())
    decreases |picks|
  {
    hide Add, One;
    if picks != [] {
      var m := |picks| - 1;
      PickCoefIs(picks[..m], n, c);
      PartAdd(PickedOdd(picks[..m], c), c == picks[m], One(), One());
    }
  }

  /** The lanes' part of a coefficient: only the column's own lane counts. */
  function LanePart(op: nat, shift: nat, c: nat): (b: Byte) {
    Add(Add(Part(Bit(op, shift), Power(c, 0)), Part(Bit(op, 1 + shift), Power(c, 1))),
        Part(Bit(op, 2 + shift), Power(c, 2)))
  }

  /** Each coefficient is the parity of the picks plus the chosen powers of the column value, in each half. */
  lemma {:induction false} LaneCoefIs(start: seq<Byte>, ops: seq<nat>, shift: nat, lane: nat, c: nat)
    requires |ops| == LANES && lane <= LANES && (shift == 0 || shift == SUMS) && c < |start|
    ensures WithLaneCoefs(start, ops, shift, lane * SUMS)[c]
         == if c % LANES < lane then Add(start[c], LanePart(ops[c % LANES], shift, c)) else start[c]
    decreases lane
  {
    hide Add, Power, WithLaneCoefs, LanePart, Bit;
    if lane == 0 {
      StartCoefs(start, ops, shift);
    } else {
      LaneCoefIs(start, ops, shift, lane - 1, c);
      OneLane(start, ops, shift, lane - 1, c);
    }
  }

  lemma StartCoefs(start: seq<Byte>, ops: seq<nat>, shift: nat)
    requires |ops| == LANES && (shift == 0 || shift == SUMS)
    ensures WithLaneCoefs(start, ops, shift, 0) == start
  {
  }

  lemma NextCoef(start: seq<Byte>, ops: seq<nat>, shift: nat, j: nat, c: nat)
    requires |ops| == LANES && j < LANES * SUMS && (shift == 0 || shift == SUMS) && c < |start|
    ensures WithLaneCoefs(start, ops, shift, j + 1)[c]
         == Add(WithLaneCoefs(start, ops, shift, j)[c],
                Part(Uses(ops, j, shift) && c % LANES == j / SUMS, Power(c, j % SUMS)))
  {
    hide Add, Power, Uses;
    AddUnits(WithLaneCoefs(start, ops, shift, j)[c]);
  }

  /** A coefficient when `k` sums of a lane are added. */
  function LaneCoefAt(start: seq<Byte>, ops: seq<nat>, shift: nat, lane: nat, k: nat, c: nat): (b: Byte)
    requires |ops| == LANES && lane < LANES && k <= SUMS && (shift == 0 || shift == SUMS) && c < |start|
  {
    WithLaneCoefs(start, ops, shift, lane * SUMS + k)[c]
  }

  lemma OneLane(start: seq<Byte>, ops: seq<nat>, shift: nat, lane: nat, c: nat)
    requires |ops| == LANES && lane < LANES && (shift == 0 || shift == SUMS) && c < |start|
    ensures WithLaneCoefs(start, ops, shift, (lane + 1) * SUMS)[c]
         == if c % LANES == lane
            then Add(WithLaneCoefs(start, ops, shift, lane * SUMS)[c], LanePart(ops[lane], shift, c))
            else WithLaneCoefs(start, ops, shift, lane * SUMS)[c]
  {
    hide WithLaneCoefs, Add, LanePart;
    WholeLane(start, ops, shift, lane, c);
    assert (lane + 1) * SUMS == lane * SUMS + SUMS;
  }

  lemma WholeLane(start: seq<Byte>, ops: seq<nat>, shift: nat, lane: nat, c: nat)
    requires |ops| == LANES && lane < LANES && (shift == 0 || shift == SUMS) && c < |start|
    ensures LaneCoefAt(start, ops, shift, lane, SUMS, c)
         == if c % LANES == lane then Add(LaneCoefAt(start, ops, shift, lane, 0, c), LanePart(ops[lane], shift, c))
            else LaneCoefAt(start, ops, shift, lane, 0, c)
  {
    hide Add, Power, LaneCoefAt, Bit, Part, LanePart;
    LanePartIs(ops[lane], shift, c);
    NextLaneCoef(start, ops, shift, lane, 0, c);
    NextLaneCoef(start, ops, shift, lane, 1, c);
    NextLaneCoef(start, ops, shift, lane, 2, c);
    AddThree(LaneCoefAt(start, ops, shift, lane, 0, c), LaneCoefAt(start, ops, shift, lane, 1, c),
             LaneCoefAt(start, ops, shift, lane, 2, c), LaneCoefAt(start, ops, shift, lane, 3, c),
             c % LANES == lane, Bit(ops[lane], shift), Bit(ops[lane], 1 + shift), Bit(ops[lane], 2 + shift),
             Power(c, 0), Power(c, 1), Power(c, 2));
  }

  lemma LanePartIs(op: nat, shift: nat, c: nat)
    ensures LanePart(op, shift, c) ==
            Add(Add(Part(Bit(op, shift), Power(c, 0)), Part(Bit(op, 1 + shift), Power(c, 1))),
                Part(Bit(op, 2 + shift), Power(c, 2)))
  {
  }

  lemma NextLaneCoef(start: seq<Byte>, ops: seq<nat>, shift: nat, lane: nat, k: nat, c: nat)
    requires |ops| == LANES && lane < LANES && k < SUMS && (shift == 0 || shift == SUMS) && c < |start|
    ensures LaneCoefAt(start, ops, shift, lane, k + 1, c)
         == Add(LaneCoefAt(start, ops, shift, lane, k, c),
                Part(Bit(ops[lane], k + shift) && c % LANES == lane, Power(c, k)))
  {
    hide Add, Power, WithLaneCoefs, Bit, Uses, Part;
    LaneIndex(lane);
    LaneUses(ops, lane, shift);
    NextCoef(start, ops, shift, lane * SUMS + k, c);
  }

  lemma LaneIndex(lane: nat)
    ensures var j := lane * SUMS;
            && j / SUMS == lane && (j + 1) / SUMS == lane && (j + 2) / SUMS == lane
            && j % SUMS == 0 && (j + 1) % SUMS == 1 && (j + 2) % SUMS == 2 && (lane + 1) * SUMS == j + 3
  {
  }

  lemma LaneUses(ops: seq<nat>, lane: nat, shift: nat)
    requires |ops| == LANES && lane < LANES && (shift == 0 || shift == SUMS)
    ensures var j := lane * SUMS;
            && Uses(ops, j, shift) == Bit(ops[lane], shift) && Uses(ops, j + 1, shift) == Bit(ops[lane], 1 + shift)
            && Uses(ops, j + 2, shift) == Bit(ops[lane], 2 + shift)
  {
    hide Bit;
    LaneIndex(lane);
  }

  lemma AddThree(w0: Byte, w1: Byte, w2: Byte, w3: Byte, here: bool, s0: bool, s1: bool, s2: bool,
                 p0: Byte, p1: Byte, p2: Byte)
    requires w1 == Add(w0, Part(s0 && here, p0)) && w2 == Add(w1, Part(s1 && here, p1))
    requires w3 == Add(w2, Part(s2 && here, p2))
    ensures w3 == if here then Add(w0, Add(Add(Part(s0, p0), Part(s1, p1)), Part(s2, p2))) else w0
  {
    hide Add, Zero;
    AddUnits(w0);
    AddAssoc(w0, Part(s0, p0), Part(s1, p1));
    AddAssoc(w0, Add(Part(s0, p0), Part(s1, p1)), Part(s2, p2));
  }

  /** The coefficient of a column in a row of the matrix. */
  lemma CoefficientIs(row: Row, n: nat, c: nat)
    requires |row.ops| == LANES && c < n
    ensures var op := row.ops[c % LANES];
            Coefficients(row, n)[c]
            == Add(Add(Part(PickedOdd(row.first, c), One()), LanePart(op, 0, c)),
                   Mul(RowFactor(row), Add(Part(PickedOdd(row.second, c), One()), LanePart(op, SUMS, c))))
  {
    hide Add, Mul, LanePart, One, RowFactor, WithLaneCoefs;
    PickCoefIs(row.first, n, c);
    PickCoefIs(row.second, n, c);
    LaneCoefIs(PickCoefs(row.first, n), row.ops, 0, LANES, c);
    LaneCoefIs(PickCoefs(row.second, n), row.ops, SUMS, LANES, c);
  }

  // ----- One lost packet -----

  lemma {:induction false} DotOther(coefs: seq<Byte>, v: seq<Byte>, x: Byte, c: nat)
    requires |coefs| == |v| && c < |v|
    ensures Dot(coefs, v[c := x]) == Add(Dot(coefs, v), Mul(coefs[c], Add(v[c], x)))
    decreases |v|
  {
    hide Add, Mul;
    var n := |v| - 1;
    if c == n {
      assert v[c := x][..n] == v[..n];
      MulAdd(coefs[n], v[n], x);
      Replace(Dot(coefs[..n], v[..n]), Mul(coefs[n], v[n]), Mul(coefs[n], x));
    } else {
      assert v[c := x][..n] == v[..n][c := x];
      DotOther(coefs[..n], v[..n], x, c);
      Exchange(Dot(coefs[..n], v[..n]), Mul(coefs[c], Add(v[c], x)), Mul(coefs[n], v[n]));
    }
  }

  lemma Replace(a: Byte, b: Byte, c: Byte)
    ensures Add(a, c) == Add(Add(a, b), Add(b, c))
  {
    Same(Add(a, c), Add(Add(a, b), Add(b, c)));
  }

  lemma Exchange(a: Byte, b: Byte, c: Byte)
    ensures Add(Add(a, b), c) == Add(Add(a, c), b)
  {
    Same(Add(Add(a, b), c), Add(Add(a, c), b));
  }

  lemma AddNothing(a: Byte, b: Byte)
    ensures Add(a, b) == a <==> b == Zero()
  {
    AddUnits(a);
    if Add(a, b) == a {
      AddAssoc(a, a, b);
      AddUnits(b);
      AddUnits(a);
    }
  }

  lemma SameByte(a: Byte, b: Byte)
    ensures Add(a, b) == Zero() <==> a == b
  {
    AddUnits(a);
    AddUnits(b);
    if Add(a, b) == Zero() {
      AddAssoc(a, b, b);
    }
  }

  /**
   A recovery byte together with all other input bytes determines a lost one if and only if the coefficient of
   its column is not zero.
   */
  lemma OneLost(row: Row, v: seq<Byte>, x: Byte, c: nat)
    requires RowOk(row, |v|) && c < |v|
    ensures Output(row, v[c := x]) == Output(row, v)
       <==> x == v[c] || Coefficients(row, |v|)[c] == Zero()
  {
    hide Dot, Add, Mul, Zero, Output, Coefficients;
    OutputIsDot(row, v);
    OutputIsDot(row, v[c := x]);
    var a := Coefficients(row, |v|);
    DotOther(a, v, x, c);
    AddNothing(Dot(a, v), Mul(a[c], Add(v[c], x)));
    FieldInverse.NoZeroDivisors(a[c], Add(v[c], x));
    SameByte(v[c], x);
  }
}
