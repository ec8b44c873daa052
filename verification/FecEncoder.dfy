/** The FEC encoder: lane sums over the input columns, and recovery symbols made from them. */
module FecEncoder {
  import opened Gf256
  import opened FecMemory
  import opened FecMatrix

  const SYMBOL: nat := 1446

  function FinalBytes(total: nat): (n: nat)
    ensures 1 <= n <= SYMBOL
  {
    if total % SYMBOL == 0 then SYMBOL else total % SYMBOL
  }

  function ColumnBytes(count: nat, finalBytes: nat, column: nat): (n: nat) {
    if column + 1 == count then finalBytes else SYMBOL
  }

  /** Every column holds at least the bytes that count; only the last one may be short. */
  ghost predicate WindowOk(data: seq<seq<Byte>>, finalBytes: nat) {
    && |data| > 0 && 1 <= finalBytes <= SYMBOL
    && forall c :: 0 <= c < |data| ==> |data[c]| >= ColumnBytes(|data|, finalBytes, c)
  }

  /** The zero-padded byte of a column. */
  function Padded(data: seq<seq<Byte>>, finalBytes: nat, c: nat, x: nat): (b: Byte)
    requires WindowOk(data, finalBytes) && c < |data|
  {
    if x < ColumnBytes(|data|, finalBytes, c) then data[c][x] else Zero()
  }

  /** The bytes of all columns at one position. */
  function ColumnAt(data: seq<seq<Byte>>, finalBytes: nat, x: nat): (v: seq<Byte>)
    requires WindowOk(data, finalBytes)
    ensures |v| == |data| && forall c :: 0 <= c < |data| ==> v[c] == Padded(data, finalBytes, c, x)
  {
    seq(|data|, c requires 0 <= c < |data| => Padded(data, finalBytes, c, x))
  }

  /** A buffer holds sum `k` of a lane over the first `n` columns. */
  ghost predicate HoldsLane(sum: seq<Byte>, lane: nat, k: nat, data: seq<seq<Byte>>, finalBytes: nat, n: nat)
    requires WindowOk(data, finalBytes) && n <= |data|
  {
    |sum| == SYMBOL && forall x :: 0 <= x < SYMBOL ==> sum[x] == LaneSum(lane, k, ColumnAt(data, finalBytes, x)[..n])
  }

  lemma LaneNext(lane: nat, k: nat, v: seq<Byte>, n: nat)
    requires n < |v|
    ensures LaneSum(lane, k, v[..n + 1])
         == Add(LaneSum(lane, k, v[..n]), Part(n % LANES == lane, Mul(Power(n, k), v[n])))
  {
    assert v[..n + 1][..n] == v[..n];
  }

  /** Columns of other lanes do not change a lane's sum. */
  lemma {:induction false} LaneSkip(lane: nat, k: nat, v: seq<Byte>, a: nat, b: nat)
    requires a <= b <= |v| && forall m :: a <= m < b ==> m % LANES != lane
    ensures LaneSum(lane, k, v[..b]) == LaneSum(lane, k, v[..a])
    decreases b
  {
    hide Add, LaneSum;
    if a < b {
      LaneSkip(lane, k, v, a, b - 1);
      LaneNext(lane, k, v, b - 1);
      AddUnits(LaneSum(lane, k, v[..b - 1]));
    }
  }

  function Least(a: nat, b: nat): (m: nat) {
    if a <= b then a else b
  }

  /** After a column of the lane comes its product, then nothing up to the lane's next column. */
  lemma LaneStride(lane: nat, v: seq<Byte>, column: nat, end: nat)
    requires column < end <= |v| && column % LANES == lane
    ensures LaneSum(lane, 0, v[..Least(column + LANES, end)]) == Add(LaneSum(lane, 0, v[..column]), v[column])
  {
    hide Add, LaneSum, Mul;
    LaneNext(lane, 0, v, column);
    MulUnits(v[column]);
    LaneSkip(lane, 0, v, column + 1, Least(column + LANES, end));
  }

  /** Adds a column to a sum: the last one directly, as it may be short. */
  method AddColumn(sum: XorSummer, data: seq<seq<Byte>>, finalBytes: nat, c: nat)
    requires WindowOk(data, finalBytes) && c < |data| && sum.Valid() && sum.dest.Length == SYMBOL
    modifies sum, sum.dest
    ensures sum.Valid()
    ensures forall x :: 0 <= x < SYMBOL ==> sum.Value(x) == Add(old(sum.Value(x)), Padded(data, finalBytes, c, x))
  {
    hide Add, XorSummer.Value;
    if c == |data| - 1 {
      sum.AddDirectly(data[c], finalBytes);
    } else {
      sum.AddBuffer(data[c][..SYMBOL]);
    }
  }

  /** Sum 0 of a lane: the plain sum of its columns. */
  method LaneParity(data: seq<seq<Byte>>, finalBytes: nat, lane: nat) returns (r: seq<Byte>)
    requires WindowOk(data, finalBytes) && lane < LANES
    ensures HoldsLane(r, lane, 0, data, finalBytes, |data|)
  {
    hide Add, LaneSum, XorSummer.Value;
    var dest := new Byte[SYMBOL](_ => Zero());
    var sum := new XorSummer(dest);
    var columnEnd := |data| - 1;
    var column := lane;
    forall x | 0 <= x < SYMBOL
      ensures sum.Value(x) == LaneSum(lane, 0, ColumnAt(data, finalBytes, x)[..Least(lane, columnEnd)])
    {
      NothingBefore(lane, ColumnAt(data, finalBytes, x), Least(lane, columnEnd));
    }
    while column < columnEnd
      invariant sum.Valid() && sum.dest == dest && fresh(sum) && column % LANES == lane
      invariant forall x :: 0 <= x < SYMBOL ==>
                  sum.Value(x) == LaneSum(lane, 0, ColumnAt(data, finalBytes, x)[..Least(column, columnEnd)])
    {
      AddColumn(sum, data, finalBytes, column);
      forall x | 0 <= x < SYMBOL
        ensures sum.Value(x) == LaneSum(lane, 0, ColumnAt(data, finalBytes, x)[..Least(column + LANES, columnEnd)])
      {
        LaneStride(lane, ColumnAt(data, finalBytes, x), column, columnEnd);
      }
      column := column + LANES;
    }
    if columnEnd % LANES == lane {
      AddColumn(sum, data, finalBytes, columnEnd);
    }
    forall x | 0 <= x < SYMBOL
      ensures sum.Value(x) == LaneSum(lane, 0, ColumnAt(data, finalBytes, x)[..|data|])
    {
      LastColumn(lane, ColumnAt(data, finalBytes, x), columnEnd);
    }
    sum.Finalize();
    r := dest[..];
  }

  /** Before its first column a lane sum is zero. */
  lemma NothingBefore(lane: nat, v: seq<Byte>, end: nat)
    requires lane < LANES && end <= lane && end <= |v|
    ensures LaneSum(lane, 0, v[..end]) == Zero()
  {
    hide LaneSum;
    LaneSkip(lane, 0, v, 0, end);
    NoColumns(lane, 0, v);
  }

  lemma NoColumns(lane: nat, k: nat, v: seq<Byte>)
    ensures LaneSum(lane, k, v[..0]) == Zero()
  {
  }

  lemma LastColumn(lane: nat, v: seq<Byte>, end: nat)
    requires end + 1 == |v|
    ensures LaneSum(lane, 0, v[..|v|])
         == if end % LANES == lane then Add(LaneSum(lane, 0, v[..end]), v[end]) else LaneSum(lane, 0, v[..end])
  {
    hide Add, LaneSum, Mul;
    LaneNext(lane, 0, v, end);
    MulUnits(v[end]);
    AddUnits(LaneSum(lane, 0, v[..end]));
  }

  /** One more column in a weighted lane sum. */
  lemma MulAddColumn(sum: seq<Byte>, lane: nat, k: nat, data: seq<seq<Byte>>, finalBytes: nat, n: nat)
    requires WindowOk(data, finalBytes) && n < |data| && HoldsLane(sum, lane, k, data, finalBytes, n)
    ensures var bytes := ColumnBytes(|data|, finalBytes, n);
            && bytes <= SYMBOL && bytes <= |data[n]|
            && (n % LANES == lane ==>
                  HoldsLane(Added(sum, Scaled(Power(n, k), data[n], bytes), bytes), lane, k, data, finalBytes, n + 1))
            && (n % LANES != lane ==> HoldsLane(sum, lane, k, data, finalBytes, n + 1))
  {
    hide Add, LaneSum, Mul, Power;
    forall x | 0 <= x < SYMBOL
      ensures LaneSum(lane, k, ColumnAt(data, finalBytes, x)[..n + 1])
           == if n % LANES == lane && x < ColumnBytes(|data|, finalBytes, n)
              then Add(sum[x], Mul(Power(n, k), data[n][x]))
              else sum[x]
    {
      LaneNext(lane, k, ColumnAt(data, finalBytes, x), n);
      AddUnits(sum[x]);
      MulByNothing(Power(n, k));
    }
  }

  class Encoder {
    var data: seq<seq<Byte>>
    var finalBytes: nat
    var laneSums: seq<seq<Byte>>
    var ready: bool

    /** Each lane's three sums are complete. */
    ghost predicate Valid()
      reads this
    {
      ready ==>
        && WindowOk(data, finalBytes) && |laneSums| == LANES * SUMS
        && forall j :: 0 <= j < LANES * SUMS ==> HoldsLane(laneSums[j], j / SUMS, j % SUMS, data, finalBytes, |data|)
    }

    constructor ()
      ensures Valid() && !ready
    {
      data, finalBytes, laneSums, ready := [], 0, [], false;
    }

    /** Takes the input columns and computes the lane sums. */
    method Initialize(input: seq<seq<Byte>>, total: nat) returns (ok: bool)
      requires Valid() && (0 < |input| <= total ==> WindowOk(input, FinalBytes(total)))
      modifies this
      ensures Valid() && (ok <==> 0 < |input| <= total)
      ensures ok ==> ready && data == input && finalBytes == FinalBytes(total)
    {
      hide HoldsLane, FinalBytes, Power;
      if |input| == 0 || total < |input| {
        return false;
      }
      data, finalBytes, ready := input, FinalBytes(total), true;
      var sums: seq<seq<Byte>> := [];
      for lane := 0 to LANES
        invariant |sums| == lane * SUMS && data == input && ready && finalBytes == FinalBytes(total)
        invariant forall j :: 0 <= j < |sums| ==>
                    HoldsLane(sums[j], j / SUMS, j % SUMS, data, finalBytes, if j % SUMS == 0 then |data| else 0)
      {
        var parity := LaneParity(data, finalBytes, lane);
        EmptyLane(lane, data, finalBytes);
        LaneIndex(lane);
        var zeros := seq(SYMBOL, i => Zero());
        sums := sums + [parity, zeros, zeros];
      }
      for column := 0 to |data|
        invariant |sums| == LANES * SUMS && data == input && ready && finalBytes == FinalBytes(total)
        invariant forall j :: 0 <= j < |sums| ==>
                    HoldsLane(sums[j], j / SUMS, j % SUMS, data, finalBytes, if j % SUMS == 0 then |data| else column)
      {
        sums := AddWeighted(sums, data, finalBytes, column);
      }
      laneSums := sums;
      ok := true;
    }

    /** Makes a recovery symbol: every byte is the product of the row's coefficients and the padded input bytes. */
    method Encode(row: Row, out: array<Byte>, bytes: nat) returns (ok: bool)
      requires Valid() && out.Length == bytes
      requires ready ==> RowOk(row, |data|) && |row.first| == |row.second| == (|data| + 15) / 16
      modifies out
      ensures ok <==> ready && bytes == SYMBOL
      ensures ok ==> forall x :: 0 <= x < SYMBOL ==>
                out[x] == Dot(Coefficients(row, |data|), ColumnAt(data, finalBytes, x))
    {
      hide HoldsLane, Dot, Coefficients, WithLanes, PickSum, Output, Add, Mul, XorSummer.Value, RowOk, HalfOf,
           Accumulated;
      hide Added, Scaled;
      if !ready {
        return false;
      }
      if bytes != SYMBOL {
        return false;
      }
      RowParts(row, |data|);
      var product := new Byte[SYMBOL](_ => Zero());
      var sum := AddPicks(out, row.first, row.ops, 0);
      var prod := AddPicks(product, row.second, row.ops, SUMS);
      for lane := 0 to LANES
        invariant sum.Valid() && prod.Valid() && sum.dest == out && prod.dest == product && fresh(sum) && fresh(prod)
        invariant sum != prod
        invariant Accumulated(sum, row.first, row.ops, 0, lane * SUMS)
        invariant Accumulated(prod, row.second, row.ops, SUMS, lane * SUMS)
      {
        AddLane(sum, row.first, row.ops, 0, lane);
        AddLane(prod, row.second, row.ops, SUMS, lane);
      }
      FinishSum(sum, row.first, row.ops, 0);
      FinishSum(prod, row.second, row.ops, SUMS);
      ghost var halves := out[..];
      MulAddMem(out, RowFactor(row), product[..], SYMBOL);
      RowOutput(row, data, finalBytes, halves, product[..], out[..]);
      ok := true;
    }

    /** Completes a sum: the destination holds half of the row's output. */
    method FinishSum(sum: XorSummer, ghost picks: seq<nat>, ghost ops: seq<nat>, ghost shift: nat)
      requires ready && Valid() && sum.Valid() && sum.dest.Length == SYMBOL
      requires |ops| == LANES && (shift == 0 || shift == SUMS)
      requires forall i :: 0 <= i < |picks| ==> picks[i] < |data|
      requires Accumulated(sum, picks, ops, shift, LANES * SUMS)
      modifies sum.dest
      ensures HalfOf(sum.dest[..], picks, ops, shift, data, finalBytes)
    {
      hide WithLanes, PickSum, XorSummer.Value, HoldsLane;
      sum.Finalize();
    }

    /** The summer holds the picked columns and the first `j` selected lane sums. */
    ghost predicate Accumulated(sum: XorSummer, picks: seq<nat>, ops: seq<nat>, shift: nat, j: nat)
      requires ready && Valid() && sum.Valid() && sum.dest.Length == SYMBOL
      requires |ops| == LANES && j <= LANES * SUMS && (shift == 0 || shift == SUMS)
      requires forall i :: 0 <= i < |picks| ==> picks[i] < |data|
      reads this, sum, sum.dest
    {
      forall x :: 0 <= x < SYMBOL ==>
        sum.Value(x)
        == WithLanes(PickSum(picks, ColumnAt(data, finalBytes, x)), ops, shift, j, ColumnAt(data, finalBytes, x))
    }

    /** Starts a sum with the first picked column and adds the others. */
    method AddPicks(dest: array<Byte>, picks: seq<nat>, ghost ops: seq<nat>, ghost shift: nat) returns (sum: XorSummer)
      requires |ops| == LANES && (shift == 0 || shift == SUMS)
      requires Valid() && ready && dest.Length == SYMBOL && |picks| > 0
      requires forall i :: 0 <= i < |picks| ==> picks[i] < |data|
      modifies dest
      ensures fresh(sum) && sum.Valid() && sum.dest == dest
      ensures Accumulated(sum, picks, ops, shift, 0)
    {
      hide PickSum, WithLanes, Add, XorSummer.Value, HoldsLane;
      CopyColumn(dest, data, finalBytes, picks[0]);
      sum := new XorSummer(dest);
      forall x | 0 <= x < SYMBOL ensures sum.Value(x) == PickSum(picks[..1], ColumnAt(data, finalBytes, x)) {
        FirstPick(picks, ColumnAt(data, finalBytes, x));
      }
      for i := 1 to |picks|
        invariant sum.Valid() && sum.dest == dest && fresh(sum)
        invariant forall x :: 0 <= x < SYMBOL ==> sum.Value(x) == PickSum(picks[..i], ColumnAt(data, finalBytes, x))
      {
        AddColumn(sum, data, finalBytes, picks[i]);
        forall x | 0 <= x < SYMBOL ensures sum.Value(x) == PickSum(picks[..i + 1], ColumnAt(data, finalBytes, x)) {
          NextPick(picks, i, ColumnAt(data, finalBytes, x));
        }
      }
      assert picks[..|picks|] == picks;
      forall x | 0 <= x < SYMBOL {
        NoLanes(PickSum(picks, ColumnAt(data, finalBytes, x)), ops, shift, ColumnAt(data, finalBytes, x));
      }
    }

    /** Adds the sums of one lane that the operation code selects. */
    method AddLane(sum: XorSummer, picks: seq<nat>, ops: seq<nat>, shift: nat, lane: nat)
      requires Valid() && ready && sum.Valid() && sum.dest.Length == SYMBOL
      requires |ops| == LANES && lane < LANES && (shift == 0 || shift == SUMS)
      requires forall i :: 0 <= i < |picks| ==> picks[i] < |data|
      requires Accumulated(sum, picks, ops, shift, lane * SUMS)
      modifies sum, sum.dest
      ensures sum.Valid() && Accumulated(sum, picks, ops, shift, (lane + 1) * SUMS)
    {
      hide WithLanes, PickSum, Add, XorSummer.Value, HoldsLane, Bit, LaneSum;
      for k := 0 to SUMS
        invariant sum.Valid() && Accumulated(sum, picks, ops, shift, lane * SUMS + k)
      {
        var j := lane * SUMS + k;
        assert j / SUMS == lane && j % SUMS == k;
        assert HoldsLane(laneSums[j], lane, k, data, finalBytes, |data|);
        LaneBytes(laneSums[j], lane, k, data, finalBytes);
        forall x | 0 <= x < SYMBOL {
          NextLane(PickSum(picks, ColumnAt(data, finalBytes, x)), ops, shift, j, ColumnAt(data, finalBytes, x));
        }
        if Bit(ops[lane], k + shift) {
          sum.AddBuffer(laneSums[j]);
        }
      }
    }
  }

  // ----- Lemmas for the loops -----

  lemma EmptyLane(lane: nat, data: seq<seq<Byte>>, finalBytes: nat)
    requires WindowOk(data, finalBytes)
    ensures HoldsLane(seq(SYMBOL, i => Zero()), lane, 1, data, finalBytes, 0)
    ensures HoldsLane(seq(SYMBOL, i => Zero()), lane, 2, data, finalBytes, 0)
  {
    hide Zero;
  }

  /** Adds a column to the two weighted sums of its lane. */
  method AddWeighted(sums: seq<seq<Byte>>, data: seq<seq<Byte>>, finalBytes: nat, column: nat)
    returns (r: seq<seq<Byte>>)
    requires WindowOk(data, finalBytes) && column < |data| && |sums| == LANES * SUMS
    requires forall j :: 0 <= j < |sums| ==>
               HoldsLane(sums[j], j / SUMS, j % SUMS, data, finalBytes, if j % SUMS == 0 then |data| else column)
    ensures |r| == |sums|
    ensures forall j :: 0 <= j < |r| ==>
              HoldsLane(r[j], j / SUMS, j % SUMS, data, finalBytes, if j % SUMS == 0 then |data| else column + 1)
  {
    hide HoldsLane, Added, Scaled, Mul;
    var bytes := ColumnBytes(|data|, finalBytes, column);
    var lane := column % LANES;
    var cx := FromNat(ColumnNumber(column));
    var cx2 := Mul(cx, cx);
    LaneIndex(lane);
    var j1, j2 := lane * SUMS + 1, lane * SUMS + 2;
    forall j | 0 <= j < |sums| && j % SUMS != 0
      ensures HoldsSize(sums[j])
      ensures j / SUMS != lane ==> HoldsLane(sums[j], j / SUMS, j % SUMS, data, finalBytes, column + 1)
      ensures j / SUMS == lane ==>
                HoldsLane(Added(sums[j], Scaled(Power(column, j % SUMS), data[column], bytes), bytes),
                          j / SUMS, j % SUMS, data, finalBytes, column + 1)
    {
      LaneSize(sums[j], j / SUMS, j % SUMS, data, finalBytes, column);
      MulAddColumn(sums[j], j / SUMS, j % SUMS, data, finalBytes, column);
    }
    assert HoldsSize(sums[j1]) && HoldsSize(sums[j2]);
    r := sums[j1 := Added(sums[j1], Scaled(cx, data[column], bytes), bytes)];
    r := r[j2 := Added(sums[j2], Scaled(cx2, data[column], bytes), bytes)];
  }

  predicate HoldsSize(sum: seq<Byte>) {
    |sum| == SYMBOL
  }

  lemma LaneSize(sum: seq<Byte>, lane: nat, k: nat, data: seq<seq<Byte>>, finalBytes: nat, n: nat)
    requires WindowOk(data, finalBytes) && n <= |data| && HoldsLane(sum, lane, k, data, finalBytes, n)
    ensures HoldsSize(sum)
  {
  }

  lemma LaneBytes(sum: seq<Byte>, lane: nat, k: nat, data: seq<seq<Byte>>, finalBytes: nat)
    requires WindowOk(data, finalBytes) && HoldsLane(sum, lane, k, data, finalBytes, |data|)
    ensures |sum| == SYMBOL
    ensures forall x :: 0 <= x < SYMBOL ==> sum[x] == LaneSum(lane, k, ColumnAt(data, finalBytes, x))
  {
    hide LaneSum;
    forall x | 0 <= x < SYMBOL ensures sum[x] == LaneSum(lane, k, ColumnAt(data, finalBytes, x)) {
      var v := ColumnAt(data, finalBytes, x);
      assert v[..|data|] == v;
    }
  }

  /** Copies a column, padding the last one with zeros. */
  method CopyColumn(dest: array<Byte>, data: seq<seq<Byte>>, finalBytes: nat, c: nat)
    requires WindowOk(data, finalBytes) && c < |data| && dest.Length == SYMBOL
    modifies dest
    ensures forall x :: 0 <= x < SYMBOL ==> dest[x] == Padded(data, finalBytes, c, x)
  {
    hide Zero;
    var bytes := ColumnBytes(|data|, finalBytes, c);
    forall x | 0 <= x < SYMBOL {
      dest[x] := if x < bytes then data[c][x] else Zero();
    }
  }

  lemma FirstPick(picks: seq<nat>, v: seq<Byte>)
    requires |picks| > 0 && forall i :: 0 <= i < |picks| ==> picks[i] < |v|
    ensures PickSum(picks[..1], v) == v[picks[0]]
  {
    hide Add;
    assert picks[..1][..0] == [];
    AddUnits(v[picks[0]]);
  }

  lemma NextPick(picks: seq<nat>, n: nat, v: seq<Byte>)
    requires n < |picks| && forall i :: 0 <= i < |picks| ==> picks[i] < |v|
    ensures PickSum(picks[..n + 1], v) == Add(PickSum(picks[..n], v), v[picks[n]])
  {
    hide Add;
    assert picks[..n + 1][..n] == picks[..n];
  }

  lemma NoLanes(start: Byte, ops: seq<nat>, shift: nat, v: seq<Byte>)
    requires |ops| == LANES && (shift == 0 || shift == SUMS)
    ensures WithLanes(start, ops, shift, 0, v) == start
  {
  }

  lemma NextLane(start: Byte, ops: seq<nat>, shift: nat, j: nat, v: seq<Byte>)
    requires |ops| == LANES && j < LANES * SUMS && (shift == 0 || shift == SUMS)
    ensures WithLanes(start, ops, shift, j + 1, v)
         == if Bit(ops[j / SUMS], j % SUMS + shift)
            then Add(WithLanes(start, ops, shift, j, v), LaneSum(j / SUMS, j % SUMS, v))
            else WithLanes(start, ops, shift, j, v)
  {
    hide Add, LaneSum, Bit;
    AddUnits(WithLanes(start, ops, shift, j, v));
  }

  lemma RowParts(row: Row, n: nat)
    requires RowOk(row, n)
    ensures |row.ops| == LANES
    ensures forall i :: 0 <= i < |row.first| ==> row.first[i] < n
    ensures forall i :: 0 <= i < |row.second| ==> row.second[i] < n
  {
  }

  /** One half of the row's output, byte by byte. */
  ghost predicate HalfOf(half: seq<Byte>, picks: seq<nat>, ops: seq<nat>, shift: nat, data: seq<seq<Byte>>,
                         finalBytes: nat)
  {
    && WindowOk(data, finalBytes) && |ops| == LANES && (shift == 0 || shift == SUMS) && |half| == SYMBOL
    && (forall i :: 0 <= i < |picks| ==> picks[i] < |data|)
    && forall x :: 0 <= x < SYMBOL ==> half[x] == HalfSum(picks, ops, shift, ColumnAt(data, finalBytes, x))
  }

  lemma RowOutput(row: Row, data: seq<seq<Byte>>, finalBytes: nat, halves: seq<Byte>, product: seq<Byte>,
                  out: seq<Byte>)
    requires WindowOk(data, finalBytes) && RowOk(row, |data|) && |halves| == |product| == |out| == SYMBOL
    requires HalfOf(halves, row.first, row.ops, 0, data, finalBytes)
    requires HalfOf(product, row.second, row.ops, SUMS, data, finalBytes)
    requires out == Added(halves, Scaled(RowFactor(row), product, SYMBOL), SYMBOL)
    ensures |row.ops| == LANES
    ensures forall x :: 0 <= x < SYMBOL ==> out[x] == Dot(Coefficients(row, |data|), ColumnAt(data, finalBytes, x))
  {
    hide HalfSum, Dot, Coefficients, Add, Mul;
    forall x | 0 <= x < SYMBOL ensures out[x] == Dot(Coefficients(row, |data|), ColumnAt(data, finalBytes, x)) {
      OutputParts(row, ColumnAt(data, finalBytes, x));
    }
  }

  lemma OutputParts(row: Row, v: seq<Byte>)
    requires RowOk(row, |v|)
    ensures Dot(Coefficients(row, |v|), v)
         == Add(HalfSum(row.first, row.ops, 0, v), Mul(RowFactor(row), HalfSum(row.second, row.ops, SUMS, v)))
  {
    OutputIsDot(row, v);
  }
}
