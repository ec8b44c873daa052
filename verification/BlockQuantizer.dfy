/** Quantizing whole blocks in place, directly or from the cache of sampled blocks. */
module BlockQuantizer {
  import opened Quantizer
  import opened DeltaCodec

  const SIZE: nat := 64

  /** Shift tables, one for each coefficient. */
  ghost predicate TablesOk(tables: seq<seq<nat>>) {
    |tables| == SIZE && forall i :: 0 <= i < SIZE ==> TableOk(tables[i])
  }

  /** The divisors and the tables go together. */
  ghost predicate PartsOk(parts: seq<Divisor>, tables: seq<seq<nat>>) {
    |parts| == |tables| == SIZE && forall i :: 0 <= i < SIZE ==> Usable(parts[i], tables[i])
  }

  /** No total shift reaches the width of the word. */
  ghost predicate ShiftsOk(parts: seq<Divisor>, shifts: seq<nat>) {
    |parts| == |shifts| == SIZE && forall i :: 0 <= i < SIZE ==> parts[i].shift + shifts[i] < 32
  }

  lemma LevelShiftsOk(parts: seq<Divisor>, tables: seq<seq<nat>>, level: nat)
    requires PartsOk(parts, tables) && level < LEVELS
    ensures TablesOk(tables) && ShiftsOk(parts, ShiftsAt(tables, level))
  {
    forall i | 0 <= i < SIZE ensures TableOk(tables[i]) && parts[i].shift + tables[i][level] < 32 {
      UsableAt(parts[i], tables[i], level);
    }
  }

  /** What one coefficient becomes: the block, the stored block and the block at the finest level. */
  datatype Cell = Cell(out: int, prev: int, next: int)

  function QuantizeCell(c: Cell, p: Divisor, l: nat, rp: nat, deltaQ: bool, updatePrev: bool, rescale: bool, shr: bool)
    : (r: Cell)
    requires p.shift + l < 32
  {
    var q := Quantize(c.out, p, l);
    if !deltaQ then c.(out := q)
    else
      var prev1 := RescalePrev(c.prev, rescale, shr, rp);
      if updatePrev then Cell(Wrap16(q - prev1), q, c.next) else Cell(Wrap16(q - prev1), prev1, q)
  }

  /** Quantizes a block in place; with `deltaQ`, the stored block is subtracted and brought up to date. */
  method DoQuantize(block: array<int>, prev: array<int>, next: array<int>, parts: seq<Divisor>, shifts: seq<nat>,
                    rpShifts: seq<nat>, deltaQ: bool, updatePrev: bool, rescale: bool, shr: bool)
    requires block.Length == prev.Length == next.Length == |rpShifts| == SIZE && ShiftsOk(parts, shifts)
    requires block != prev && prev != next && next != block
    modifies block, prev, next
    ensures forall i :: 0 <= i < SIZE ==>
              Cell(block[i], prev[i], next[i])
              == QuantizeCell(old(Cell(block[i], prev[i], next[i])), parts[i], shifts[i], rpShifts[i],
                              deltaQ, updatePrev, rescale, shr)
  {
    hide Quantize, RescalePrev, Wrap16;
    for i := 0 to SIZE
      invariant forall j :: 0 <= j < i ==>
                  Cell(block[j], prev[j], next[j])
                  == QuantizeCell(old(Cell(block[j], prev[j], next[j])), parts[j], shifts[j], rpShifts[j],
                                  deltaQ, updatePrev, rescale, shr)
      invariant forall j :: i <= j < SIZE ==>
                  block[j] == old(block[j]) && prev[j] == old(prev[j]) && next[j] == old(next[j])
    {
      var temp := Quantize(block[i], parts[i], shifts[i]);
      if deltaQ {
        prev[i] := RescalePrev(prev[i], rescale, shr, rpShifts[i]);
        var q := temp;
        temp := Wrap16(temp - prev[i]);
        if updatePrev {
          prev[i] := q;
        } else {
          next[i] := q;
        }
      }
      block[i] := temp;
    }
  }

  /** The shifts of all coefficients at a level. */
  function ShiftsAt(tables: seq<seq<nat>>, level: nat): (s: seq<nat>)
    requires TablesOk(tables) && level < LEVELS
    ensures |s| == SIZE && forall i :: 0 <= i < SIZE ==> s[i] == tables[i][level]
  {
    seq(SIZE, i requires 0 <= i < SIZE => tables[i][level])
  }

  /** The shifts between two levels, the finer one subtracted. */
  function ShiftsBetween(tables: seq<seq<nat>>, last: nat, level: nat): (s: seq<nat>)
    requires TablesOk(tables) && last < LEVELS && level < LEVELS
    ensures |s| == SIZE && forall i :: 0 <= i < SIZE ==> s[i] == RescaleShift(tables[i], last, level)
  {
    seq(SIZE, i requires 0 <= i < SIZE => RescaleShift(tables[i], last, level))
  }

  /** Codes a block directly at the new level. */
  method CodeDirect(block: array<int>, prev: array<int>, parts: seq<Divisor>, tables: seq<seq<nat>>, last: nat,
                    level: nat)
    requires PartsOk(parts, tables) && last < LEVELS && level < LEVELS
    requires block.Length == prev.Length == SIZE && block != prev
    modifies block, prev
    ensures forall i :: 0 <= i < SIZE ==>
              Coded(block[i], prev[i]) == Direct(old(prev[i]), old(block[i]), parts[i], tables[i], last, level)
  {
    hide Quantize, RescalePrev, Wrap16, TableOk, RescaleShift;
    LevelShiftsOk(parts, tables, level);
    var unused := new int[SIZE];
    DoQuantize(block, prev, unused, parts, ShiftsAt(tables, level), ShiftsBetween(tables, last, level),
               true, true, level != last, level < last);
    CellsDirect(parts, tables, last, level);
  }

  lemma CellsDirect(parts: seq<Divisor>, tables: seq<seq<nat>>, last: nat, level: nat)
    requires PartsOk(parts, tables) && last < LEVELS && level < LEVELS
    ensures TablesOk(tables) && ShiftsOk(parts, ShiftsAt(tables, level))
    ensures forall i, c: Cell :: 0 <= i < SIZE ==>
              var r := QuantizeCell(c, parts[i], ShiftsAt(tables, level)[i], ShiftsBetween(tables, last, level)[i],
                                    true, true, level != last, level < last);
              Coded(r.out, r.prev) == Direct(c.prev, c.out, parts[i], tables[i], last, level)
  {
    LevelShiftsOk(parts, tables, level);
    hide QuantizeCell, Direct, Usable, RescaleShift;
    forall i, c: Cell | 0 <= i < SIZE
      ensures var r := QuantizeCell(c, parts[i], ShiftsAt(tables, level)[i], ShiftsBetween(tables, last, level)[i],
                                    true, true, level != last, level < last);
              Coded(r.out, r.prev) == Direct(c.prev, c.out, parts[i], tables[i], last, level)
    {
      CellDirect(c, parts[i], tables[i], last, level);
    }
  }

  lemma CellDirect(c: Cell, p: Divisor, t: seq<nat>, last: nat, level: nat)
    requires Usable(p, t) && last < LEVELS && level < LEVELS
    ensures TableOk(t) && p.shift + t[level] < 32
    ensures var r := QuantizeCell(c, p, t[level], RescaleShift(t, last, level),
                                  true, true, level != last, level < last);
            Coded(r.out, r.prev) == Direct(c.prev, c.out, p, t, last, level)
  {
    UsableAt(p, t, level);
    hide Quantize, RescalePrev, Wrap16;
  }

  /** Quantizes a sampled block at the finest level, leaving the stored block at that level. */
  method SampleBlock(cache: array<int>, prev: array<int>, next: array<int>, parts: seq<Divisor>,
                     tables: seq<seq<nat>>, last: nat)
    requires PartsOk(parts, tables) && last < LEVELS
    requires cache.Length == prev.Length == next.Length == SIZE && cache != prev && prev != next && next != cache
    modifies cache, prev, next
    ensures forall i :: 0 <= i < SIZE ==>
              Sampled(cache[i], next[i], prev[i]) == Sample(old(prev[i]), old(cache[i]), parts[i], tables[i], last)
  {
    LevelShiftsOk(parts, tables, FINEST);
    hide Quantize, RescalePrev, Wrap16, TableOk, RescaleShift;
    DoQuantize(cache, prev, next, parts, ShiftsAt(tables, FINEST), ShiftsBetween(tables, last, FINEST),
               true, false, last != FINEST, false);
    CellsSample(parts, tables, last);
  }

  lemma CellsSample(parts: seq<Divisor>, tables: seq<seq<nat>>, last: nat)
    requires PartsOk(parts, tables) && last < LEVELS
    ensures TablesOk(tables) && ShiftsOk(parts, ShiftsAt(tables, FINEST))
    ensures forall i, c: Cell :: 0 <= i < SIZE ==>
              var r := QuantizeCell(c, parts[i], ShiftsAt(tables, FINEST)[i], ShiftsBetween(tables, last, FINEST)[i],
                                    true, false, last != FINEST, false);
              Sampled(r.out, r.next, r.prev) == Sample(c.prev, c.out, parts[i], tables[i], last)
  {
    LevelShiftsOk(parts, tables, FINEST);
    hide QuantizeCell, Sample, Usable, RescaleShift;
    forall i, c: Cell | 0 <= i < SIZE
      ensures var r := QuantizeCell(c, parts[i], ShiftsAt(tables, FINEST)[i], ShiftsBetween(tables, last, FINEST)[i],
                                    true, false, last != FINEST, false);
              Sampled(r.out, r.next, r.prev) == Sample(c.prev, c.out, parts[i], tables[i], last)
    {
      CellSample(c, parts[i], tables[i], last);
    }
  }

  lemma CellSample(c: Cell, p: Divisor, t: seq<nat>, last: nat)
    requires Usable(p, t) && last < LEVELS
    ensures TableOk(t) && p.shift + t[FINEST] < 32
    ensures var r := QuantizeCell(c, p, t[FINEST], RescaleShift(t, last, FINEST), true, false, last != FINEST, false);
            Sampled(r.out, r.next, r.prev) == Sample(c.prev, c.out, p, t, last)
  {
    UsableAt(p, t, FINEST);
    hide Quantize, Wrap16;
    if last == FINEST {
      NoRescale(c.prev, RescaleShift(t, last, FINEST));
    }
  }

  lemma NoRescale(c: int, s: nat)
    ensures RescalePrev(c, false, false, s) == c
  {
  }

  /** Codes a sampled block at the chosen level from its cache. */
  method CodeCached(output: array<int>, prev: array<int>, cache: array<int>, next: array<int>,
                    tables: seq<seq<nat>>, last: nat, level: nat)
    requires TablesOk(tables) && last < LEVELS && level < LEVELS
    requires output.Length == prev.Length == cache.Length == next.Length == SIZE
    requires output != prev && output != cache && output != next && prev != cache && prev != next
    modifies output, prev
    ensures forall i :: 0 <= i < SIZE ==>
              Coded(output[i], prev[i]) == FromCache(Sampled(cache[i], next[i], old(prev[i])), tables[i], last, level)
  {
    hide Asr, Off, Low, Wrap16, OffDiff;
    for i := 0 to SIZE
      invariant forall j :: 0 <= j < i ==>
                  Coded(output[j], prev[j])
                  == FromCache(Sampled(cache[j], next[j], old(prev[j])), tables[j], last, level)
      invariant forall j :: i <= j < SIZE ==> prev[j] == old(prev[j])
    {
      if level == FINEST {
        output[i] := cache[i];
        prev[i] := next[i];
      } else {
        var s := tables[i][level] - tables[i][FINEST];
        var offDiff := OffDiff(next[i], prev[i], s, level < last);
        prev[i] := Wrap16(Asr(next[i], s) + Off(next[i], s));
        output[i] := Wrap16(Asr(cache[i], s) + offDiff);
      }
    }
  }
}
