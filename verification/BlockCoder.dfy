/**
 Huffman coding of quantized blocks: DC differences, zig-zag run lengths, ZRL and EOB
 (sections F.1.2.1 and F.1.2.2 of ITU-T T.81), with a decoder as specification.
 */
module BlockCoder {
  import opened Bits
  import opened BitWriter
  import opened PrefixCode
  import CanonicalCode

  type Code = PrefixCode.Code
  type DerivedTbl = CanonicalCode.DerivedTbl

  const ZRL: nat := 0xF0
  const EOB: nat := 0

  // ----- Zig-zag order -----

  /** Natural position of each zig-zag index, eight indices to a row. */
  const NATURAL_ORDER: seq<seq<nat>> := [
    [0, 1, 8, 16, 9, 2, 3, 10],
    [17, 24, 32, 25, 18, 11, 4, 5],
    [12, 19, 26, 33, 40, 48, 41, 34],
    [27, 20, 13, 6, 7, 14, 21, 28],
    [35, 42, 49, 56, 57, 50, 43, 36],
    [29, 22, 15, 23, 30, 37, 44, 51],
    [58, 59, 52, 45, 38, 31, 39, 46],
    [53, 60, 61, 54, 47, 55, 62, 63]]

  /** Zig-zag index of each natural position. */
  const ZIGZAG_INDEX: seq<seq<nat>> := [
    [0, 1, 5, 6, 14, 15, 27, 28],
    [2, 4, 7, 13, 16, 26, 29, 42],
    [3, 8, 12, 17, 25, 30, 41, 43],
    [9, 11, 18, 24, 31, 40, 44, 53],
    [10, 19, 23, 32, 39, 45, 52, 54],
    [20, 22, 33, 38, 46, 51, 55, 60],
    [21, 34, 37, 47, 50, 56, 59, 61],
    [35, 36, 48, 49, 57, 58, 62, 63]]

  predicate IsRow(row: seq<nat>) {
    |row| == 8 && forall c :: 0 <= c < 8 ==> row[c] < 64
  }

  predicate IsTable(t: seq<seq<nat>>) {
    |t| == 8 && forall r :: 0 <= r < 8 ==> IsRow(t[r])
  }

  lemma TablesOk()
    ensures IsTable(NATURAL_ORDER) && IsTable(ZIGZAG_INDEX)
  {
    NaturalOk();
    ZigZagOk();
  }

  lemma NaturalOk()
    ensures IsTable(NATURAL_ORDER)
  {
  }

  lemma ZigZagOk()
    ensures IsTable(ZIGZAG_INDEX)
  {
  }

  function At(t: seq<seq<nat>>, k: nat): (v: nat)
    requires IsTable(t) && k < 64
    ensures v < 64
  {
    t[k / 8][k % 8]
  }

  /** Row by row, looking up a zig-zag index gives back the natural position. */
  lemma OrderInverse(r: nat, c: nat)
    requires r < 8 && c < 8
    ensures IsTable(NATURAL_ORDER) && IsTable(ZIGZAG_INDEX)
    ensures At(NATURAL_ORDER, ZIGZAG_INDEX[r][c]) == 8 * r + c
  {
    TablesOk();
    if r < 2 {
      OrderInverseFirst(r, c);
    } else if r < 4 {
      OrderInverseSecond(r, c);
    } else if r < 6 {
      OrderInverseThird(r, c);
    } else {
      OrderInverseFourth(r, c);
    }
  }

  lemma OrderInverseFirst(r: nat, c: nat)
    requires 0 <= r < 2 && c < 8 && IsTable(NATURAL_ORDER) && IsTable(ZIGZAG_INDEX)
    ensures At(NATURAL_ORDER, ZIGZAG_INDEX[r][c]) == 8 * r + c
  {
  }

  lemma OrderInverseSecond(r: nat, c: nat)
    requires 2 <= r < 4 && c < 8 && IsTable(NATURAL_ORDER) && IsTable(ZIGZAG_INDEX)
    ensures At(NATURAL_ORDER, ZIGZAG_INDEX[r][c]) == 8 * r + c
  {
  }

  lemma OrderInverseThird(r: nat, c: nat)
    requires 4 <= r < 6 && c < 8 && IsTable(NATURAL_ORDER) && IsTable(ZIGZAG_INDEX)
    ensures At(NATURAL_ORDER, ZIGZAG_INDEX[r][c]) == 8 * r + c
  {
  }

  lemma OrderInverseFourth(r: nat, c: nat)
    requires 6 <= r < 8 && c < 8 && IsTable(NATURAL_ORDER) && IsTable(ZIGZAG_INDEX)
    ensures At(NATURAL_ORDER, ZIGZAG_INDEX[r][c]) == 8 * r + c
  {
  }

  type Block = b: seq<int> | |b| == 64 witness seq(64, _ => 0)

  function ToZigZag(b: Block): (z: Block) {
    TablesOk();
    seq(64, k requires 0 <= k < 64 => b[At(NATURAL_ORDER, k)])
  }

  function FromZigZag(z: Block): (b: Block) {
    TablesOk();
    seq(64, i requires 0 <= i < 64 => z[At(ZIGZAG_INDEX, i)])
  }

  lemma ZigZagRoundTrip(b: Block)
    ensures FromZigZag(ToZigZag(b)) == b
  {
    TablesOk();
    forall i | 0 <= i < 64 ensures FromZigZag(ToZigZag(b))[i] == b[i] {
      OrderInverse(i / 8, i % 8);
    }
  }

  /** The place after `p` on the zig-zag way through a block of eight rows of eight. */
  function NextPlace(p: nat): (q: nat)
    requires p < 63
  {
    var r, c := p / 8, p % 8;
    if (r + c) % 2 == 0 then (if c == 7 then p + 8 else if r == 0 then p + 1 else p - 7)
    else (if r == 7 then p + 1 else if c == 0 then p + 8 else p + 7)
  }

  /** Within a row of the table, each entry is the place after the one before it. */
  lemma RowFollows(r: nat, c: nat)
    requires r < 8 && c < 7 && IsTable(NATURAL_ORDER)
    ensures NATURAL_ORDER[r][c] < 63 && NATURAL_ORDER[r][c + 1] == NextPlace(NATURAL_ORDER[r][c])
  {
    hide NextPlace;
    if r < 2 {
      RowFollowsFirst(r, c);
    } else if r < 4 {
      RowFollowsSecond(r, c);
    } else if r < 6 {
      RowFollowsThird(r, c);
    } else {
      RowFollowsFourth(r, c);
    }
  }

  lemma RowFollowsFirst(r: nat, c: nat)
    requires 0 <= r < 2 && c < 7 && IsTable(NATURAL_ORDER)
    ensures NATURAL_ORDER[r][c] < 63 && NATURAL_ORDER[r][c + 1] == NextPlace(NATURAL_ORDER[r][c])
  {
  }

  lemma RowFollowsSecond(r: nat, c: nat)
    requires 2 <= r < 4 && c < 7 && IsTable(NATURAL_ORDER)
    ensures NATURAL_ORDER[r][c] < 63 && NATURAL_ORDER[r][c + 1] == NextPlace(NATURAL_ORDER[r][c])
  {
  }

  lemma RowFollowsThird(r: nat, c: nat)
    requires 4 <= r < 6 && c < 7 && IsTable(NATURAL_ORDER)
    ensures NATURAL_ORDER[r][c] < 63 && NATURAL_ORDER[r][c + 1] == NextPlace(NATURAL_ORDER[r][c])
  {
  }

  lemma RowFollowsFourth(r: nat, c: nat)
    requires 6 <= r < 8 && c < 7 && IsTable(NATURAL_ORDER)
    ensures NATURAL_ORDER[r][c] < 63 && NATURAL_ORDER[r][c + 1] == NextPlace(NATURAL_ORDER[r][c])
  {
  }

  lemma NextRowFollows(r: nat)
    requires r < 7 && IsTable(NATURAL_ORDER)
    ensures NATURAL_ORDER[r][7] < 63 && NATURAL_ORDER[r + 1][0] == NextPlace(NATURAL_ORDER[r][7])
  {
  }

  /** The order goes through the block along its diagonals, in turn upward and downward. */
  lemma ZigZagOrder(k: nat)
    requires k < 63
    ensures IsTable(NATURAL_ORDER) && At(NATURAL_ORDER, 0) == 0 && At(NATURAL_ORDER, k) < 63
    ensures At(NATURAL_ORDER, k + 1) == NextPlace(At(NATURAL_ORDER, k))
  {
    hide NextPlace;
    TablesOk();
    var r, c := k / 8, k % 8;
    if c < 7 {
      RowFollows(r, c);
      assert (k + 1) / 8 == r && (k + 1) % 8 == c + 1;
    } else {
      NextRowFollows(r);
      assert (k + 1) / 8 == r + 1 && (k + 1) % 8 == 0;
    }
  }

  // ----- Magnitudes -----

  /** Number of significant bits. */
  function NBits(x: nat): (n: nat) {
    if x == 0 then 0 else 1 + NBits(x / 2)
  }

  lemma {:induction false} NBitsBounds(x: nat)
    ensures x < Pow2(NBits(x))
    ensures x > 0 ==> NBits(x) > 0 && Pow2(NBits(x) - 1) <= x
  {
    if x != 0 {
      NBitsBounds(x / 2);
    }
  }

  function Abs(v: int): (a: nat) {
    if v < 0 then -v else v
  }

  /** The value whose low bits are sent: negative values are sent one lower. */
  function Biased(v: int): (b: int) {
    if v < 0 then v - 1 else v
  }

  /** The decoder's sign extension of `n` received magnitude bits. */
  function Extend(b: nat, n: nat): (v: int) {
    if n == 0 then 0 else if b < Pow2(n - 1) then b - Pow2(n) + 1 else b
  }

  /** Category and magnitude bits determine the value, and the category is minimal. */
  lemma ExtendBiased(v: int)
    ensures Extend(LowBits(Biased(v), NBits(Abs(v))), NBits(Abs(v))) == v
  {
    var n := NBits(Abs(v));
    NBitsBounds(Abs(v));
    if v > 0 {
      ModSmall(v, Pow2(n));
    } else if v < 0 {
      ModNegative(v - 1, Pow2(n));
    }
  }

  lemma ModSmall(x: int, m: nat)
    requires 0 <= x < m
    ensures x % m == x
  {
  }

  lemma ModNegative(x: int, m: nat)
    requires 0 <= x + m && x < 0
    ensures x % m == x + m
  {
    ModSmall(x + m, m);
    assert (x + m) % m == x % m;
  }

  /** A symbol's code word followed by the magnitude bits of a value. */
  function ValueBits(code: Code, sym: nat, v: int): (bits: seq<bool>)
    requires sym in code
  {
    code[sym] + ToBits(LowBits(Biased(v), NBits(Abs(v))), NBits(Abs(v)))
  }

  /** Reads `n` magnitude bits. */
  function ReadValue(bits: seq<bool>, n: nat): (r: Option<(int, seq<bool>)>) {
    if |bits| < n then None else Some((Extend(FromBits(bits[..n]), n), bits[n..]))
  }

  lemma ReadValueBack(v: int, rest: seq<bool>)
    ensures var n := NBits(Abs(v));
            ReadValue(ToBits(LowBits(Biased(v), n), n) + rest, n) == Some((v, rest))
  {
    var n := NBits(Abs(v));
    var low := ToBits(LowBits(Biased(v), n), n);
    FromToBits(LowBits(Biased(v), n), n);
    ExtendBiased(v);
    assert (low + rest)[..n] == low && (low + rest)[n..] == rest;
  }

  // ----- AC coefficients -----

  /** Every symbol the encoder needs for `cs` after `run` zeros has a code word, and magnitudes fit in 15 bits. */
  ghost predicate Covered(code: Code, cs: seq<int>, run: nat)
    decreases |cs|, run
  {
    if cs == [] then run > 0 ==> EOB in code
    else if cs[0] == 0 then Covered(code, cs[1..], run + 1)
    else if run >= 16 then ZRL in code && Covered(code, cs, run - 16)
    else NBits(Abs(cs[0])) <= 15 && run * 16 + NBits(Abs(cs[0])) in code && Covered(code, cs[1..], 0)
  }

  /** Bits for the coefficients `cs` when `run` zeros before them are still unsent. */
  ghost function AcBits(code: Code, cs: seq<int>, run: nat): (bits: seq<bool>)
    requires Covered(code, cs, run)
    decreases |cs|, run
  {
    if cs == [] then (if run > 0 then code[EOB] else [])
    else if cs[0] == 0 then AcBits(code, cs[1..], run + 1)
    else if run >= 16 then code[ZRL] + AcBits(code, cs, run - 16)
    else ValueBits(code, run * 16 + NBits(Abs(cs[0])), cs[0]) + AcBits(code, cs[1..], 0)
  }

  function Zeros(n: nat): (z: seq<int>) {
    seq(n, _ => 0)
  }

  /** Decodes `n` coefficients: a symbol is a run of zeros times 16 plus the size of the value that follows them. */
  ghost function DecodeAc(code: Code, bits: seq<bool>, n: nat): (r: Option<(seq<int>, seq<bool>)>)
    decreases n
  {
    if n == 0 then Some(([], bits))
    else match DecodeSymbol(code, bits)
      case None => None
      case Some(sym) =>
        var tail := bits[|code[sym]|..];
        var run, size := sym / 16, sym % 16;
        if run == 0 && size == 0 then Some((Zeros(n), tail))
        else if run == 15 && size == 0 then
          (if n < 16 then None else Prepend(Zeros(16), DecodeAc(code, tail, n - 16)))
        else if size == 0 || run + 1 > n then None
        else match ReadValue(tail, size)
          case None => None
          case Some(v) => Prepend(Zeros(run) + [v.0], DecodeAc(code, v.1, n - run - 1))
  }

  function Prepend(pre: seq<int>, r: Option<(seq<int>, seq<bool>)>): (r': Option<(seq<int>, seq<bool>)>) {
    match r
    case None => None
    case Some(p) => Some((pre + p.0, p.1))
  }

  // One step of the decoder, for each kind of symbol.

  lemma DecodeEob(code: Code, bits: seq<bool>, n: nat)
    requires n > 0 && DecodeSymbol(code, bits) == Some(EOB)
    ensures DecodeAc(code, bits, n) == Some((Zeros(n), bits[|code[EOB]|..]))
  {
  }

  lemma DecodeZrl(code: Code, bits: seq<bool>, n: nat)
    requires n >= 16 && DecodeSymbol(code, bits) == Some(ZRL)
    ensures DecodeAc(code, bits, n) == Prepend(Zeros(16), DecodeAc(code, bits[|code[ZRL]|..], n - 16))
  {
  }

  lemma DecodeRun(code: Code, bits: seq<bool>, n: nat, run: nat, size: nat, v: int, rest: seq<bool>)
    requires run < 16 && 0 < size <= 15 && run < n
    requires DecodeSymbol(code, bits) == Some(run * 16 + size)
    requires ReadValue(bits[|code[run * 16 + size]|..], size) == Some((v, rest))
    ensures DecodeAc(code, bits, n) == Prepend(Zeros(run) + [v], DecodeAc(code, rest, n - run - 1))
  {
    hide ReadValue, DecodeSymbol;
    RunSymbol(run, size);
  }

  lemma RunSymbol(run: nat, n: nat)
    requires run < 16 && 0 < n <= 15
    ensures (run * 16 + n) / 16 == run && (run * 16 + n) % 16 == n && run * 16 + n != ZRL && run * 16 + n != EOB
  {
  }

  lemma {:induction false} AcEnd(code: Code, run: nat, rest: seq<bool>)
    requires PrefixFree(code) && Covered(code, [], run)
    ensures DecodeAc(code, AcBits(code, [], run) + rest, run) == Some((Zeros(run) + [], rest))
  {
    if run > 0 {
      DecodeEncoded(code, EOB, rest);
      DecodeEob(code, code[EOB] + rest, run);
    } else {
      assert AcBits(code, [], run) + rest == rest;
    }
    assert Zeros(run) + [] == Zeros(run);
  }

  lemma {:induction false} AcZrl(code: Code, cs: seq<int>, run: nat, tail: seq<bool>, rest: seq<bool>)
    requires PrefixFree(code) && ZRL in code && run >= 16
    requires DecodeAc(code, tail + rest, run - 16 + |cs|) == Some((Zeros(run - 16) + cs, rest))
    ensures DecodeAc(code, code[ZRL] + tail + rest, run + |cs|) == Some((Zeros(run) + cs, rest))
  {
    hide PrefixFree, DecodeAc, DecodeSymbol;
    Assoc(code[ZRL], tail, rest);
    DecodeEncoded(code, ZRL, tail + rest);
    DecodeZrl(code, code[ZRL] + (tail + rest), run + |cs|);
    assert Zeros(16) + (Zeros(run - 16) + cs) == Zeros(run) + cs;
  }

  lemma {:induction false} AcValue(code: Code, v: int, cs: seq<int>, run: nat, tail: seq<bool>, rest: seq<bool>)
    requires PrefixFree(code) && run < 16 && v != 0 && NBits(Abs(v)) <= 15 && run * 16 + NBits(Abs(v)) in code
    requires DecodeAc(code, tail + rest, |cs|) == Some((cs, rest))
    ensures DecodeAc(code, ValueBits(code, run * 16 + NBits(Abs(v)), v) + tail + rest, run + 1 + |cs|)
         == Some((Zeros(run) + [v] + cs, rest))
  {
    hide PrefixFree, DecodeAc, DecodeSymbol, ReadValue, ToBits, LowBits, Pow2, NBits, Zeros, Biased;
    var n := NBits(Abs(v));
    var sym, mag := run * 16 + n, ToBits(LowBits(Biased(v), n), n);
    NBitsBounds(Abs(v));
    Assoc(code[sym] + mag, tail, rest);
    Assoc(code[sym], mag, tail + rest);
    DecodeEncoded(code, sym, mag + (tail + rest));
    ReadValueBack(v, tail + rest);
    DecodeRun(code, code[sym] + (mag + (tail + rest)), run + 1 + |cs|, run, n, v, tail + rest);
  }

  /** Decoding the run-length code of the coefficients, with pending zeros, returns them all. */
  lemma {:induction false} AcRoundTrip(code: Code, cs: seq<int>, run: nat, rest: seq<bool>)
    requires PrefixFree(code) && Covered(code, cs, run)
    ensures DecodeAc(code, AcBits(code, cs, run) + rest, run + |cs|) == Some((Zeros(run) + cs, rest))
    decreases |cs|, run
  {
    hide PrefixFree, DecodeAc, NBits, ValueBits;
    if cs == [] {
      AcEnd(code, run, rest);
    } else if cs[0] == 0 {
      AcRoundTrip(code, cs[1..], run + 1, rest);
      assert Zeros(run + 1) + cs[1..] == Zeros(run) + cs;
    } else if run >= 16 {
      AcRoundTrip(code, cs, run - 16, rest);
      AcZrl(code, cs, run, AcBits(code, cs, run - 16), rest);
    } else {
      AcRoundTrip(code, cs[1..], 0, rest);
      assert Zeros(0) + cs[1..] == cs[1..];
      AcValue(code, cs[0], cs[1..], run, AcBits(code, cs[1..], 0), rest);
      assert Zeros(run) + [cs[0]] + cs[1..] == Zeros(run) + cs;
    }
  }

  // ----- Whole blocks -----

  ghost predicate BlockCovered(dc: Code, ac: Code, z: Block, last: int) {
    && NBits(Abs(z[0] - last)) <= 15 && NBits(Abs(z[0] - last)) in dc
    && Covered(ac, z[1..], 0)
  }

  /** Bits of one block in zig-zag order: the DC difference, then the AC coefficients. */
  ghost function BlockBits(dc: Code, ac: Code, z: Block, last: int): (bits: seq<bool>)
    requires BlockCovered(dc, ac, z, last)
  {
    ValueBits(dc, NBits(Abs(z[0] - last)), z[0] - last) + AcBits(ac, z[1..], 0)
  }

  ghost function DecodeBlock(dc: Code, ac: Code, bits: seq<bool>, last: int): (r: Option<(Block, seq<bool>)>) {
    match DecodeSymbol(dc, bits)
    case None => None
    case Some(n) =>
      match ReadValue(bits[|dc[n]|..], n)
      case None => None
      case Some(d) =>
        match DecodeAc(ac, d.1, 63)
        case None => None
        case Some(p) => if |p.0| != 63 then None else Some((FromZigZag([last + d.0] + p.0), p.1))
  }

  /** Decoding one block returns it and leaves the following bits untouched. */
  lemma BlockRoundTrip(dc: Code, ac: Code, b: Block, last: int, rest: seq<bool>)
    requires PrefixFree(dc) && PrefixFree(ac) && BlockCovered(dc, ac, ToZigZag(b), last)
    ensures DecodeBlock(dc, ac, BlockBits(dc, ac, ToZigZag(b), last) + rest, last) == Some((b, rest))
  {
    var z := ToZigZag(b);
    DecodeBlockStep(dc, ac, z, last, rest);
    ZigZagRoundTrip(b);
  }

  lemma DecodeBlockStep(dc: Code, ac: Code, z: Block, last: int, rest: seq<bool>)
    requires PrefixFree(dc) && PrefixFree(ac) && BlockCovered(dc, ac, z, last)
    ensures DecodeBlock(dc, ac, BlockBits(dc, ac, z, last) + rest, last) == Some((FromZigZag(z), rest))
  {
    hide AcBits, DecodeAc, DecodeSymbol, ReadValue, ToBits, NBits, LowBits, PrefixFree, Covered, FromZigZag;
    var d := z[0] - last;
    var n := NBits(Abs(d));
    var mag, tail := ToBits(LowBits(Biased(d), n), n), AcBits(ac, z[1..], 0);
    Assoc(dc[n] + mag, tail, rest);
    Assoc(dc[n], mag, tail + rest);
    DecodeEncoded(dc, n, mag + (tail + rest));
    ReadValueBack(d, tail + rest);
    AcRoundTrip(ac, z[1..], 0, rest);
    assert Zeros(0) + z[1..] == z[1..];
    assert [last + d] + z[1..] == z;
  }

  /** One block of component `comp`; each component has its own tables and DC prediction. */
  datatype Job = Job(comp: nat, block: Block)
  datatype Tables = Tables(dc: Code, ac: Code)

  ghost predicate AllCovered(tabs: seq<Tables>, jobs: seq<Job>, last: seq<int>) {
    |last| == |tabs| &&
    (jobs != [] ==>
       && jobs[0].comp < |tabs|
       && BlockCovered(tabs[jobs[0].comp].dc, tabs[jobs[0].comp].ac, ToZigZag(jobs[0].block), last[jobs[0].comp])
       && AllCovered(tabs, jobs[1..], last[jobs[0].comp := jobs[0].block[0]]))
  }

  ghost function ScanBits(tabs: seq<Tables>, jobs: seq<Job>, last: seq<int>): (bits: seq<bool>)
    requires AllCovered(tabs, jobs, last)
  {
    if jobs == [] then []
    else
      var c := jobs[0].comp;
      BlockBits(tabs[c].dc, tabs[c].ac, ToZigZag(jobs[0].block), last[c])
      + ScanBits(tabs, jobs[1..], last[c := jobs[0].block[0]])
  }

  /** Decodes one block for each listed component, updating the DC predictions. */
  ghost function DecodeScan(tabs: seq<Tables>, comps: seq<nat>, bits: seq<bool>, last: seq<int>)
    : (r: Option<(seq<Block>, seq<bool>)>)
    requires |last| == |tabs| && forall i :: 0 <= i < |comps| ==> comps[i] < |tabs|
    decreases comps
  {
    if comps == [] then Some(([], bits))
    else
      var c := comps[0];
      match DecodeBlock(tabs[c].dc, tabs[c].ac, bits, last[c])
      case None => None
      case Some(b) =>
        match DecodeScan(tabs, comps[1..], b.1, last[c := b.0[0]])
        case None => None
        case Some(p) => Some(([b.0] + p.0, p.1))
  }

  function Comps(jobs: seq<Job>): (cs: seq<nat>)
    ensures |cs| == |jobs| && forall i :: 0 <= i < |jobs| ==> cs[i] == jobs[i].comp
  {
    seq(|jobs|, i requires 0 <= i < |jobs| => jobs[i].comp)
  }

  function Blocks(jobs: seq<Job>): (bs: seq<Block>)
    ensures |bs| == |jobs| && forall i :: 0 <= i < |jobs| ==> bs[i] == jobs[i].block
  {
    seq(|jobs|, i requires 0 <= i < |jobs| => jobs[i].block)
  }

  lemma {:induction false} CoveredComps(tabs: seq<Tables>, jobs: seq<Job>, last: seq<int>)
    requires AllCovered(tabs, jobs, last)
    ensures forall i :: 0 <= i < |jobs| ==> jobs[i].comp < |tabs|
  {
    if jobs != [] {
      CoveredComps(tabs, jobs[1..], last[jobs[0].comp := jobs[0].block[0]]);
      assert forall i :: 0 < i < |jobs| ==> jobs[i] == jobs[1..][i - 1];
    }
  }

  /**
   Any interleaving of components: decoding the bits of a scan returns exactly its blocks, whatever
   follows them (such as the padding of the final flush).
   */
  lemma {:induction false} ScanRoundTrip(tabs: seq<Tables>, jobs: seq<Job>, last: seq<int>, rest: seq<bool>)
    requires AllCovered(tabs, jobs, last)
    requires forall c :: 0 <= c < |tabs| ==> PrefixFree(tabs[c].dc) && PrefixFree(tabs[c].ac)
    ensures forall i :: 0 <= i < |jobs| ==> Comps(jobs)[i] < |tabs|
    ensures DecodeScan(tabs, Comps(jobs), ScanBits(tabs, jobs, last) + rest, last) == Some((Blocks(jobs), rest))
  {
    hide BlockBits, DecodeBlock, ToZigZag, PrefixFree, BlockCovered;
    CoveredComps(tabs, jobs, last);
    if jobs == [] {
      assert ScanBits(tabs, jobs, last) + rest == rest;
    } else {
      var c, b := jobs[0].comp, jobs[0].block;
      var last' := last[c := b[0]];
      var first, tail := BlockBits(tabs[c].dc, tabs[c].ac, ToZigZag(b), last[c]), ScanBits(tabs, jobs[1..], last');
      Assoc(first, tail, rest);
      BlockRoundTrip(tabs[c].dc, tabs[c].ac, b, last[c], tail + rest);
      ScanRoundTrip(tabs, jobs[1..], last', rest);
      assert Comps(jobs)[1..] == Comps(jobs[1..]);
      assert [b] + Blocks(jobs[1..]) == Blocks(jobs);
    }
  }

  // ----- The encoder -----

  /** Sizes of at most 16 bits and code words that fit them. */
  ghost predicate TableOk(t: DerivedTbl) {
    && |t.co| == |t.si| == 256
    && forall s :: 0 <= s < 256 ==> t.si[s] <= 16 && t.co[s] < Pow2(t.si[s])
  }

  ghost predicate RunOk(code: Code, run: nat, v: int) {
    if run >= 16 then ZRL in code && RunOk(code, run - 16, v)
    else NBits(Abs(v)) <= 15 && run * 16 + NBits(Abs(v)) in code
  }

  /** The bits of a nonzero value after `run` zeros: a ZRL for every sixteen zeros, then the value. */
  ghost function RunBits(code: Code, run: nat, v: int): (bits: seq<bool>)
    requires RunOk(code, run, v)
  {
    if run >= 16 then code[ZRL] + RunBits(code, run - 16, v)
    else ValueBits(code, run * 16 + NBits(Abs(v)), v)
  }

  lemma {:induction false} AcBitsRun(code: Code, cs: seq<int>, run: nat)
    requires Covered(code, cs, run) && cs != [] && cs[0] != 0
    ensures RunOk(code, run, cs[0]) && Covered(code, cs[1..], 0)
    ensures AcBits(code, cs, run) == RunBits(code, run, cs[0]) + AcBits(code, cs[1..], 0)
    decreases run
  {
    hide ValueBits, NBits;
    if run >= 16 {
      AcBitsRun(code, cs, run - 16);
      Assoc(code[ZRL], RunBits(code, run - 16, cs[0]), AcBits(code, cs[1..], 0));
    }
  }

  method PutValue(w: Writer, t: DerivedTbl, sym: nat, v: int)
    requires w.Valid() && TableOk(t) && sym < 256 && t.si[sym] > 0 && NBits(Abs(v)) <= 15
    modifies w
    ensures old(w.raw) <= w.raw
    ensures w.Valid() && w.Stream() == old(w.Stream()) + ValueBits(CanonicalCode.TableCode(t), sym, v)
  {
    hide ToBits, NBits, LowBits, Pow2, BytesToBits, Stuff, WithLowBits;
    var sign := if v < 0 then -1 else 0;
    var val1 := v + sign;
    JoinedBits(t.co[sym], t.si[sym], val1, NBits(Abs(v)));
    w.PutCode(t.co[sym], t.si[sym], val1, NBits(Abs(v)));
  }

  method PutSymbol(w: Writer, t: DerivedTbl, sym: nat)
    requires w.Valid() && TableOk(t) && sym < 256 && t.si[sym] > 0
    modifies w
    ensures old(w.raw) <= w.raw
    ensures w.Valid() && w.Stream() == old(w.Stream()) + CanonicalCode.TableCode(t)[sym]
  {
    w.PutBits(t.co[sym], t.si[sym]);
  }

  lemma TableSymbol(t: DerivedTbl, sym: nat)
    requires |t.co| == |t.si| == 256 && sym in CanonicalCode.TableCode(t)
    ensures sym < 256 && t.si[sym] > 0
  {
  }

  /** `r` counts pending zeros in steps of 16, as the high nibble of the symbol. */
  method PutRun(w: Writer, t: DerivedTbl, r0: nat, v: int, ghost run0: nat)
    requires w.Valid() && TableOk(t) && r0 == 16 * run0 && RunOk(CanonicalCode.TableCode(t), run0, v)
    modifies w
    ensures old(w.raw) <= w.raw
    ensures w.Valid() && w.Stream() == old(w.Stream()) + RunBits(CanonicalCode.TableCode(t), run0, v)
  {
    hide CanonicalCode.TableCode, ToBits, NBits, BytesToBits, ValueBits, Stuff, Pow2;
    ghost var code := CanonicalCode.TableCode(t);
    var r := r0;
    ghost var run := run0;
    while r >= 256
      invariant old(w.raw) <= w.raw
      invariant w.Valid() && r == 16 * run && RunOk(code, run, v)
      invariant w.Stream() + RunBits(code, run, v) == old(w.Stream()) + RunBits(code, run0, v)
    {
      r, run := r - 256, run - 16;
      TableSymbol(t, ZRL);
      Assoc(w.Stream(), code[ZRL], RunBits(code, run, v));
      PutSymbol(w, t, ZRL);
    }
    TableSymbol(t, r + NBits(Abs(v)));
    PutValue(w, t, r + NBits(Abs(v)), v);
  }

  lemma TableSizes(t: DerivedTbl)
    requires TableOk(t)
    ensures |t.co| == |t.si| == 256
  {
  }

  lemma ZigZagIs(b: Block)
    ensures IsTable(NATURAL_ORDER) && forall k :: 0 <= k < 64 ==> ToZigZag(b)[k] == b[At(NATURAL_ORDER, k)]
  {
    hide At;
    TablesOk();
  }

  /** The AC coefficients of a block, in zig-zag order. */
  method EncodeAc(w: Writer, block: Block, t: DerivedTbl)
    requires w.Valid() && TableOk(t) && Covered(CanonicalCode.TableCode(t), ToZigZag(block)[1..], 0)
    modifies w
    ensures old(w.raw) <= w.raw
    ensures w.Valid()
    ensures w.Stream() == old(w.Stream()) + AcBits(CanonicalCode.TableCode(t), ToZigZag(block)[1..], 0)
  {
    hide CanonicalCode.TableCode, ToZigZag, ToBits, NBits, BytesToBits, RunBits, RunOk, TableOk, At, Stuff, ValueBits,
         IsTable;
    TableSizes(t);
    ghost var z, code := ToZigZag(block), CanonicalCode.TableCode(t);
    ZigZagIs(block);
    var r: nat, k: nat := 0, 1;
    ghost var run := 0;
    while k < 64
      invariant old(w.raw) <= w.raw
      invariant 1 <= k <= 64 && w.Valid() && r == 16 * run && IsTable(NATURAL_ORDER)
      invariant Covered(code, z[k..], run)
      invariant w.Stream() + AcBits(code, z[k..], run) == old(w.Stream()) + AcBits(code, z[1..], 0)
    {
      var val := block[At(NATURAL_ORDER, k)];
      assert z[k..][1..] == z[k + 1..] && z[k..][0] == val;
      if val == 0 {
        r, run := r + 16, run + 1;
      } else {
        AcBitsRun(code, z[k..], run);
        Assoc(w.Stream(), RunBits(code, run, val), AcBits(code, z[k + 1..], 0));
        PutRun(w, t, r, val, run);
        r, run := 0, 0;
      }
      k := k + 1;
    }
    if r > 0 {
      PutEob(w, t);
    } else {
      assert w.Stream() + [] == w.Stream();
    }
  }

  method PutEob(w: Writer, t: DerivedTbl)
    requires w.Valid() && TableOk(t) && EOB in CanonicalCode.TableCode(t)
    modifies w
    ensures old(w.raw) <= w.raw
    ensures w.Valid() && w.Stream() == old(w.Stream()) + CanonicalCode.TableCode(t)[EOB]
  {
    PutSymbol(w, t, EOB);
  }

  /** Encodes one block and returns its DC value, the next prediction. */
  method EncodeOneBlock(w: Writer, block: Block, last: int, dc: DerivedTbl, ac: DerivedTbl) returns (b0: int)
    requires w.Valid() && TableOk(dc) && TableOk(ac)
    requires BlockCovered(CanonicalCode.TableCode(dc), CanonicalCode.TableCode(ac), ToZigZag(block), last)
    modifies w
    ensures old(w.raw) <= w.raw
    ensures w.Valid() && b0 == block[0]
    ensures w.Stream() == old(w.Stream())
                          + BlockBits(CanonicalCode.TableCode(dc), CanonicalCode.TableCode(ac), ToZigZag(block), last)
  {
    FirstIsDc(block);
    hide ToZigZag, ToBits, NBits, BytesToBits, AcBits, Covered, ValueBits;
    b0 := block[0];
    var diff := b0 - last;
    Assoc(w.Stream(), ValueBits(CanonicalCode.TableCode(dc), NBits(Abs(diff)), diff),
          AcBits(CanonicalCode.TableCode(ac), ToZigZag(block)[1..], 0));
    PutValue(w, dc, NBits(Abs(diff)), diff);
    EncodeAc(w, block, ac);
  }

  lemma FirstIsDc(b: Block)
    ensures ToZigZag(b)[0] == b[0]
  {
    TablesOk();
  }

  datatype DerivedPair = DerivedPair(dc: DerivedTbl, ac: DerivedTbl)

  ghost predicate PairOk(p: DerivedPair) {
    && TableOk(p.dc) && TableOk(p.ac)
    && PrefixFree(CanonicalCode.TableCode(p.dc)) && PrefixFree(CanonicalCode.TableCode(p.ac))
  }

  ghost function CodeOf(p: DerivedPair): (t: Tables)
    requires PairOk(p)
  {
    Tables(CanonicalCode.TableCode(p.dc), CanonicalCode.TableCode(p.ac))
  }

  ghost function CodesOf(pairs: seq<DerivedPair>): (tabs: seq<Tables>)
    requires forall c :: 0 <= c < |pairs| ==> PairOk(pairs[c])
    ensures |tabs| == |pairs| && forall c :: 0 <= c < |pairs| ==> tabs[c] == CodeOf(pairs[c])
  {
    seq(|pairs|, c requires 0 <= c < |pairs| => CodeOf(pairs[c]))
  }

  lemma NextJob(tabs: seq<Tables>, jobs: seq<Job>, last: seq<int>, i: nat, pre: seq<bool>)
    requires i < |jobs| && AllCovered(tabs, jobs[i..], last)
    ensures var c := jobs[i].comp;
            && c < |tabs| == |last|
            && BlockCovered(tabs[c].dc, tabs[c].ac, ToZigZag(jobs[i].block), last[c])
            && AllCovered(tabs, jobs[i + 1..], last[c := jobs[i].block[0]])
            && pre + ScanBits(tabs, jobs[i..], last)
               == pre + BlockBits(tabs[c].dc, tabs[c].ac, ToZigZag(jobs[i].block), last[c])
                  + ScanBits(tabs, jobs[i + 1..], last[c := jobs[i].block[0]])
  {
    hide BlockBits, BlockCovered, ToZigZag;
    var c := jobs[i].comp;
    assert jobs[i..][1..] == jobs[i + 1..];
    Assoc(pre, BlockBits(tabs[c].dc, tabs[c].ac, ToZigZag(jobs[i].block), last[c]),
          ScanBits(tabs, jobs[i + 1..], last[c := jobs[i].block[0]]));
  }

  lemma ScanClosed(tabs: seq<Tables>, jobs: seq<Job>, last: seq<int>, pre: seq<bool>)
    requires AllCovered(tabs, jobs[|jobs|..], last)
    ensures pre + ScanBits(tabs, jobs[|jobs|..], last) == pre
  {
  }

  lemma NoBits(bits: seq<bool>)
    ensures [] + bits == bits
  {
  }

  /**
   Encodes a scan and flushes it. The decoder, given the output bytes and the order of components,
   recovers exactly the blocks; only padding ones are left.
   */
  method EncodeScan(pairs: seq<DerivedPair>, jobs: seq<Job>, last0: seq<int>, noEscape: bool)
    returns (out: seq<Byte>, pad: nat)
    requires forall c :: 0 <= c < |pairs| ==> PairOk(pairs[c])
    requires AllCovered(CodesOf(pairs), jobs, last0)
    ensures forall i :: 0 <= i < |jobs| ==> Comps(jobs)[i] < |pairs|
    ensures pad < 8
    ensures DecodeScan(CodesOf(pairs), Comps(jobs), BytesToBits(Received(out, noEscape)), last0)
         == Some((Blocks(jobs), Ones(pad)))
  {
    hide ToBits, BytesToBits, Stuff, Unstuff, BlockBits, BlockCovered, ToZigZag, PrefixFree, DecodeScan, TableOk, Ones;
    hide ScanBits, AllCovered;
    ghost var tabs := CodesOf(pairs);
    var w := new Writer(noEscape);
    var last, i := last0, 0;
    assert jobs[0..] == jobs;
    NoBits(ScanBits(tabs, jobs, last0));
    while i < |jobs|
      invariant 0 <= i <= |jobs| && w.Valid() && w.noEscape == noEscape && fresh(w)
      invariant AllCovered(tabs, jobs[i..], last)
      invariant w.Stream() + ScanBits(tabs, jobs[i..], last) == ScanBits(tabs, jobs, last0)
    {
      var c := jobs[i].comp;
      NextJob(tabs, jobs, last, i, w.Stream());
      var b0 := EncodeOneBlock(w, jobs[i].block, last[c], pairs[c].dc, pairs[c].ac);
      last := last[c := b0];
      i := i + 1;
    }
    ScanClosed(tabs, jobs, last, w.Stream());
    pad := w.free % 8;
    w.FlushTail();
    ReceivedIsCarried(w.out, w.raw, noEscape);
    ScanRoundTrip(tabs, jobs, last0, Ones(pad));
    out := w.out;
  }
}
