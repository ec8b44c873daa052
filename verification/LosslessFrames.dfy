/** The bits of lossless rows and frames, and the receiver that recovers the top bits of every sample. */
module LosslessFrames {
  import opened Bits
  import opened PrefixCode
  import opened Lossless

  /** The code of one component and the number of bits it keeps. */
  datatype Component = Component(code: Code, b: nat)

  ghost predicate ComponentOk(c: Component) {
    && 1 <= c.b <= 8 && PrefixFree(c.code)
    && forall r: nat :: InAlphabet(r, c.b) ==> r in c.code
  }

  /** A row with the row above it (empty in the first row) and the same row of the previous frame. */
  ghost predicate RowsOk(row: Row, top: Row, prev: Row) {
    && RowOk(row) && RowOk(top) && RowOk(prev)
    && |row| % CHUNK == 0 && (top == [] || |top| == |row|) && |prev| == |row|
  }

  lemma SymbolsIn(row: Row, top: Row, prev: Row, x: nat, c: Component)
    requires ComponentOk(c) && RowsOk(row, top, prev) && x + CHUNK <= |row|
    ensures forall i :: 0 <= i < CHUNK ==> PredSymbols(row, top, x, CHUNK, c.b)[i] in c.code
    ensures forall i :: 0 <= i < CHUNK ==> DiffSymbols(row, prev, x, CHUNK, c.b)[i] in c.code
  {
    hide InAlphabet, TruncRow, RestorePred, RestoreDiff;
    PredRoundTrip(row, top, x, CHUNK, c.b);
    DiffRoundTrip(row, prev, x, CHUNK, c.b);
    forall i | 0 <= i < CHUNK ensures PredSymbols(row, top, x, CHUNK, c.b)[i] in c.code {
      assert InAlphabet(PredSymbols(row, top, x, CHUNK, c.b)[i], c.b);
    }
    forall i | 0 <= i < CHUNK ensures DiffSymbols(row, prev, x, CHUNK, c.b)[i] in c.code {
      assert InAlphabet(DiffSymbols(row, prev, x, CHUNK, c.b)[i], c.b);
    }
  }

  /** A chunk: one bit for the choice, then the shorter of the two codings. */
  function ChunkBits(row: Row, top: Row, prev: Row, x: nat, c: Component): (bits: seq<bool>)
    requires ComponentOk(c) && RowsOk(row, top, prev) && x + CHUNK <= |row|
  {
    SymbolsIn(row, top, prev, x, c);
    var pred := Encode(c.code, PredSymbols(row, top, x, CHUNK, c.b));
    var diff := Encode(c.code, DiffSymbols(row, prev, x, CHUNK, c.b));
    if |diff| < |pred| then [true] + diff else [false] + pred
  }

  /** The chunks of a row from position `x` on. */
  function RowBits(row: Row, top: Row, prev: Row, x: nat, c: Component): (bits: seq<bool>)
    requires ComponentOk(c) && RowsOk(row, top, prev) && x <= |row| && x % CHUNK == 0
    decreases |row| - x
  {
    hide ComponentOk, RowsOk;
    if x + CHUNK > |row| then []
    else
      ChunkBits(row, top, prev, x, c) + RowBits(row, top, prev, x + CHUNK, c)
  }

  /** A chunk in the coding named by the flag. */
  ghost function ChunkAs(diff: bool, row: Row, top: Row, prev: Row, x: nat, c: Component): (bits: seq<bool>)
    requires ComponentOk(c) && RowsOk(row, top, prev) && x + CHUNK <= |row|
  {
    SymbolsIn(row, top, prev, x, c);
    var syms := if diff then DiffSymbols(row, prev, x, CHUNK, c.b) else PredSymbols(row, top, x, CHUNK, c.b);
    [diff] + Encode(c.code, syms)
  }

  /** The chunks of a row from position `x` on, each in the coding named by its flag. */
  ghost function RowAs(choices: seq<bool>, row: Row, top: Row, prev: Row, x: nat, c: Component): (bits: seq<bool>)
    requires ComponentOk(c) && RowsOk(row, top, prev) && x + |choices| * CHUNK == |row|
  {
    hide ComponentOk, RowsOk;
    if choices == [] then []
    else ChunkAs(choices[0], row, top, prev, x, c) + RowAs(choices[1..], row, top, prev, x + CHUNK, c)
  }

  lemma ChunkIsShorter(diff: bool, row: Row, top: Row, prev: Row, x: nat, c: Component)
    requires ComponentOk(c) && RowsOk(row, top, prev) && x + CHUNK <= |row|
    ensures |ChunkBits(row, top, prev, x, c)| <= |ChunkAs(diff, row, top, prev, x, c)|
    ensures var bits := ChunkBits(row, top, prev, x, c);
            bits == ChunkAs(true, row, top, prev, x, c) || bits == ChunkAs(false, row, top, prev, x, c)
  {
    hide DiffSymbols, PredSymbols, Encode;
  }

  /** No other choice of codings for the chunks of a row gives fewer bits. */
  lemma {:induction false} RowIsShortest(choices: seq<bool>, row: Row, top: Row, prev: Row, x: nat, c: Component)
    requires ComponentOk(c) && RowsOk(row, top, prev) && x + |choices| * CHUNK == |row| && x % CHUNK == 0
    ensures |RowBits(row, top, prev, x, c)| <= |RowAs(choices, row, top, prev, x, c)|
    decreases |choices|
  {
    hide ComponentOk, RowsOk, ChunkBits, ChunkAs;
    if choices != [] {
      ChunkIsShorter(choices[0], row, top, prev, x, c);
      RowIsShortest(choices[1..], row, top, prev, x + CHUNK, c);
    }
  }

  /** The receiver's next chunk. */
  ghost function DecodeChunk(bits: seq<bool>, row: Row, top: Row, prev: Row, c: Component)
    : (r: Option<(Row, seq<bool>)>)
    requires 1 <= c.b <= 8 && |row| + CHUNK <= |prev| && (top == [] || |top| == |prev|)
  {
    if bits == [] then None
    else match Decode(c.code, bits[1..], CHUNK)
      case None => None
      case Some(p) =>
        Some((if bits[0] then RestoreDiff(row, prev, p.0, c.b) else RestorePred(row, top, p.0, c.b), p.1))
  }

  lemma ChunkRoundTrip(row: Row, top: Row, prev: Row, x: nat, c: Component, rest: seq<bool>)
    requires ComponentOk(c) && RowsOk(row, top, prev) && x + CHUNK <= |row|
    ensures DecodeChunk(ChunkBits(row, top, prev, x, c) + rest, TruncRow(row[..x], c.b), TruncRow(top, c.b),
                        TruncRow(prev, c.b), c)
         == Some((TruncRow(row[..x + CHUNK], c.b), rest))
  {
    hide PredSymbols, DiffSymbols, RestorePred, RestoreDiff, InAlphabet, Encode, Decode;
    SymbolsIn(row, top, prev, x, c);
    PredRoundTrip(row, top, x, CHUNK, c.b);
    DiffRoundTrip(row, prev, x, CHUNK, c.b);
    var ps, ds := PredSymbols(row, top, x, CHUNK, c.b), DiffSymbols(row, prev, x, CHUNK, c.b);
    DecodeEncode(c.code, ps, rest);
    DecodeEncode(c.code, ds, rest);
    Tail(true, Encode(c.code, ds), rest);
    Tail(false, Encode(c.code, ps), rest);
  }

  lemma Tail(flag: bool, a: seq<bool>, rest: seq<bool>)
    ensures ([flag] + a + rest)[1..] == a + rest && ([flag] + a + rest)[0] == flag
  {
  }

  /** The receiver's row: `n` more chunks. */
  ghost function DecodeRow(bits: seq<bool>, row: Row, top: Row, prev: Row, n: nat, c: Component)
    : (r: Option<(Row, seq<bool>)>)
    requires 1 <= c.b <= 8 && |row| + n * CHUNK <= |prev| && (top == [] || |top| == |prev|)
    decreases n
  {
    if n == 0 then Some((row, bits))
    else match DecodeChunk(bits, row, top, prev, c)
      case None => None
      case Some(p) =>
        if |p.0| == |row| + CHUNK then DecodeRow(p.1, p.0, top, prev, n - 1, c) else None
  }

  /** A receiver holding only truncated samples recovers the truncated row, whichever coding each chunk chose. */
  lemma {:induction false} RowRoundTrip(row: Row, top: Row, prev: Row, x: nat, n: nat, c: Component, rest: seq<bool>)
    requires ComponentOk(c) && RowsOk(row, top, prev) && x + n * CHUNK == |row| && x % CHUNK == 0
    ensures DecodeRow(RowBits(row, top, prev, x, c) + rest, TruncRow(row[..x], c.b), TruncRow(top, c.b),
                      TruncRow(prev, c.b), n, c)
         == Some((TruncRow(row, c.b), rest))
    decreases n
  {
    hide DecodeChunk, ChunkBits;
    if n == 0 {
      assert row[..x] == row;
      assert RowBits(row, top, prev, x, c) + rest == rest;
    } else {
      var more := RowBits(row, top, prev, x + CHUNK, c);
      ChunkRoundTrip(row, top, prev, x, c, more + rest);
      RowRoundTrip(row, top, prev, x + CHUNK, n - 1, c, rest);
      Assoc(ChunkBits(row, top, prev, x, c), more, rest);
    }
  }

  // ----- Frames of several components -----

  /** The rows of each component. */
  type Frame = seq<seq<Row>>

  datatype Format = Format(comps: seq<Component>, widths: seq<nat>)

  ghost predicate FormatOk(f: Format) {
    && |f.comps| == |f.widths|
    && (forall c :: 0 <= c < |f.comps| ==> ComponentOk(f.comps[c]))
    && (forall c :: 0 <= c < |f.widths| ==> f.widths[c] % CHUNK == 0)
  }

  ghost predicate RowsFit(rows: seq<Row>, width: nat) {
    forall g :: 0 <= g < |rows| ==> RowOk(rows[g]) && |rows[g]| == width
  }

  ghost predicate FrameOk(frame: Frame, f: Format) {
    |frame| == |f.widths| && forall c :: 0 <= c < |frame| ==> RowsFit(frame[c], f.widths[c])
  }

  /** Every row to be coded exists in this frame and in the previous one; `pos[c]` rows of component `c` are done. */
  ghost predicate JobsOk(jobs: seq<nat>, pos: seq<nat>, frame: Frame, prev: Frame)
    decreases |jobs|
  {
    && |pos| == |frame| == |prev|
    && (jobs == [] ||
        (jobs[0] < |pos| && pos[jobs[0]] < |frame[jobs[0]]| && pos[jobs[0]] < |prev[jobs[0]]|
         && JobsOk(jobs[1..], pos[jobs[0] := pos[jobs[0]] + 1], frame, prev)))
  }

  function Above(rows: seq<Row>, g: nat): (top: Row)
    requires g <= |rows|
  {
    if g == 0 then [] else rows[g - 1]
  }

  lemma RowFits(frame: Frame, prev: Frame, f: Format, c: nat, g: nat)
    requires FormatOk(f) && FrameOk(frame, f) && FrameOk(prev, f) && c < |frame| && g < |frame[c]| && g < |prev[c]|
    ensures ComponentOk(f.comps[c]) && RowsOk(frame[c][g], Above(frame[c], g), prev[c][g])
    ensures |frame[c][g]| == f.widths[c]
  {
    hide ComponentOk, RowOk;
    assert RowsFit(frame[c], f.widths[c]) && RowsFit(prev[c], f.widths[c]);
    NoRow();
  }

  lemma NoRow()
    ensures RowOk([])
  {
  }

  /** The bits of a frame: its rows in the order of `jobs`, each job naming the component of the next row. */
  ghost function FrameBits(jobs: seq<nat>, pos: seq<nat>, frame: Frame, prev: Frame, f: Format): (bits: seq<bool>)
    requires FormatOk(f) && FrameOk(frame, f) && FrameOk(prev, f) && JobsOk(jobs, pos, frame, prev)
    decreases |jobs|
  {
    hide FormatOk, FrameOk, ComponentOk, RowsOk;
    if jobs == [] then []
    else
      var c, g := jobs[0], pos[jobs[0]];
      RowFits(frame, prev, f, c, g);
      FormatSizes(frame, f);
      RowBits(frame[c][g], Above(frame[c], g), prev[c][g], 0, f.comps[c])
      + FrameBits(jobs[1..], pos[c := g + 1], frame, prev, f)
  }

  lemma FormatSizes(frame: Frame, f: Format)
    requires FormatOk(f) && FrameOk(frame, f)
    ensures |frame| == |f.comps| == |f.widths|
  {
  }

  /** The top bits of the first `n` rows. */
  function TruncRows(rows: seq<Row>, n: nat, b: nat): (t: seq<Row>)
    requires n <= |rows| && b <= 8
    ensures |t| == n && forall g :: 0 <= g < n ==> t[g] == TruncRow(rows[g], b)
  {
    seq(n, g requires 0 <= g < n => TruncRow(rows[g], b))
  }

  /** What the receiver holds when `pos[c]` rows of each component have been coded. */
  function Received(frame: Frame, pos: seq<nat>, f: Format): (t: Frame)
    requires |frame| == |pos| == |f.comps|
    requires forall c :: 0 <= c < |frame| ==> pos[c] <= |frame[c]| && f.comps[c].b <= 8
    ensures |t| == |frame| && forall c :: 0 <= c < |frame| ==> t[c] == TruncRows(frame[c], pos[c], f.comps[c].b)
  {
    seq(|frame|, c requires 0 <= c < |frame| => TruncRows(frame[c], pos[c], f.comps[c].b))
  }

  /** The receiver's frame: rows restored in the order of `jobs` from its own truncated rows. */
  ghost function DecodeFrame(bits: seq<bool>, jobs: seq<nat>, done: Frame, prev: Frame, f: Format)
    : (r: Option<(Frame, seq<bool>)>)
    decreases |jobs|
  {
    if jobs == [] then Some((done, bits))
    else
      var c := jobs[0];
      if !(c < |done| && c < |prev| && c < |f.comps| && 1 <= f.comps[c].b <= 8 && |done[c]| < |prev[c]|) then None
      else
        var g := |done[c]|;
        var top, last := Above(done[c], g), prev[c][g];
        if top != [] && |top| != |last| then None
        else
          MulDivFloor(|last|);
          match DecodeRow(bits, [], top, last, |last| / CHUNK, f.comps[c])
          case None => None
          case Some(p) => DecodeFrame(p.1, jobs[1..], done[c := done[c] + [p.0]], prev, f)
  }

  lemma MulDivFloor(n: nat)
    ensures n / CHUNK * CHUNK <= n
  {
  }

  /** How many rows of each component are done after the jobs. */
  function After(pos: seq<nat>, jobs: seq<nat>): (pos': seq<nat>)
    requires forall i :: 0 <= i < |jobs| ==> jobs[i] < |pos|
    ensures |pos'| == |pos| && forall c :: 0 <= c < |pos| ==> pos[c] <= pos'[c]
    decreases |jobs|
  {
    if jobs == [] then pos else After(pos[jobs[0] := pos[jobs[0]] + 1], jobs[1..])
  }

  /** The jobs are possible if there are enough rows for all of them. */
  lemma {:induction false} EnoughRows(jobs: seq<nat>, pos: seq<nat>, frame: Frame, prev: Frame)
    requires |pos| == |frame| == |prev| && forall i :: 0 <= i < |jobs| ==> jobs[i] < |pos|
    requires forall c :: 0 <= c < |pos| ==> After(pos, jobs)[c] <= |frame[c]| && After(pos, jobs)[c] <= |prev[c]|
    ensures JobsOk(jobs, pos, frame, prev)
    decreases |jobs|
  {
    if jobs != [] {
      var next := pos[jobs[0] := pos[jobs[0]] + 1];
      assert After(pos, jobs) == After(next, jobs[1..]);
      assert next[jobs[0]] <= After(next, jobs[1..])[jobs[0]];
      EnoughRows(jobs[1..], next, frame, prev);
    }
  }

  /** All rows of the frame, truncated. */
  function Truncated(frame: Frame, f: Format): (t: Frame)
    requires |frame| == |f.comps| && forall c :: 0 <= c < |frame| ==> f.comps[c].b <= 8
    ensures |t| == |frame| && forall c :: 0 <= c < |frame| ==> t[c] == TruncRows(frame[c], |frame[c]|, f.comps[c].b)
  {
    seq(|frame|, c requires 0 <= c < |frame| => TruncRows(frame[c], |frame[c]|, f.comps[c].b))
  }

  ghost predicate Placed(pos: seq<nat>, frame: Frame) {
    |pos| == |frame| && forall c :: 0 <= c < |frame| ==> pos[c] <= |frame[c]|
  }

  lemma BitsFit(f: Format)
    requires FormatOk(f)
    ensures |f.comps| == |f.widths| && forall c :: 0 <= c < |f.comps| ==> 1 <= f.comps[c].b <= 8
  {
  }

  lemma AboveTrunc(rows: seq<Row>, g: nat, b: nat)
    requires g < |rows| && b <= 8
    ensures Above(TruncRows(rows, g, b), g) == TruncRow(Above(rows, g), b)
    ensures TruncRows(rows, g, b) + [TruncRow(rows[g], b)] == TruncRows(rows, g + 1, b)
  {
    hide TruncRow;
    if g == 0 {
      NoTrunc(b);
    }
  }

  lemma NoTrunc(b: nat)
    requires b <= 8
    ensures TruncRow([], b) == []
  {
  }

  /** One more row received. */
  lemma ReceivedNext(frame: Frame, pos: seq<nat>, f: Format, c: nat)
    requires FormatOk(f) && |f.comps| == |frame| && Placed(pos, frame) && c < |frame| && pos[c] < |frame[c]|
    ensures |f.comps| == |f.widths| && forall c :: 0 <= c < |f.comps| ==> 1 <= f.comps[c].b <= 8
    ensures Placed(pos[c := pos[c] + 1], frame)
    ensures var done := Received(frame, pos, f);
            done[c := done[c] + [TruncRow(frame[c][pos[c]], f.comps[c].b)]] == Received(frame, pos[c := pos[c] + 1], f)
  {
    BitsFit(f);
    hide FormatOk, TruncRows, TruncRow;
    AboveTrunc(frame[c], pos[c], f.comps[c].b);
  }

  /** One row decoded from truncated rows. */
  lemma JobRoundTrip(row: Row, top: Row, prev: Row, width: nat, c: Component, rest: seq<bool>)
    requires ComponentOk(c) && RowsOk(row, top, prev) && |row| == width && width % CHUNK == 0
    ensures width / CHUNK * CHUNK <= width
    ensures DecodeRow(RowBits(row, top, prev, 0, c) + rest, [], TruncRow(top, c.b), TruncRow(prev, c.b),
                      width / CHUNK, c)
         == Some((TruncRow(row, c.b), rest))
  {
    hide ComponentOk, RowsOk, DecodeRow, RowBits, TruncRow;
    MulDivFloor(width);
    assert row[..0] == [];
    NoTrunc(c.b) by {
      BitsOf(c);
    }
    BitsOf(c);
    SameLengths(row, top, prev);
    RowRoundTrip(row, top, prev, 0, width / CHUNK, c, rest);
  }

  lemma BitsOf(c: Component)
    requires ComponentOk(c)
    ensures 1 <= c.b <= 8
  {
  }

  lemma SameLengths(row: Row, top: Row, prev: Row)
    requires RowsOk(row, top, prev)
    ensures |prev| == |row| && (top == [] || |top| == |row|)
  {
  }

  /** The receiver restores the top bits of every coded row, whatever the order of the components. */
  lemma {:induction false} FrameRoundTrip(jobs: seq<nat>, pos: seq<nat>, frame: Frame, prev: Frame, f: Format,
                                          rest: seq<bool>)
    requires FormatOk(f) && FrameOk(frame, f) && FrameOk(prev, f) && JobsOk(jobs, pos, frame, prev)
    requires Placed(pos, frame)
    requires forall i :: 0 <= i < |jobs| ==> jobs[i] < |pos|
    ensures |f.comps| == |frame| == |prev| && Placed(After(pos, jobs), frame)
    ensures forall c :: 0 <= c < |f.comps| ==> 1 <= f.comps[c].b <= 8
    ensures DecodeFrame(FrameBits(jobs, pos, frame, prev, f) + rest, jobs, Received(frame, pos, f),
                        Truncated(prev, f), f)
         == Some((Received(frame, After(pos, jobs), f), rest))
    decreases |jobs|
  {
    FormatSizes(frame, f);
    FormatSizes(prev, f);
    BitsFit(f);
    hide FormatOk, FrameOk, TruncRow, TruncRows, DecodeRow, RowBits, Placed;
    if jobs == [] {
      assert FrameBits(jobs, pos, frame, prev, f) + rest == rest;
    } else {
      var c, g := jobs[0], pos[jobs[0]];
      var next := pos[c := g + 1];
      var row, top, last := frame[c][g], Above(frame[c], g), prev[c][g];
      RowFits(frame, prev, f, c, g);
      WidthFits(f, c);
      ReceivedNext(frame, pos, f, c);
      FrameRoundTrip(jobs[1..], next, frame, prev, f, rest);
      var more := FrameBits(jobs[1..], next, frame, prev, f);
      JobRoundTrip(row, top, last, f.widths[c], f.comps[c], more + rest);
      Assoc(RowBits(row, top, last, 0, f.comps[c]), more, rest);
      AboveTrunc(frame[c], g, f.comps[c].b);
      SameLengths(row, top, last);
    }
  }

  lemma WidthFits(f: Format, c: nat)
    requires FormatOk(f) && c < |f.comps|
    ensures c < |f.widths| && f.widths[c] % CHUNK == 0
  {
  }

  // ----- Many frames -----

  /** Every component has as many rows as the order of coding visits. */
  ghost predicate Complete(jobs: seq<nat>, frame: Frame) {
    && (forall i :: 0 <= i < |jobs| ==> jobs[i] < |frame|)
    && After(Zeros(|frame|), jobs) == Heights(frame)
  }

  function Zeros(n: nat): (z: seq<nat>)
    ensures |z| == n && forall i :: 0 <= i < n ==> z[i] == 0
  {
    seq(n, i => 0)
  }

  function Heights(frame: Frame): (h: seq<nat>)
    ensures |h| == |frame| && forall c :: 0 <= c < |frame| ==> h[c] == |frame[c]|
  {
    seq(|frame|, c requires 0 <= c < |frame| => |frame[c]|)
  }

  /** The frames of a stream fit the format, have the same heights, and are coded completely. */
  ghost predicate StreamOk(frames: seq<Frame>, prev: Frame, jobs: seq<nat>, f: Format) {
    && FormatOk(f) && FrameOk(prev, f) && Complete(jobs, prev)
    && forall k :: 0 <= k < |frames| ==> FrameOk(frames[k], f) && Heights(frames[k]) == Heights(prev)
  }

  /** What one frame of a stream gives its coder. */
  lemma FrameReady(frame: Frame, prev: Frame, jobs: seq<nat>, f: Format)
    requires FormatOk(f) && FrameOk(prev, f) && Complete(jobs, prev) && FrameOk(frame, f)
    requires Heights(frame) == Heights(prev)
    ensures |frame| == |prev| == |f.comps| && (forall i :: 0 <= i < |jobs| ==> jobs[i] < |frame|)
    ensures JobsOk(jobs, Zeros(|frame|), frame, prev) && Placed(Zeros(|frame|), frame)
    ensures Complete(jobs, frame) && forall c :: 0 <= c < |f.comps| ==> 1 <= f.comps[c].b <= 8
    ensures Received(frame, Zeros(|frame|), f) == Nothing(|frame|)
    ensures After(Zeros(|frame|), jobs) == Heights(frame) && Received(frame, Heights(frame), f) == Truncated(frame, f)
  {
    hide FormatOk, FrameOk, JobsOk, Complete, Received, Truncated, After;
    FormatSizes(frame, f);
    FormatSizes(prev, f);
    BitsFit(f);
    SameComplete(frame, prev, jobs);
    NothingReceived(frame, f);
    AllReceived(frame, f);
    EnoughRows(jobs, Zeros(|frame|), frame, prev);
  }

  /** A frame with the heights of the one before is coded completely by the same jobs. */
  lemma SameComplete(frame: Frame, prev: Frame, jobs: seq<nat>)
    requires |frame| == |prev| && Complete(jobs, prev) && Heights(frame) == Heights(prev)
    ensures Complete(jobs, frame) && (forall i :: 0 <= i < |jobs| ==> jobs[i] < |frame|)
    ensures After(Zeros(|frame|), jobs) == Heights(frame)
    ensures forall c :: 0 <= c < |frame| ==> After(Zeros(|frame|), jobs)[c] == |frame[c]| == |prev[c]|
  {
    hide After;
    forall c | 0 <= c < |frame| ensures |frame[c]| == |prev[c]| {
      assert Heights(frame)[c] == Heights(prev)[c];
    }
  }

  lemma NothingReceived(frame: Frame, f: Format)
    requires |frame| == |f.comps| && forall c :: 0 <= c < |f.comps| ==> 1 <= f.comps[c].b <= 8
    ensures Received(frame, Zeros(|frame|), f) == Nothing(|frame|)
  {
    hide TruncRow;
  }

  lemma AllReceived(frame: Frame, f: Format)
    requires |frame| == |f.comps| && forall c :: 0 <= c < |f.comps| ==> 1 <= f.comps[c].b <= 8
    ensures Received(frame, Heights(frame), f) == Truncated(frame, f)
  {
    hide TruncRow, TruncRows;
  }

  /** A receiver's frame before any row has arrived. */
  function Nothing(n: nat): (t: Frame)
    ensures |t| == n && forall c :: 0 <= c < n ==> t[c] == []
  {
    seq(n, c => [])
  }

  /** The bits of consecutive frames, each coded against the one before. */
  ghost function StreamBits(frames: seq<Frame>, prev: Frame, jobs: seq<nat>, f: Format): (bits: seq<bool>)
    requires StreamOk(frames, prev, jobs, f)
    decreases |frames|
  {
    if frames == [] then []
    else
      FrameReady(frames[0], prev, jobs, f);
      StreamRest(frames, prev, jobs, f);
      hide StreamOk, Complete;
      FrameBits(jobs, Zeros(|frames[0]|), frames[0], prev, f) + StreamBits(frames[1..], frames[0], jobs, f)
  }

  lemma StreamRest(frames: seq<Frame>, prev: Frame, jobs: seq<nat>, f: Format)
    requires StreamOk(frames, prev, jobs, f) && frames != []
    ensures StreamOk(frames[1..], frames[0], jobs, f)
    ensures FormatOk(f) && FrameOk(prev, f) && FrameOk(frames[0], f)
  {
    assert FrameOk(frames[0], f);
    FrameReady(frames[0], prev, jobs, f);
    hide FormatOk, FrameOk, Heights, Complete;
    forall k | 0 <= k < |frames[1..]|
      ensures FrameOk(frames[1..][k], f) && Heights(frames[1..][k]) == Heights(frames[0])
    {
      assert frames[1..][k] == frames[k + 1];
    }
  }

  /** The receiver's frames, each restored with the help of the one before. */
  ghost function DecodeStream(bits: seq<bool>, n: nat, prev: Frame, jobs: seq<nat>, f: Format): (r: Option<seq<Frame>>)
    decreases n
  {
    if n == 0 then Some([])
    else match DecodeFrame(bits, jobs, Nothing(|prev|), prev, f)
      case None => None
      case Some(p) =>
        match DecodeStream(p.1, n - 1, p.0, jobs, f)
        case None => None
        case Some(more) => Some([p.0] + more)
  }

  /** The frames of a stream with all samples truncated. */
  ghost function TruncatedAll(frames: seq<Frame>, prev: Frame, jobs: seq<nat>, f: Format): (t: seq<Frame>)
    requires StreamOk(frames, prev, jobs, f)
    ensures |t| == |frames|
    decreases |frames|
  {
    if frames == [] then []
    else
      FrameReady(frames[0], prev, jobs, f);
      StreamRest(frames, prev, jobs, f);
      hide StreamOk, Complete, FormatOk, FrameOk;
      [Truncated(frames[0], f)] + TruncatedAll(frames[1..], frames[0], jobs, f)
  }

  /**
   Lossless coding round-trips over any sequence of frames: a receiver that holds only truncated samples
   recovers the top bits of every sample of every frame.
   */
  lemma {:induction false} StreamRoundTrip(frames: seq<Frame>, prev: Frame, jobs: seq<nat>, f: Format)
    requires StreamOk(frames, prev, jobs, f)
    ensures |f.comps| == |prev| && forall c :: 0 <= c < |f.comps| ==> 1 <= f.comps[c].b <= 8
    ensures DecodeStream(StreamBits(frames, prev, jobs, f), |frames|, Truncated(prev, f), jobs, f)
         == Some(TruncatedAll(frames, prev, jobs, f))
    decreases |frames|
  {
    FormatSizes(prev, f);
    BitsFit(f);
    if frames != [] {
      var frame, rest := frames[0], frames[1..];
      FrameReady(frame, prev, jobs, f);
      StreamRest(frames, prev, jobs, f);
      hide StreamOk, Complete, FormatOk, FrameOk, DecodeFrame, FrameBits, Truncated, Received, JobsOk, Placed, After;
      StreamRoundTrip(rest, frame, jobs, f);
      FrameRoundTrip(jobs, Zeros(|frame|), frame, prev, f, StreamBits(rest, frame, jobs, f));
    }
  }

  // ----- The order of coding -----

  /** The rows of group after group; within a group, `heights[c]` rows of each component in turn. */
  function GroupJobs(heights: seq<nat>, c: nat): (jobs: seq<nat>)
    requires c <= |heights|
    ensures forall i :: 0 <= i < |jobs| ==> c <= jobs[i] < |heights|
    decreases |heights| - c
  {
    if c == |heights| then [] else Repeat(c, heights[c]) + GroupJobs(heights, c + 1)
  }

  function Repeat(c: nat, n: nat): (jobs: seq<nat>)
    ensures |jobs| == n && forall i :: 0 <= i < n ==> jobs[i] == c
  {
    seq(n, i => c)
  }

  function Order(groups: nat, heights: seq<nat>): (jobs: seq<nat>)
    ensures forall i :: 0 <= i < |jobs| ==> jobs[i] < |heights|
  {
    if groups == 0 then [] else GroupJobs(heights, 0) + Order(groups - 1, heights)
  }

  lemma {:induction false} AfterAppend(pos: seq<nat>, a: seq<nat>, b: seq<nat>)
    requires (forall i :: 0 <= i < |a| ==> a[i] < |pos|) && (forall i :: 0 <= i < |b| ==> b[i] < |pos|)
    ensures After(pos, a + b) == After(After(pos, a), b)
    decreases |a|
  {
    if a == [] {
      assert a + b == b;
    } else {
      assert (a + b)[1..] == a[1..] + b;
      AfterAppend(pos[a[0] := pos[a[0]] + 1], a[1..], b);
    }
  }

  lemma {:induction false} AfterRepeat(pos: seq<nat>, c: nat, n: nat)
    requires c < |pos|
    ensures After(pos, Repeat(c, n)) == pos[c := pos[c] + n]
    decreases n
  {
    if n != 0 {
      assert Repeat(c, n)[1..] == Repeat(c, n - 1);
      AfterRepeat(pos[c := pos[c] + 1], c, n - 1);
    }
  }

  lemma AfterNone(pos: seq<nat>)
    ensures After(pos, []) == pos
  {
  }

  lemma {:induction false} AfterGroup(pos: seq<nat>, heights: seq<nat>, c: nat)
    requires c <= |heights| == |pos|
    ensures forall k :: 0 <= k < |pos| ==>
              After(pos, GroupJobs(heights, c))[k] == pos[k] + (if k >= c then heights[k] else 0)
    decreases |heights| - c
  {
    hide After, Repeat;
    if c == |heights| {
      AfterNone(pos);
    } else {
      var next := pos[c := pos[c] + heights[c]];
      AfterAppend(pos, Repeat(c, heights[c]), GroupJobs(heights, c + 1));
      AfterRepeat(pos, c, heights[c]);
      AfterGroup(next, heights, c + 1);
      assert After(pos, GroupJobs(heights, c)) == After(next, GroupJobs(heights, c + 1));
    }
  }

  /** Coding group after group visits every row: each component has `groups` times its group height. */
  lemma {:induction false} OrderIsComplete(groups: nat, heights: seq<nat>, pos: seq<nat>)
    requires |pos| == |heights|
    ensures forall k :: 0 <= k < |pos| ==> After(pos, Order(groups, heights))[k] == pos[k] + groups * heights[k]
    decreases groups
  {
    hide After, GroupJobs;
    if groups == 0 {
      AfterNone(pos);
    } else {
      var next := After(pos, GroupJobs(heights, 0));
      AfterAppend(pos, GroupJobs(heights, 0), Order(groups - 1, heights));
      AfterGroup(pos, heights, 0);
      OrderIsComplete(groups - 1, heights, next);
      forall k | 0 <= k < |pos| ensures heights[k] + (groups - 1) * heights[k] == groups * heights[k] {
      }
      assert After(pos, Order(groups, heights)) == After(next, Order(groups - 1, heights));
    }
  }
}
