/** The lossless encoder's loops: chunks of a row, rows of a group, and the buffer of the last two groups. */
module LosslessEncoder {
  import opened Bits
  import opened PrefixCode
  import opened Lossless
  import opened LosslessFrames
  import opened LosslessOrder

  lemma {:induction false} PredSymbolsAt(row: Row, top: Row, x: nat, n: nat, b: nat, i: nat)
    requires x + n <= |row| && (top == [] || |top| == |row|) && 1 <= b <= 8 && i < n
    ensures PredSymbols(row, top, x, n, b)[i] == Residual(row[x + i], Predict(row, top, x + i), b)
    decreases n
  {
    hide Residual, Predict;
    if i != 0 {
      PredSymbolsAt(row, top, x + 1, n - 1, b, i - 1);
    }
  }

  lemma {:induction false} DiffSymbolsAt(row: Row, prev: Row, x: nat, n: nat, b: nat, i: nat)
    requires x + n <= |row| && |prev| == |row| && 1 <= b <= 8 && i < n
    ensures DiffSymbols(row, prev, x, n, b)[i] == Residual(row[x + i], prev[x + i], b)
    decreases n
  {
    hide Residual;
    if i != 0 {
      DiffSymbolsAt(row, prev, x + 1, n - 1, b, i - 1);
    }
  }

  lemma {:induction false} EncodeAppend(code: Code, syms: seq<nat>, s: nat)
    requires (forall i :: 0 <= i < |syms| ==> syms[i] in code) && s in code
    ensures Encode(code, syms + [s]) == Encode(code, syms) + code[s]
  {
    if syms == [] {
      assert syms + [s] == [s];
    } else {
      assert (syms + [s])[1..] == syms[1..] + [s];
      EncodeAppend(code, syms[1..], s);
      Assoc(code[syms[0]], Encode(code, syms[1..]), code[s]);
    }
  }

  /** The symbols have code words, of total length `len`. */
  ghost predicate Sized(code: Code, syms: seq<nat>, len: nat) {
    (forall i :: 0 <= i < |syms| ==> syms[i] in code) && len == |Encode(code, syms)|
  }

  lemma EmptyCode(code: Code)
    ensures Encode(code, []) == [] && Sized(code, [], 0)
  {
  }

  lemma TakeNext(s: seq<nat>, i: nat)
    requires i < |s|
    ensures s[..i] + [s[i]] == s[..i + 1]
    ensures i + 1 == |s| ==> s[..i + 1] == s
  {
  }

  /** Appends the code words of symbols to a bit string. */
  method EmitAll(start: seq<bool>, syms: seq<nat>, code: Code) returns (bits: seq<bool>)
    requires forall i :: 0 <= i < |syms| ==> syms[i] in code
    ensures bits == start + Encode(code, syms)
  {
    hide Encode;
    bits := start;
    EmptyCode(code);
    for i := 0 to |syms|
      invariant bits == start + Encode(code, syms[..i])
    {
      EncodeAppend(code, syms[..i], syms[i]);
      TakeNext(syms, i);
      Assoc(start, Encode(code, syms[..i]), code[syms[i]]);
      bits := bits + code[syms[i]];
    }
    assert syms[..|syms|] == syms;
  }

  // ----- The state of the encoder -----

  /** The first row of the half of the buffer that group `i` uses. */
  function GroupStart(i: nat, h: nat): (iy: nat)
    ensures iy == if i % 2 == 0 then 0 else h
  {
    i % 2 * h
  }

  function Half(buf: seq<Row>, h: nat, second: bool): (rows: seq<Row>)
    requires |buf| == 2 * h
    ensures |rows| == h
  {
    if second then buf[h..] else buf[..h]
  }

  /**
   The buffer holds the `h` rows of group `i`, from row `p` of the component on, in its half of the buffer,
   and the row above them at the end of the other half.
   */
  ghost predicate Holds(buf: seq<Row>, rows: seq<Row>, p: nat, i: nat, h: nat) {
    && h > 0 && |buf| == 2 * h && p + h <= |rows| && (i == 0 <==> p == 0)
    && Half(buf, h, i % 2 == 1) == rows[p..p + h]
    && (i > 0 ==> Half(buf, h, i % 2 == 0)[h - 1] == rows[p - 1])
  }

  /** The buffer after loading the rows of group `i` over those of the group before the last. */
  function Loaded(buf: seq<Row>, group: seq<Row>, i: nat, h: nat): (buf': seq<Row>)
    requires |buf| == 2 * h && |group| == h
    ensures |buf'| == 2 * h
  {
    if i % 2 == 0 then group + buf[h..] else buf[..h] + group
  }

  /** What the buffer holds before group `i` is loaded: the group before it, if there is one. */
  ghost predicate Before(buf: seq<Row>, rows: seq<Row>, p: nat, i: nat, h: nat) {
    && h > 0 && |buf| == 2 * h
    && if i == 0 then p == 0 else p >= h && Holds(buf, rows, p - h, i - 1, h)
  }

  /** After loading, the buffer holds the next group, and the row above it is still there. */
  lemma LoadKeeps(buf: seq<Row>, rows: seq<Row>, p: nat, i: nat, h: nat)
    requires Before(buf, rows, p, i, h) && p + h <= |rows|
    ensures Holds(Loaded(buf, rows[p..p + h], i, h), rows, p, i, h)
  {
    var buf' := Loaded(buf, rows[p..p + h], i, h);
    assert Half(buf', h, i % 2 == 1) == rows[p..p + h];
    assert Half(buf', h, i % 2 == 0) == Half(buf, h, i % 2 == 0);
    if i > 0 {
      assert Half(buf, h, i % 2 == 0) == rows[p - h..p];
    }
  }

  lemma AfterGroup(buf: seq<Row>, rows: seq<Row>, p: nat, i: nat, h: nat)
    requires Holds(buf, rows, p, i, h)
    ensures Before(buf, rows, p + h, i + 1, h)
  {
  }

  /** The row the encoder takes as the upper neighbour is the one above in the image. */
  lemma UpperNeighbour(buf: seq<Row>, rows: seq<Row>, p: nat, i: nat, h: nat, y: nat)
    requires Holds(buf, rows, p, i, h) && y < h
    ensures var iy := GroupStart(i, h);
            && iy + y < |buf| && buf[iy + y] == rows[p + y]
            && (y == 0 && i > 0 && i % 2 == 0 ==> iy + y + (2 * h - 1) < |buf|)
            && Above(rows, p + y) ==
               if y > 0 then buf[iy + y - 1]
               else if i == 0 then []
               else if i % 2 == 0 then buf[iy + y + (2 * h - 1)] else buf[iy + y - 1]
  {
    hide GroupStart;
    var half := Half(buf, h, i % 2 == 1);
    assert half[y] == rows[p + y];
    if y > 0 {
      assert half[y - 1] == rows[p + y - 1];
    }
  }

  /** The stored rows with row `g` of component `c` replaced. */
  function Stored(prevs: seq<seq<Row>>, c: nat, g: nat, row: Row): (prevs': seq<seq<Row>>)
    requires c < |prevs| && g < |prevs[c]|
    ensures |prevs'| == |prevs| && |prevs'[c]| == |prevs[c]|
  {
    prevs[c := prevs[c][g := row]]
  }

  lemma StoredTwice(prevs: seq<seq<Row>>, c: nat, g: nat, a: Row, b: Row)
    requires c < |prevs| && g < |prevs[c]|
    ensures Stored(Stored(prevs, c, g, a), c, g, b) == Stored(prevs, c, g, b)
  {
    assert prevs[c][g := a][g := b] == prevs[c][g := b];
  }

  lemma StoredSame(prevs: seq<seq<Row>>, c: nat, g: nat)
    requires c < |prevs| && g < |prevs[c]|
    ensures Stored(prevs, c, g, prevs[c][g]) == prevs
  {
    assert prevs[c][g := prevs[c][g]] == prevs[c];
  }

  /** The rows of this frame up to row `p`, those of the previous frame behind it. */
  function Mixed(rows: seq<Row>, prev: seq<Row>, p: nat): (r: seq<Row>)
    requires p <= |rows| == |prev|
    ensures |r| == |rows|
  {
    rows[..p] + prev[p..]
  }

  lemma MixedNext(rows: seq<Row>, prev: seq<Row>, p: nat)
    requires p < |rows| == |prev|
    ensures Mixed(rows, prev, p)[p] == prev[p]
    ensures Mixed(rows, prev, p)[p := rows[p]] == Mixed(rows, prev, p + 1)
  {
  }

  /** A row in progress: samples before `x` are those of this frame. */
  function Partly(row: Row, prev: Row, x: nat): (r: Row)
    requires x <= |row| == |prev|
    ensures |r| == |row|
  {
    row[..x] + prev[x..]
  }

  lemma PartlyNext(row: Row, prev: Row, x: nat)
    requires x < |row| == |prev|
    ensures Partly(row, prev, x)[x] == prev[x] && Partly(row, prev, x)[x := row[x]] == Partly(row, prev, x + 1)
  {
  }

  lemma PartlyEnds(row: Row, prev: Row)
    requires |row| == |prev|
    ensures Partly(row, prev, 0) == prev && Partly(row, prev, |row|) == row
  {
  }

  /** One step inside a group: the row with its neighbour, and what it leaves stored. */
  ghost predicate RowReady(prevs: seq<seq<Row>>, c: nat, g: nat, row: Row, prev: Row, x: nat) {
    c < |prevs| && g < |prevs[c]| && x <= |row| == |prev| && prevs[c][g] == Partly(row, prev, x)
  }

  // ----- Progress of a chunk and of a row -----

  /** A chunk to be coded: where its row is stored, the row and its neighbours, and its first position. */
  datatype Task = Task(start: seq<seq<Row>>, c: nat, g: nat, row: Row, top: Row, prev: Row, x: nat, comp: Component)

  /** Both codings so far, with their lengths. */
  datatype Coding = Coding(pred: seq<nat>, diff: seq<nat>, predLen: nat, diffLen: nat)

  ghost predicate TaskOk(k: Task) {
    && ComponentOk(k.comp) && RowsOk(k.row, k.top, k.prev) && k.x + CHUNK <= |k.row|
    && RowReady(k.start, k.c, k.g, k.row, k.prev, k.x)
  }

  /** What a task needs of its sizes. */
  ghost predicate TaskSizes(k: Task) {
    && 1 <= k.comp.b <= 8 && |k.prev| == |k.row| && k.x + CHUNK <= |k.row| && (k.top == [] || |k.top| == |k.row|)
    && k.c < |k.start| && k.g < |k.start[k.c]|
  }

  lemma TaskFits(k: Task)
    requires TaskOk(k)
    ensures TaskSizes(k)
  {
    BitsOf(k.comp);
    hide ComponentOk, RowOk;
  }

  function Preds(k: Task): (syms: seq<nat>)
    requires TaskSizes(k)
    ensures |syms| == CHUNK
  {
    PredSymbols(k.row, k.top, k.x, CHUNK, k.comp.b)
  }

  function Diffs(k: Task): (syms: seq<nat>)
    requires TaskSizes(k)
    ensures |syms| == CHUNK
  {
    DiffSymbols(k.row, k.prev, k.x, CHUNK, k.comp.b)
  }

  /** The stored rows when `ip` samples of the chunk are coded. */
  function StoredAfter(k: Task, ip: nat): (prevs: seq<seq<Row>>)
    requires TaskSizes(k) && ip <= CHUNK
  {
    Stored(k.start, k.c, k.g, Partly(k.row, k.prev, k.x + ip))
  }

  /** `ip` samples of the chunk are coded: the symbols and their lengths both ways. */
  ghost predicate CodingOk(k: Task, ip: nat, z: Coding)
    requires TaskSizes(k)
  {
    && ip <= CHUNK && z.pred == Preds(k)[..ip] && z.diff == Diffs(k)[..ip]
    && Sized(k.comp.code, z.pred, z.predLen) && Sized(k.comp.code, z.diff, z.diffLen)
  }

  lemma ChunkBegins(k: Task)
    requires TaskOk(k)
    ensures TaskSizes(k) && StoredAfter(k, 0) == k.start && CodingOk(k, 0, Coding([], [], 0, 0))
  {
    TaskFits(k);
    EmptyCode(k.comp.code);
    ReadySame(k.start, k.c, k.g, k.row, k.prev, k.x);
    hide ComponentOk, RowsOk, Preds, Diffs, Sized, Stored, Partly;
  }

  lemma ChunkIsReady(k: Task, ip: nat)
    requires TaskSizes(k) && ip < CHUNK
    ensures RowReady(StoredAfter(k, ip), k.c, k.g, k.row, k.prev, k.x + ip)
  {
    hide Stored, Partly, RowReady;
    ReadyAgain(k.start, k.c, k.g, k.row, k.prev, k.x + ip);
  }

  lemma AfterNext(k: Task, ip: nat)
    requires TaskSizes(k) && ip < CHUNK
    ensures k.c < |StoredAfter(k, ip)| && k.g < |StoredAfter(k, ip)[k.c]|
    ensures Stored(StoredAfter(k, ip), k.c, k.g, Partly(k.row, k.prev, k.x + ip + 1)) == StoredAfter(k, ip + 1)
  {
    hide Partly;
    StoredTwice(k.start, k.c, k.g, Partly(k.row, k.prev, k.x + ip), Partly(k.row, k.prev, k.x + ip + 1));
  }

  lemma SizedMore(code: Code, all: seq<nat>, ip: nat, len: nat)
    requires ip < |all| && Sized(code, all[..ip], len) && all[ip] in code
    ensures Sized(code, all[..ip + 1], len + |code[all[ip]]|) && all[..ip] + [all[ip]] == all[..ip + 1]
  {
    hide Encode;
    TakeNext(all, ip);
    EncodeAppend(code, all[..ip], all[ip]);
  }

  /** The next symbols of both codings. */
  lemma NextSymbols(k: Task, ip: nat)
    requires TaskOk(k) && TaskSizes(k) && ip < CHUNK
    ensures Preds(k)[ip] == Residual(k.row[k.x + ip], Predict(k.row, k.top, k.x + ip), k.comp.b)
    ensures Diffs(k)[ip] == Residual(k.row[k.x + ip], k.prev[k.x + ip], k.comp.b)
    ensures Preds(k)[ip] in k.comp.code && Diffs(k)[ip] in k.comp.code
  {
    hide PredSymbols, DiffSymbols, Residual, Predict, ComponentOk, RowsOk, RowReady;
    SymbolsIn(k.row, k.top, k.prev, k.x, k.comp);
    PredSymbolsAt(k.row, k.top, k.x, CHUNK, k.comp.b, ip);
    DiffSymbolsAt(k.row, k.prev, k.x, CHUNK, k.comp.b, ip);
  }

  /** A sample coded both ways. */
  function Extend(k: Task, z: Coding, p: nat, d: nat): (z': Coding)
    requires p in k.comp.code && d in k.comp.code
  {
    Coding(z.pred + [p], z.diff + [d], z.predLen + |k.comp.code[p]|, z.diffLen + |k.comp.code[d]|)
  }

  lemma ChunkAdvances(k: Task, ip: nat, z: Coding, p: nat, d: nat)
    requires TaskOk(k) && TaskSizes(k) && ip < CHUNK && CodingOk(k, ip, z)
    requires p == Residual(k.row[k.x + ip], Predict(k.row, k.top, k.x + ip), k.comp.b)
    requires d == Residual(k.row[k.x + ip], k.prev[k.x + ip], k.comp.b)
    ensures p in k.comp.code && d in k.comp.code && CodingOk(k, ip + 1, Extend(k, z, p, d))
  {
    hide Preds, Diffs, Sized, TaskOk, Residual, Predict;
    NextSymbols(k, ip);
    SizedMore(k.comp.code, Preds(k), ip, z.predLen);
    SizedMore(k.comp.code, Diffs(k), ip, z.diffLen);
  }

  lemma ChunkEnds(k: Task, z: Coding)
    requires TaskSizes(k) && CodingOk(k, CHUNK, z)
    ensures z.pred == Preds(k) && z.diff == Diffs(k)
    ensures Sized(k.comp.code, z.pred, z.predLen) && Sized(k.comp.code, z.diff, z.diffLen)
  {
    hide Preds, Diffs, Sized;
    assert Preds(k)[..CHUNK] == Preds(k) && Diffs(k)[..CHUNK] == Diffs(k);
  }

  /** The shorter coding is what the chunk's bits are. */
  lemma ChunkBitsAre(k: Task, z: Coding)
    requires TaskOk(k) && TaskSizes(k) && CodingOk(k, CHUNK, z)
    ensures (forall i :: 0 <= i < |z.pred| ==> z.pred[i] in k.comp.code)
    ensures (forall i :: 0 <= i < |z.diff| ==> z.diff[i] in k.comp.code)
    ensures ChunkBits(k.row, k.top, k.prev, k.x, k.comp)
         == if z.diffLen < z.predLen then [true] + Encode(k.comp.code, z.diff)
            else [false] + Encode(k.comp.code, z.pred)
  {
    ChunkEnds(k, z);
    hide PredSymbols, DiffSymbols, ComponentOk, RowsOk, Encode;
  }

  /** The row is coded and stored up to position `x`. */
  ghost predicate RowInv(start: seq<seq<Row>>, now: seq<seq<Row>>, c: nat, g: nat, row: Row, top: Row, prev: Row,
                         x: nat, comp: Component, bits: seq<bool>)
  {
    && ComponentOk(comp) && RowsOk(row, top, prev) && x <= |row| && x % CHUNK == 0
    && c < |start| && g < |start[c]| && now == Stored(start, c, g, Partly(row, prev, x))
    && bits + RowBits(row, top, prev, x, comp) == RowBits(row, top, prev, 0, comp)
  }

  lemma RowBegins(start: seq<seq<Row>>, c: nat, g: nat, row: Row, top: Row, comp: Component)
    requires c < |start| && g < |start[c]| && ComponentOk(comp) && RowsOk(row, top, start[c][g])
    ensures RowInv(start, start, c, g, row, top, start[c][g], 0, comp, [])
  {
    var prev := start[c][g];
    hide RowBits, ComponentOk, RowOk;
    PartlyEnds(row, prev);
    StoredSame(start, c, g);
    NoBitsYet(RowBits(row, top, prev, 0, comp));
  }

  lemma RowIsReady(start: seq<seq<Row>>, now: seq<seq<Row>>, c: nat, g: nat, row: Row, top: Row, prev: Row, x: nat,
                   comp: Component, bits: seq<bool>)
    requires RowInv(start, now, c, g, row, top, prev, x, comp, bits)
    ensures ComponentOk(comp) && RowsOk(row, top, prev) && |prev| == |row| && RowReady(now, c, g, row, prev, x)
  {
    hide RowBits, ComponentOk, RowOk, Partly;
    ReadyAgain(start, c, g, row, prev, x);
  }

  lemma RowAdvances(start: seq<seq<Row>>, now: seq<seq<Row>>, c: nat, g: nat, row: Row, top: Row, prev: Row, x: nat,
                    comp: Component, bits: seq<bool>, chunk: seq<bool>)
    requires RowInv(start, now, c, g, row, top, prev, x, comp, bits) && x + CHUNK <= |row| == |prev|
    requires ComponentOk(comp) && RowsOk(row, top, prev) && chunk == ChunkBits(row, top, prev, x, comp)
    requires RowReady(now, c, g, row, prev, x)
    ensures RowInv(start, Stored(now, c, g, Partly(row, prev, x + CHUNK)), c, g, row, top, prev, x + CHUNK, comp,
                   bits + chunk)
  {
    hide ChunkBits, ComponentOk, RowsOk, Partly, Stored;
    StoredTwice(start, c, g, Partly(row, prev, x), Partly(row, prev, x + CHUNK));
    Assoc(bits, chunk, RowBits(row, top, prev, x + CHUNK, comp));
  }

  lemma RowEnds(start: seq<seq<Row>>, now: seq<seq<Row>>, c: nat, g: nat, row: Row, top: Row, prev: Row, x: nat,
                comp: Component, bits: seq<bool>)
    requires RowInv(start, now, c, g, row, top, prev, x, comp, bits) && x + CHUNK > |row|
    ensures ComponentOk(comp) && RowsOk(row, top, prev) && c < |start| && g < |start[c]|
    ensures bits == RowBits(row, top, prev, 0, comp) && now == Stored(start, c, g, row)
  {
    WholeRow(row, top, prev, x, comp);
    PartlyEnds(row, prev);
    NoBitsYet(bits);
    hide ComponentOk, RowsOk, Partly, Stored, RowBits;
  }

  lemma WholeRow(row: Row, top: Row, prev: Row, x: nat, comp: Component)
    requires ComponentOk(comp) && RowsOk(row, top, prev) && x <= |row| < x + CHUNK && x % CHUNK == 0
    ensures x == |row| == |prev| && RowBits(row, top, prev, x, comp) == []
  {
    hide ComponentOk, RowOk;
  }

  /**
   The encoder keeps, for each component, a buffer of two groups of rows and the rows stored for the next
   frame.
   */
  class Encoder {
    var bufs: seq<seq<Row>>
    var prevs: seq<seq<Row>>

    constructor (bufs: seq<seq<Row>>, prevs: seq<seq<Row>>)
      ensures this.bufs == bufs && this.prevs == prevs
    {
      this.bufs, this.prevs := bufs, prevs;
    }

    /** Codes a sample both ways and stores it for the next frame. */
    method CodeSample(c: nat, g: nat, row: Row, top: Row, ghost prev: Row, x: nat, b: nat) returns (p: nat, d: nat)
      requires 1 <= b <= 8 && x < |row| && (top == [] || |top| == |row|) && RowReady(prevs, c, g, row, prev, x)
      modifies this`prevs
      ensures p == Residual(row[x], Predict(row, top, x), b) && d == Residual(row[x], prev[x], b)
      ensures prevs == Stored(old(prevs), c, g, Partly(row, prev, x + 1))
    {
      hide Residual, Predict, Partly;
      p := Residual(row[x], Predict(row, top, x), b);
      PartlyNext(row, prev, x);
      d := Residual(row[x], prevs[c][g][x], b);
      prevs := prevs[c := prevs[c][g := prevs[c][g][x := row[x]]]];
    }

    /** Codes a chunk both ways, with the lengths of both codings. */
    method CodeChunk(k: Task) returns (z: Coding)
      requires TaskOk(k) && k.start == prevs
      modifies this`prevs
      ensures TaskSizes(k) && CodingOk(k, CHUNK, z) && prevs == StoredAfter(k, CHUNK)
    {
      hide TaskOk, CodingOk, StoredAfter, Residual, Predict, RowReady, Stored, Partly;
      ChunkBegins(k);
      z := Coding([], [], 0, 0);
      for ip := 0 to CHUNK
        invariant CodingOk(k, ip, z) && prevs == StoredAfter(k, ip)
      {
        ChunkIsReady(k, ip);
        AfterNext(k, ip);
        var p, d := CodeSample(k.c, k.g, k.row, k.top, k.prev, k.x + ip, k.comp.b);
        ChunkAdvances(k, ip, z, p, d);
        z := Extend(k, z, p, d);
      }
    }

    /** Emits the shorter coding of a chunk, and keeps the stored row up to date. */
    method EncodeChunk(k: Task) returns (bits: seq<bool>)
      requires TaskOk(k) && k.start == prevs
      modifies this`prevs
      ensures TaskSizes(k) && prevs == StoredAfter(k, CHUNK)
      ensures bits == ChunkBits(k.row, k.top, k.prev, k.x, k.comp)
    {
      hide CodingOk, StoredAfter, Encode, ChunkBits;
      var z := CodeChunk(k);
      ChunkBitsAre(k, z);
      if z.diffLen < z.predLen {
        bits := EmitAll([true], z.diff, k.comp.code);
      } else {
        bits := EmitAll([false], z.pred, k.comp.code);
      }
    }

    /** Codes a row; afterwards the stored row is the row just coded. */
    method EncodeRow(c: nat, g: nat, row: Row, top: Row, comp: Component) returns (bits: seq<bool>)
      requires c < |prevs| && g < |prevs[c]| && ComponentOk(comp) && RowsOk(row, top, prevs[c][g])
      modifies this`prevs
      ensures bits == RowBits(row, top, old(prevs[c][g]), 0, comp) && prevs == Stored(old(prevs), c, g, row)
    {
      ghost var start := prevs;
      var prev := prevs[c][g];
      RowBegins(start, c, g, row, top, comp);
      hide ComponentOk, RowsOk, RowInv, RowReady, Stored, RowBits, ChunkBits;
      var x := 0;
      bits := [];
      while x + CHUNK <= |row|
        invariant 0 <= x <= |row| && x % CHUNK == 0 && RowInv(start, prevs, c, g, row, top, prev, x, comp, bits)
      {
        RowIsReady(start, prevs, c, g, row, top, prev, x, comp, bits);
        ghost var now := prevs;
        var chunk := EncodeChunk(Task(prevs, c, g, row, top, prev, x, comp));
        RowAdvances(start, now, c, g, row, top, prev, x, comp, bits, chunk);
        bits := bits + chunk;
        x := x + CHUNK;
      }
      RowEnds(start, prevs, c, g, row, top, prev, x, comp, bits);
    }

    /** Loads the next group of a component into its half of the buffer, over the group before the last. */
    method LoadGroup(c: nat, group: seq<Row>, i: nat, h: nat)
      requires c < |bufs| && |bufs[c]| == 2 * h && |group| == h
      modifies this`bufs
      ensures bufs == old(bufs)[c := Loaded(old(bufs)[c], group, i, h)]
    {
      hide GroupStart;
      ghost var buf := bufs[c];
      var iy := GroupStart(i, h);
      for r := 0 to h
        invariant |bufs| == |old(bufs)| && bufs == old(bufs)[c := bufs[c]]
        invariant bufs[c] == buf[..iy] + group[..r] + buf[iy + r..]
      {
        LoadRow(buf, group, iy, r);
        bufs := bufs[c := bufs[c][iy + r := group[r]]];
      }
      LoadDone(buf, group, i, h);
    }

    /** The row above row `y` of group `i`: in the same half of the buffer, or at the end of the other one. */
    method TopRow(c: nat, i: nat, h: nat, y: nat, ghost rows: seq<Row>, ghost p: nat) returns (top: Row)
      requires c < |bufs| && Holds(bufs[c], rows, p, i, h) && y < h
      ensures p + y < |rows| && top == Above(rows, p + y)
      ensures GroupStart(i, h) + y < |bufs[c]| && bufs[c][GroupStart(i, h) + y] == rows[p + y]
    {
      hide GroupStart, Above, Holds;
      BufferSize(bufs[c], rows, p, i, h);
      UpperNeighbour(bufs[c], rows, p, i, h, y);
      var iy := GroupStart(i, h);
      top := [];
      if y > 0 {
        top := bufs[c][iy + y - 1];
      } else if i > 0 {
        if i % 2 == 0 {
          top := bufs[c][iy + y + (2 * h - 1)];
        } else {
          top := bufs[c][iy + y - 1];
        }
      }
    }

    /**
     Codes the rows of group `i` of component `c` from the buffer, taking the row above from the same half or
     from the end of the other one; afterwards the stored rows are those of this frame.
     */
    method EncodeGroup(c: nat, i: nat, h: nat, p: nat, comp: Component,
                       ghost frame: Frame, ghost prev: Frame, ghost f: Format) returns (bits: seq<bool>)
      requires FormatOk(f) && FrameOk(frame, f) && FrameOk(prev, f) && c < |frame| == |prev| == |f.comps|
      requires p + h <= |frame[c]| == |prev[c]| && comp == f.comps[c]
      requires c < |bufs| && Holds(bufs[c], frame[c], p, i, h)
      requires c < |prevs| && prevs[c] == Mixed(frame[c], prev[c], p)
      modifies this`prevs
      ensures bits == RowsBits(frame, prev, f, c, p, h)
      ensures prevs == old(prevs)[c := Mixed(frame[c], prev[c], p + h)]
    {
      hide ComponentOk, RowBits, RowsOk, FormatOk, FrameOk, GroupStart, Holds, Above, Mixed;
      ghost var start := prevs;
      BufferSize(bufs[c], frame[c], p, i, h);
      var iy := GroupStart(i, h);
      bits := [];
      NoBitsYet(RowsBits(frame, prev, f, c, p, h));
      for y := 0 to h
        invariant bits + RowsBits(frame, prev, f, c, p + y, h - y) == RowsBits(frame, prev, f, c, p, h)
        invariant |prevs| == |start| && prevs == start[c := Mixed(frame[c], prev[c], p + y)]
      {
        var top := TopRow(c, i, h, y, frame[c], p);
        RowFits(frame, prev, f, c, p + y);
        MixedNext(frame[c], prev[c], p + y);
        var more := EncodeRow(c, p + y, bufs[c][iy + y], top, comp);
        StoredMixed(start, c, p + y, frame[c], prev[c]);
        Assoc(bits, more, RowsBits(frame, prev, f, c, p + y + 1, h - y - 1));
        bits := bits + more;
      }
      NoBitsYet(bits);
    }

    /** Loads group `i` of every component. */
    method LoadGroups(i: nat, heights: seq<nat>, frame: Frame, ghost q: Pass)
      requires heights == q.heights && frame == q.frame && i < q.groups && LoadedTo(bufs, q, i, 0)
      modifies this`bufs
      ensures LoadedTo(bufs, q, i, |heights|)
    {
      hide LoadedTo, Loaded;
      for c := 0 to |heights|
        invariant LoadedTo(bufs, q, i, c)
      {
        LoadAdvances(bufs, q, i, c);
        SizesAgree(bufs, q, i, c);
        var h := heights[c];
        LoadGroup(c, frame[c][i * h..i * h + h], i, h);
      }
    }

    /** Codes group `i` of every component. */
    method EncodeGroups(i: nat, heights: seq<nat>, comps: seq<Component>, ghost q: Pass) returns (bits: seq<bool>)
      requires heights == q.heights && comps == q.f.comps && PassOk(q) && i < q.groups
      requires LoadedTo(bufs, q, i, |heights|) && StoredTo(prevs, q, RowsDone(heights, i, 0)) && WorkOk(WorkAt(q, i, 0))
      modifies this`prevs
      ensures StoredTo(prevs, q, RowsDone(heights, i + 1, 0)) && WorkOk(WorkAt(q, i + 1, 0))
      ensures bits + WorkBits(WorkAt(q, i + 1, 0)) == WorkBits(WorkAt(q, i, 0))
    {
      hide LoadedTo, StoredTo, WorkOk, WorkAt, WorkBits, RowsBits, RowsDone, Holds, Mixed, FormatOk, FrameOk;
      bits := [];
      NoBitsYet(WorkBits(WorkAt(q, i, 0)));
      for c := 0 to |heights|
        invariant StoredTo(prevs, q, RowsDone(heights, i, c)) && WorkOk(WorkAt(q, i, c))
        invariant bits + WorkBits(WorkAt(q, i, c)) == WorkBits(WorkAt(q, i, 0))
      {
        WorkAdvances(q, i, c);
        StoreAdvances(prevs, q, i, c);
        IsLoaded(bufs, q, i, c);
        SizesStored(prevs, q, i, c);
        var more := EncodeGroup(c, i, heights[c], i * heights[c], comps[c], q.frame, q.prev, q.f);
        Assoc(bits, more, WorkBits(WorkAt(q, i, c + 1)));
        bits := bits + more;
      }
      RowsDoneTurn(heights, i);
      WorkTurn(q, i);
    }

    /**
     Codes a frame group by group: the bits are those of its rows in the order of the groups, each with the row
     above it in the image, and afterwards the stored frame is the frame just coded.
     */
    method EncodeFrame(groups: nat, heights: seq<nat>, frame: Frame, comps: seq<Component>, ghost f: Format)
      returns (bits: seq<bool>)
      requires FormatOk(f) && comps == f.comps && FrameOk(frame, f) && FrameOk(prevs, f)
      requires PassSizes(Pass(groups, heights, frame, prevs, f)) && BufferSizes(bufs, heights)
      modifies this
      ensures |frame| == |heights| && JobsOk(Order(groups, heights), Zeros(|frame|), frame, old(prevs))
      ensures bits == FrameBits(Order(groups, heights), Zeros(|frame|), frame, old(prevs), f)
      ensures prevs == frame && BufferSizes(bufs, heights)
    {
      ghost var q := Pass(groups, heights, frame, prevs, f);
      bits := [];
      FrameBegins(bufs, prevs, q);
      FrameWork(q);
      hide PassSizes, FrameInv, FormatOk, FrameOk, BufferSizes, Order, JobsOk, FrameBits, Zeros, WorkAt, WorkBits,
           WorkOk;
      for i := 0 to groups
        invariant FrameInv(bufs, prevs, q, i, bits)
      {
        FrameInvParts(bufs, prevs, q, i, bits);
        LoadGroups(i, heights, frame, q);
        var more := EncodeGroups(i, heights, comps, q);
        FrameAdvances(bufs, prevs, q, i, bits, more);
        bits := bits + more;
      }
      FrameEnds(bufs, prevs, q, bits);
    }

    /** Codes frame after frame, each against the one before. */
    method EncodeStream(groups: nat, heights: seq<nat>, frames: seq<Frame>, comps: seq<Component>, ghost f: Format)
      returns (bits: seq<bool>)
      requires comps == f.comps && InGroups(groups, heights, prevs) && BufferSizes(bufs, heights)
      requires FormatOk(f) && FrameOk(prevs, f)
      requires forall k :: 0 <= k < |frames| ==> FrameOk(frames[k], f) && Heights(frames[k]) == Heights(prevs)
      modifies this
      ensures StreamOk(frames, old(prevs), Order(groups, heights), f)
      ensures bits == StreamBits(frames, old(prevs), Order(groups, heights), f)
      ensures DecodeStream(bits, |frames|, Truncated(old(prevs), f), Order(groups, heights), f)
           == Some(TruncatedAll(frames, old(prevs), Order(groups, heights), f))
    {
      ghost var jobs, first := Order(groups, heights), prevs;
      bits := [];
      GroupsComplete(groups, heights, prevs);
      assert frames[0..] == frames;
      NoBitsYet(StreamBits(frames, first, jobs, f));
      for k := 0 to |frames|
        invariant InGroups(groups, heights, prevs) && BufferSizes(bufs, heights)
        invariant StreamOk(frames[k..], prevs, jobs, f)
        invariant bits + StreamBits(frames[k..], prevs, jobs, f) == StreamBits(frames, first, jobs, f)
      {
        StreamStep(frames, k, prevs, groups, heights, f);
        ghost var now := prevs;
        var more := EncodeFrame(groups, heights, frames[k], comps, f);
        Assoc(bits, more, StreamBits(frames[k + 1..], prevs, jobs, f));
        bits := bits + more;
      }
      assert frames[|frames|..] == [];
      NoBitsYet(bits);
      StreamRoundTrip(frames, first, jobs, f);
    }
  }

  // ----- Progress of a frame -----

  /** The groups of the first `c` components are loaded. */
  ghost predicate LoadedTo(bufs: seq<seq<Row>>, q: Pass, i: nat, c: nat) {
    && PassSizes(q) && |bufs| == |q.heights|
    && forall k :: 0 <= k < |bufs| ==>
         var p := i * q.heights[k];
         if k < c then Holds(bufs[k], q.frame[k], p, i, q.heights[k])
         else Before(bufs[k], q.frame[k], p, i, q.heights[k])
  }

  /** The stored rows are those of this frame as far as they are coded. */
  ghost predicate StoredTo(prevs: seq<seq<Row>>, q: Pass, pos: seq<nat>) {
    && PassSizes(q) && |prevs| == |q.heights| == |pos|
    && forall k :: 0 <= k < |prevs| ==> pos[k] <= |q.frame[k]| && prevs[k] == Mixed(q.frame[k], q.prev[k], pos[k])
  }

  /** Buffers of the right size for the groups of a frame. */
  ghost predicate BufferSizes(bufs: seq<seq<Row>>, heights: seq<nat>) {
    |bufs| == |heights| && forall k :: 0 <= k < |bufs| ==> |bufs[k]| == 2 * heights[k]
  }

  lemma LoadedKeepsSizes(bufs: seq<seq<Row>>, q: Pass, i: nat, c: nat)
    requires LoadedTo(bufs, q, i, c)
    ensures BufferSizes(bufs, q.heights)
  {
    hide Half;
  }

  lemma LoadsBegin(bufs: seq<seq<Row>>, q: Pass)
    requires PassSizes(q) && BufferSizes(bufs, q.heights)
    ensures LoadedTo(bufs, q, 0, 0)
  {
    hide Half;
  }

  lemma LoadAdvances(bufs: seq<seq<Row>>, q: Pass, i: nat, c: nat)
    requires LoadedTo(bufs, q, i, c) && i < q.groups && c < |q.heights|
    ensures var h := q.heights[c];
            && i * h + h <= |q.frame[c]| && |bufs[c]| == 2 * h
            && LoadedTo(bufs[c := Loaded(bufs[c], q.frame[c][i * h..i * h + h], i, h)], q, i, c + 1)
  {
    var h := q.heights[c];
    GroupFits(i, q.groups, h);
    LoadedKeepsSizes(bufs, q, i, c);
    hide Holds, Before, Loaded;
    LoadKeeps(bufs[c], q.frame[c], i * h, i, h);
  }

  lemma GroupFits(i: nat, groups: nat, h: nat)
    requires i < groups
    ensures i * h + h == (i + 1) * h <= groups * h
  {
    MulMonotone(i + 1, groups, h);
  }

  lemma {:induction false} MulMonotone(a: nat, b: nat, h: nat)
    requires a <= b
    ensures a * h <= b * h
  {
  }

  lemma NextLoads(bufs: seq<seq<Row>>, q: Pass, i: nat)
    requires LoadedTo(bufs, q, i, |q.heights|)
    ensures LoadedTo(bufs, q, i + 1, 0)
  {
    hide Holds, Before;
    forall k | 0 <= k < |bufs| ensures Before(bufs[k], q.frame[k], (i + 1) * q.heights[k], i + 1, q.heights[k]) {
      NextGroup(i, q.heights[k]);
      AfterGroup(bufs[k], q.frame[k], i * q.heights[k], i, q.heights[k]);
    }
  }

  lemma StoreBegins(prevs: seq<seq<Row>>, q: Pass)
    requires PassSizes(q) && prevs == q.prev
    ensures StoredTo(prevs, q, RowsDone(q.heights, 0, 0))
  {
    forall k | 0 <= k < |prevs| ensures prevs[k] == Mixed(q.frame[k], q.prev[k], 0) {
      assert q.frame[k][..0] + q.prev[k][0..] == q.prev[k];
    }
  }

  lemma StoreEnds(prevs: seq<seq<Row>>, q: Pass)
    requires StoredTo(prevs, q, RowsDone(q.heights, q.groups, 0))
    ensures prevs == q.frame
  {
    forall k | 0 <= k < |prevs| ensures prevs[k] == q.frame[k] {
      assert q.frame[k][..|q.frame[k]|] + q.prev[k][|q.frame[k]|..] == q.frame[k];
    }
  }

  lemma StoreAdvances(prevs: seq<seq<Row>>, q: Pass, i: nat, c: nat)
    requires StoredTo(prevs, q, RowsDone(q.heights, i, c)) && i < q.groups && c < |q.heights|
    ensures var h := q.heights[c];
            && i * h + h <= |q.frame[c]| == |q.prev[c]| && prevs[c] == Mixed(q.frame[c], q.prev[c], i * h)
            && StoredTo(prevs[c := Mixed(q.frame[c], q.prev[c], i * h + h)], q, RowsDone(q.heights, i, c + 1))
  {
    GroupFits(i, q.groups, q.heights[c]);
    RowsDoneNext(q.heights, i, c);
    hide Mixed, RowsDone;
  }

  lemma SizesAgree(bufs: seq<seq<Row>>, q: Pass, i: nat, c: nat)
    requires LoadedTo(bufs, q, i, c) && c < |q.heights|
    ensures |bufs| == |q.heights| == |q.frame| && |bufs[c]| == 2 * q.heights[c]
  {
    LoadedKeepsSizes(bufs, q, i, c);
  }

  lemma IsLoaded(bufs: seq<seq<Row>>, q: Pass, i: nat, c: nat)
    requires LoadedTo(bufs, q, i, |q.heights|) && c < |q.heights|
    ensures c < |bufs| && c < |q.frame| && Holds(bufs[c], q.frame[c], i * q.heights[c], i, q.heights[c])
  {
    hide Holds, Before;
  }

  lemma SizesStored(prevs: seq<seq<Row>>, q: Pass, i: nat, c: nat)
    requires StoredTo(prevs, q, RowsDone(q.heights, i, c)) && c < |q.heights|
    ensures |prevs| == |q.heights| == |q.frame| == |q.prev| == |q.f.comps|
  {
  }

  /** All the work of a frame is its bits in the order of the groups. */
  lemma FrameWork(q: Pass)
    requires PassOk(q)
    ensures |q.heights| == |q.frame| == |q.prev|
    ensures JobsOk(Order(q.groups, q.heights), Zeros(|q.frame|), q.frame, q.prev)
    ensures WorkOk(WorkAt(q, 0, 0))
    ensures WorkBits(WorkAt(q, 0, 0)) == FrameBits(Order(q.groups, q.heights), Zeros(|q.frame|), q.frame, q.prev, q.f)
  {
    WorkBegins(q);
    hide FormatOk, FrameOk, JobsOk, Placed, WorkAt, Order, Zeros;
  }

  /** The first `i` groups of a frame are coded. */
  ghost predicate FrameInv(bufs: seq<seq<Row>>, prevs: seq<seq<Row>>, q: Pass, i: nat, bits: seq<bool>) {
    && PassOk(q) && i <= q.groups && LoadedTo(bufs, q, i, 0) && StoredTo(prevs, q, RowsDone(q.heights, i, 0))
    && WorkOk(WorkAt(q, 0, 0)) && WorkOk(WorkAt(q, i, 0))
    && bits + WorkBits(WorkAt(q, i, 0)) == WorkBits(WorkAt(q, 0, 0))
  }

  lemma FrameBegins(bufs: seq<seq<Row>>, prevs: seq<seq<Row>>, q: Pass)
    requires PassOk(q) && BufferSizes(bufs, q.heights) && prevs == q.prev
    ensures FrameInv(bufs, prevs, q, 0, [])
  {
    LoadsBegin(bufs, q);
    StoreBegins(prevs, q);
    WorkBegins(q);
    hide PassOk, LoadedTo, StoredTo, WorkOk, WorkAt, WorkBits, RowsDone, BufferSizes;
    NoBitsYet(WorkBits(WorkAt(q, 0, 0)));
  }

  lemma FrameInvParts(bufs: seq<seq<Row>>, prevs: seq<seq<Row>>, q: Pass, i: nat, bits: seq<bool>)
    requires FrameInv(bufs, prevs, q, i, bits)
    ensures PassOk(q) && i <= q.groups && LoadedTo(bufs, q, i, 0) && StoredTo(prevs, q, RowsDone(q.heights, i, 0))
    ensures WorkOk(WorkAt(q, 0, 0)) && WorkOk(WorkAt(q, i, 0))
    ensures bits + WorkBits(WorkAt(q, i, 0)) == WorkBits(WorkAt(q, 0, 0))
  {
    hide PassOk, LoadedTo, StoredTo, WorkOk, WorkAt, WorkBits, RowsDone;
  }

  lemma FrameAdvances(bufs: seq<seq<Row>>, prevs: seq<seq<Row>>, q: Pass, i: nat, bits: seq<bool>, more: seq<bool>)
    requires i < q.groups && PassOk(q) && WorkOk(WorkAt(q, 0, 0)) && WorkOk(WorkAt(q, i, 0))
    requires WorkOk(WorkAt(q, i + 1, 0))
    requires bits + WorkBits(WorkAt(q, i, 0)) == WorkBits(WorkAt(q, 0, 0))
    requires more + WorkBits(WorkAt(q, i + 1, 0)) == WorkBits(WorkAt(q, i, 0))
    requires LoadedTo(bufs, q, i, |q.heights|) && StoredTo(prevs, q, RowsDone(q.heights, i + 1, 0))
    ensures FrameInv(bufs, prevs, q, i + 1, bits + more)
  {
    NextLoads(bufs, q, i);
    hide PassOk, LoadedTo, StoredTo, WorkOk, WorkAt, WorkBits, RowsDone;
    Assoc(bits, more, WorkBits(WorkAt(q, i + 1, 0)));
  }

  lemma FrameEnds(bufs: seq<seq<Row>>, prevs: seq<seq<Row>>, q: Pass, bits: seq<bool>)
    requires FrameInv(bufs, prevs, q, q.groups, bits)
    ensures WorkOk(WorkAt(q, 0, 0)) && bits == WorkBits(WorkAt(q, 0, 0))
    ensures prevs == q.frame && BufferSizes(bufs, q.heights)
  {
    hide PassOk, LoadedTo, StoredTo, WorkOk, WorkAt, WorkBits, RowsDone;
    LoadedKeepsSizes(bufs, q, q.groups, 0);
    StoreEnds(prevs, q);
    WorkEnds(q);
    NoBitsYet(bits);
  }

  /** The rows of each component come in groups of its group height. */
  ghost predicate InGroups(groups: nat, heights: seq<nat>, frame: Frame) {
    |heights| == |frame| && forall c :: 0 <= c < |heights| ==> heights[c] > 0 && |frame[c]| == groups * heights[c]
  }

  lemma GroupsComplete(groups: nat, heights: seq<nat>, frame: Frame)
    requires InGroups(groups, heights, frame)
    ensures Complete(Order(groups, heights), frame)
  {
    OrderIsComplete(groups, heights, Zeros(|frame|));
    hide After, Order;
  }

  /** The next frame of a stream. */
  lemma StreamStep(frames: seq<Frame>, k: nat, prev: Frame, groups: nat, heights: seq<nat>, f: Format)
    requires k < |frames| && InGroups(groups, heights, prev) && StreamOk(frames[k..], prev, Order(groups, heights), f)
    ensures FormatOk(f) && FrameOk(frames[k], f) && FrameOk(prev, f)
    ensures PassSizes(Pass(groups, heights, frames[k], prev, f)) && InGroups(groups, heights, frames[k])
    ensures StreamOk(frames[k + 1..], frames[k], Order(groups, heights), f)
    ensures JobsOk(Order(groups, heights), Zeros(|frames[k]|), frames[k], prev)
    ensures StreamBits(frames[k..], prev, Order(groups, heights), f)
         == FrameBits(Order(groups, heights), Zeros(|frames[k]|), frames[k], prev, f)
            + StreamBits(frames[k + 1..], frames[k], Order(groups, heights), f)
  {
    var rest := frames[k..];
    assert rest[0] == frames[k] && rest[1..] == frames[k + 1..];
    FrameReady(frames[k], prev, Order(groups, heights), f) by {
      StreamNext(rest, prev, Order(groups, heights), f);
    }
    StreamRest(rest, prev, Order(groups, heights), f);
    StreamNext(rest, prev, Order(groups, heights), f);
    hide FormatOk, FrameOk, Complete, JobsOk, StreamOk, Order, FrameBits, Placed, Received;
    SameHeights(frames[k], prev);
  }

  lemma StreamNext(frames: seq<Frame>, prev: Frame, jobs: seq<nat>, f: Format)
    requires StreamOk(frames, prev, jobs, f) && frames != []
    ensures FormatOk(f) && FrameOk(prev, f) && FrameOk(frames[0], f) && Complete(jobs, prev)
    ensures Heights(frames[0]) == Heights(prev)
  {
    hide FormatOk, FrameOk, Complete, Heights;
  }

  lemma SameHeights(a: Frame, b: Frame)
    requires Heights(a) == Heights(b)
    ensures |a| == |b| && forall c :: 0 <= c < |a| ==> |a[c]| == |b[c]|
  {
    assert |Heights(a)| == |Heights(b)|;
    forall c | 0 <= c < |a| ensures |a[c]| == |b[c]| {
      assert Heights(a)[c] == Heights(b)[c];
    }
  }

  lemma ReadySame(prevs: seq<seq<Row>>, c: nat, g: nat, row: Row, prev: Row, x: nat)
    requires RowReady(prevs, c, g, row, prev, x)
    ensures c < |prevs| && g < |prevs[c]| && x <= |row| == |prev| && prevs == Stored(prevs, c, g, Partly(row, prev, x))
  {
    StoredSame(prevs, c, g);
  }

  lemma ReadyAgain(prevs: seq<seq<Row>>, c: nat, g: nat, row: Row, prev: Row, x: nat)
    requires c < |prevs| && g < |prevs[c]| && x <= |row| == |prev|
    ensures RowReady(Stored(prevs, c, g, Partly(row, prev, x)), c, g, row, prev, x)
  {
  }

  lemma StoredMixed(prevs: seq<seq<Row>>, c: nat, p: nat, rows: seq<Row>, prev: seq<Row>)
    requires c < |prevs| && p < |rows| == |prev|
    ensures Stored(prevs[c := Mixed(rows, prev, p)], c, p, rows[p]) == prevs[c := Mixed(rows, prev, p + 1)]
  {
    hide Mixed;
    MixedNext(rows, prev, p);
  }

  lemma LoadRow(buf: seq<Row>, group: seq<Row>, iy: nat, r: nat)
    requires iy + |group| <= |buf| && r < |group|
    ensures var b := buf[..iy] + group[..r] + buf[iy + r..];
            |b| == |buf| && b[iy + r := group[r]] == buf[..iy] + group[..r + 1] + buf[iy + r + 1..]
  {
  }

  lemma LoadDone(buf: seq<Row>, group: seq<Row>, i: nat, h: nat)
    requires |buf| == 2 * h && |group| == h
    ensures buf[..GroupStart(i, h)] + group[..h] + buf[GroupStart(i, h) + h..] == Loaded(buf, group, i, h)
  {
    hide GroupStart;
    assert group[..h] == group;
  }

  lemma BufferSize(buf: seq<Row>, rows: seq<Row>, p: nat, i: nat, h: nat)
    requires Holds(buf, rows, p, i, h)
    ensures h > 0 && |buf| == 2 * h && p + h <= |rows|
  {
  }
}
