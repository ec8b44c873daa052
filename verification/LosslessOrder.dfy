/** The bits of the rows of one component, taken out of the bits of a frame group by group. */
module LosslessOrder {
  import opened Bits
  import opened PrefixCode
  import opened Lossless
  import opened LosslessFrames

  /** The bits of `n` rows of component `c` from row `p` on. */
  ghost function RowsBits(frame: Frame, prev: Frame, f: Format, c: nat, p: nat, n: nat): (bits: seq<bool>)
    requires FormatOk(f) && FrameOk(frame, f) && FrameOk(prev, f) && c < |frame| && p + n <= |frame[c]|
    requires p + n <= |prev[c]|
    decreases n
  {
    FormatSizes(frame, f);
    FormatSizes(prev, f);
    if n == 0 then []
    else
      RowFits(frame, prev, f, c, p);
      hide FormatOk, FrameOk, ComponentOk, RowsOk;
      RowBits(frame[c][p], Above(frame[c], p), prev[c][p], 0, f.comps[c]) + RowsBits(frame, prev, f, c, p + 1, n - 1)
  }

  lemma NoBitsYet(bits: seq<bool>)
    ensures [] + bits == bits && bits + [] == bits
  {
  }

  /** A frame being coded: the rows done and the jobs to do. */
  datatype Work = Work(frame: Frame, prev: Frame, f: Format, pos: seq<nat>, jobs: seq<nat>)

  ghost predicate WorkOk(w: Work) {
    && FormatOk(w.f) && FrameOk(w.frame, w.f) && FrameOk(w.prev, w.f) && JobsOk(w.jobs, w.pos, w.frame, w.prev)
    && Placed(w.pos, w.frame) && Placed(w.pos, w.prev) && forall k :: 0 <= k < |w.jobs| ==> w.jobs[k] < |w.pos|
  }

  lemma WorkSizes(w: Work)
    requires WorkOk(w)
    ensures |w.frame| == |w.prev| == |w.pos| == |w.f.comps| && (forall k :: 0 <= k < |w.jobs| ==> w.jobs[k] < |w.pos|)
    ensures forall c :: 0 <= c < |w.pos| ==> w.pos[c] <= |w.frame[c]| && w.pos[c] <= |w.prev[c]|
  {
    FormatSizes(w.frame, w.f);
    FormatSizes(w.prev, w.f);
    hide FormatOk, FrameOk, JobsOk;
  }

  /** The bits still to come. */
  ghost function WorkBits(w: Work): (bits: seq<bool>)
    requires WorkOk(w)
  {
    FrameBits(w.jobs, w.pos, w.frame, w.prev, w.f)
  }

  /** There are `n` more rows of component `c`. */
  ghost predicate HasRows(w: Work, c: nat, n: nat) {
    && c < |w.pos| && c < |w.frame| && c < |w.prev|
    && w.pos[c] + n <= |w.frame[c]| && w.pos[c] + n <= |w.prev[c]|
  }

  /** The bits of the next `n` rows of component `c`. */
  ghost function WorkRows(w: Work, c: nat, n: nat): (bits: seq<bool>)
    requires WorkOk(w) && HasRows(w, c, n)
  {
    RowsBits(w.frame, w.prev, w.f, c, w.pos[c], n)
  }

  /** The work left when `n` rows of component `c` are done and `jobs` remain. */
  function Done(w: Work, c: nat, n: nat, jobs: seq<nat>): (w': Work)
    requires c < |w.pos|
  {
    w.(pos := w.pos[c := w.pos[c] + n], jobs := jobs)
  }

  lemma PlacedNext(pos: seq<nat>, c: nat, frame: Frame)
    requires Placed(pos, frame) && c < |pos| && pos[c] < |frame[c]|
    ensures Placed(pos[c := pos[c] + 1], frame)
  {
  }

  /** The next job leaves work that can still be done. */
  lemma NextJob(w: Work)
    requires WorkOk(w) && w.jobs != []
    ensures HasRows(w, w.jobs[0], 1) && WorkOk(Done(w, w.jobs[0], 1, w.jobs[1..]))
  {
    hide FormatOk, FrameOk, Placed;
    assert w.jobs[0] < |w.pos|;
    PlacedNext(w.pos, w.jobs[0], w.frame);
    PlacedNext(w.pos, w.jobs[0], w.prev);
  }

  lemma FirstJob(w: Work)
    requires WorkOk(w) && w.jobs != []
    ensures HasRows(w, w.jobs[0], 1) && WorkOk(Done(w, w.jobs[0], 1, w.jobs[1..]))
    ensures WorkBits(w) == WorkRows(w, w.jobs[0], 1) + WorkBits(Done(w, w.jobs[0], 1, w.jobs[1..]))
  {
    hide FormatOk, FrameOk, ComponentOk, RowBits, RowsOk, RowsBits, Placed, JobsOk, WorkRows, Above, HasRows;
    WorkSizes(w);
    NextJob(w);
    OnlyRow(w, w.jobs[0]);
  }

  lemma OnlyRow(w: Work, c: nat)
    requires WorkOk(w) && HasRows(w, c, 1) && c < |w.f.comps|
    ensures ComponentOk(w.f.comps[c]) && RowsOk(w.frame[c][w.pos[c]], Above(w.frame[c], w.pos[c]), w.prev[c][w.pos[c]])
    ensures WorkRows(w, c, 1)
         == RowBits(w.frame[c][w.pos[c]], Above(w.frame[c], w.pos[c]), w.prev[c][w.pos[c]], 0, w.f.comps[c])
  {
    RowFits(w.frame, w.prev, w.f, c, w.pos[c]);
    hide FormatOk, FrameOk, ComponentOk, RowBits, RowsOk, Above, JobsOk;
    var bits := RowBits(w.frame[c][w.pos[c]], Above(w.frame[c], w.pos[c]), w.prev[c][w.pos[c]], 0, w.f.comps[c]);
    NoBitsYet(bits);
    assert RowsBits(w.frame, w.prev, w.f, c, w.pos[c] + 1, 0) == [];
  }

  lemma RowsSplit(frame: Frame, prev: Frame, f: Format, c: nat, p: nat, n: nat)
    requires FormatOk(f) && FrameOk(frame, f) && FrameOk(prev, f) && c < |frame| && c < |prev| && n > 0
    requires p + n <= |frame[c]| && p + n <= |prev[c]|
    ensures RowsBits(frame, prev, f, c, p, n)
         == RowsBits(frame, prev, f, c, p, 1) + RowsBits(frame, prev, f, c, p + 1, n - 1)
  {
    FormatSizes(frame, f);
    FormatSizes(prev, f);
    RowFits(frame, prev, f, c, p);
    hide FormatOk, FrameOk, ComponentOk, RowBits, RowsOk, Above;
    NoBitsYet(RowBits(frame[c][p], Above(frame[c], p), prev[c][p], 0, f.comps[c]));
    assert RowsBits(frame, prev, f, c, p + 1, 0) == [];
  }

  lemma FirstRow(w: Work, c: nat, n: nat)
    requires WorkOk(w) && n > 0 && HasRows(w, c, n) && w.jobs != [] && WorkOk(Done(w, c, 1, w.jobs[1..]))
    ensures HasRows(w, c, 1) && HasRows(Done(w, c, 1, w.jobs[1..]), c, n - 1)
    ensures WorkRows(w, c, n) == WorkRows(w, c, 1) + WorkRows(Done(w, c, 1, w.jobs[1..]), c, n - 1)
  {
    hide FormatOk, FrameOk, JobsOk, RowsBits, Placed;
    RowsSplit(w.frame, w.prev, w.f, c, w.pos[c], n);
  }

  lemma NoRows(w: Work, c: nat)
    requires WorkOk(w) && HasRows(w, c, 0)
    ensures WorkRows(w, c, 0) == []
  {
    FormatSizes(w.frame, w.f);
    FormatSizes(w.prev, w.f);
  }

  lemma RepeatFirst(c: nat, n: nat, rest: seq<nat>)
    ensures n > 0 ==> (Repeat(c, n) + rest != [] && (Repeat(c, n) + rest)[0] == c)
    ensures n > 0 ==> (Repeat(c, n) + rest)[1..] == Repeat(c, n - 1) + rest
    ensures n == 0 ==> Repeat(c, n) + rest == rest
  {
  }

  lemma DoneMore(w: Work, c: nat, n: nat, jobs: seq<nat>, rest: seq<nat>)
    requires c < |w.pos| && n > 0
    ensures Done(Done(w, c, 1, jobs), c, n - 1, rest) == Done(w, c, n, rest)
  {
    assert w.pos[c := w.pos[c] + 1][c := w.pos[c] + 1 + (n - 1)] == w.pos[c := w.pos[c] + n];
  }

  lemma DoneNone(w: Work, c: nat)
    requires c < |w.pos|
    ensures Done(w, c, 0, w.jobs) == w
  {
    assert w.pos[c := w.pos[c] + 0] == w.pos;
  }

  lemma HasNone(w: Work, c: nat)
    requires WorkOk(w) && c < |w.pos|
    ensures HasRows(w, c, 0)
  {
    WorkSizes(w);
  }

  lemma HasMore(w: Work, c: nat, n: nat)
    requires n > 0 && HasRows(w, c, 1) && w.jobs != [] && HasRows(Done(w, c, 1, w.jobs[1..]), c, n - 1)
    ensures HasRows(w, c, n)
  {
  }

  /** Rows of one component coded together are what the order of the frame asks for next. */
  lemma {:induction false} GroupIsPart(w: Work, c: nat, n: nat, rest: seq<nat>)
    requires WorkOk(w) && c < |w.pos| && w.jobs == Repeat(c, n) + rest
    ensures HasRows(w, c, n) && WorkOk(Done(w, c, n, rest))
    ensures WorkBits(w) == WorkRows(w, c, n) + WorkBits(Done(w, c, n, rest))
    decreases n
  {
    hide WorkOk, WorkBits, WorkRows, HasRows, Done;
    RepeatFirst(c, n, rest);
    if n == 0 {
      DoneNone(w, c);
      HasNone(w, c);
      NoRows(w, c);
      NoBitsYet(WorkBits(w));
    } else {
      FirstJob(w);
      var next := Done(w, c, 1, w.jobs[1..]);
      DoneShape(w, c, 1, w.jobs[1..]);
      GroupIsPart(next, c, n - 1, rest);
      HasMore(w, c, n);
      FirstRow(w, c, n);
      DoneMore(w, c, n, w.jobs[1..], rest);
      Assoc(WorkRows(w, c, 1), WorkRows(next, c, n - 1), WorkBits(Done(w, c, n, rest)));
    }
  }

  lemma DoneShape(w: Work, c: nat, n: nat, jobs: seq<nat>)
    requires c < |w.pos|
    ensures var d := Done(w, c, n, jobs);
            d.jobs == jobs && |d.pos| == |w.pos| && d.frame == w.frame && d.prev == w.prev && d.f == w.f
    ensures forall k :: 0 <= k < |w.pos| ==> Done(w, c, n, jobs).pos[k] == if k == c then w.pos[k] + n else w.pos[k]
  {
  }

  // ----- The jobs of a whole frame -----

  /** The jobs still to be done from component `c` of group `i` on. */
  function Rest(groups: nat, heights: seq<nat>, i: nat, c: nat): (jobs: seq<nat>)
    requires i <= groups && c <= |heights|
    ensures forall k :: 0 <= k < |jobs| ==> jobs[k] < |heights|
  {
    if i == groups then [] else GroupJobs(heights, c) + Order(groups - 1 - i, heights)
  }

  lemma RestNext(groups: nat, heights: seq<nat>, i: nat, c: nat)
    requires i < groups && c <= |heights|
    ensures c < |heights| ==> Rest(groups, heights, i, c) == Repeat(c, heights[c]) + Rest(groups, heights, i, c + 1)
    ensures Rest(groups, heights, i, |heights|) == Rest(groups, heights, i + 1, 0)
  {
    if c < |heights| {
      Three(Repeat(c, heights[c]), GroupJobs(heights, c + 1), Order(groups - 1 - i, heights));
    }
    assert GroupJobs(heights, |heights|) == [];
    EmptyJobs(Order(groups - 1 - i, heights));
  }

  lemma RestAll(groups: nat, heights: seq<nat>)
    ensures Rest(groups, heights, 0, 0) == Order(groups, heights)
  {
  }

  lemma Three(a: seq<nat>, b: seq<nat>, c: seq<nat>)
    ensures a + b + c == a + (b + c)
  {
  }

  lemma EmptyJobs(jobs: seq<nat>)
    ensures [] + jobs == jobs
  {
  }

  // ----- A frame in groups -----

  /** A frame to be coded in groups: `heights[c]` rows of component `c` in each. */
  datatype Pass = Pass(groups: nat, heights: seq<nat>, frame: Frame, prev: Frame, f: Format)

  ghost predicate PassSizes(q: Pass) {
    && |q.heights| == |q.frame| == |q.prev| == |q.f.comps|
    && forall c :: 0 <= c < |q.heights| ==>
         q.heights[c] > 0 && |q.frame[c]| == |q.prev[c]| == q.groups * q.heights[c]
  }

  ghost predicate PassOk(q: Pass) {
    FormatOk(q.f) && FrameOk(q.frame, q.f) && FrameOk(q.prev, q.f) && PassSizes(q)
  }

  /** The rows done when the first `c` components of group `i` are. */
  function RowsDone(heights: seq<nat>, i: nat, c: nat): (pos: seq<nat>)
    ensures |pos| == |heights|
    ensures forall k :: 0 <= k < |heights| ==> pos[k] == (if k < c then i + 1 else i) * heights[k]
  {
    seq(|heights|, k requires 0 <= k < |heights| => (if k < c then i + 1 else i) * heights[k])
  }

  /** The work left when the first `c` components of group `i` are done. */
  function WorkAt(q: Pass, i: nat, c: nat): (w: Work)
    requires i <= q.groups && c <= |q.heights|
  {
    Work(q.frame, q.prev, q.f, RowsDone(q.heights, i, c), Rest(q.groups, q.heights, i, c))
  }

  lemma NextGroup(i: nat, h: nat)
    ensures (i + 1) * h == i * h + h
  {
  }

  lemma RowsDoneNext(heights: seq<nat>, i: nat, c: nat)
    requires c < |heights|
    ensures RowsDone(heights, i, c)[c] == i * heights[c]
    ensures RowsDone(heights, i, c + 1) == RowsDone(heights, i, c)[c := i * heights[c] + heights[c]]
  {
    NextGroup(i, heights[c]);
  }

  lemma RowsDoneTurn(heights: seq<nat>, i: nat)
    ensures RowsDone(heights, i, |heights|) == RowsDone(heights, i + 1, 0)
    ensures RowsDone(heights, 0, 0) == Zeros(|heights|)
  {
  }

  lemma WorkTurn(q: Pass, i: nat)
    requires i < q.groups
    ensures WorkAt(q, i, |q.heights|) == WorkAt(q, i + 1, 0)
  {
    hide RowsDone, Rest;
    RowsDoneTurn(q.heights, i);
    RestNext(q.groups, q.heights, i, |q.heights|);
  }

  lemma AllRows(q: Pass)
    requires PassSizes(q)
    ensures var jobs := Order(q.groups, q.heights);
            forall c :: 0 <= c < |q.heights| ==> After(Zeros(|q.heights|), jobs)[c] == |q.frame[c]| == |q.prev[c]|
  {
    OrderIsComplete(q.groups, q.heights, Zeros(|q.heights|));
    hide After, Order;
  }

  /** All the work of a frame. */
  lemma WorkBegins(q: Pass)
    requires PassOk(q)
    ensures WorkAt(q, 0, 0) == Work(q.frame, q.prev, q.f, Zeros(|q.heights|), Order(q.groups, q.heights))
    ensures WorkOk(WorkAt(q, 0, 0))
  {
    hide FormatOk, FrameOk, RowsDone, Rest, After, Order, JobsOk;
    RowsDoneTurn(q.heights, 0);
    RestAll(q.groups, q.heights);
    AllRows(q);
    EnoughRows(Order(q.groups, q.heights), Zeros(|q.heights|), q.frame, q.prev);
  }

  lemma WorkDone(q: Pass, i: nat, c: nat)
    requires i < q.groups && c < |q.heights|
    ensures c < |WorkAt(q, i, c).pos| && WorkAt(q, i, c).pos[c] == i * q.heights[c]
    ensures WorkAt(q, i, c).jobs == Repeat(c, q.heights[c]) + Rest(q.groups, q.heights, i, c + 1)
    ensures Done(WorkAt(q, i, c), c, q.heights[c], Rest(q.groups, q.heights, i, c + 1)) == WorkAt(q, i, c + 1)
  {
    hide RowsDone, Rest;
    RowsDoneNext(q.heights, i, c);
    RestNext(q.groups, q.heights, i, c);
  }

  /** Coding one group of one component. */
  lemma WorkAdvances(q: Pass, i: nat, c: nat)
    requires PassOk(q) && i < q.groups && c < |q.heights| && WorkOk(WorkAt(q, i, c))
    ensures WorkOk(WorkAt(q, i, c + 1)) && PassSizes(q)
    ensures i * q.heights[c] + q.heights[c] <= |q.frame[c]|
    ensures WorkBits(WorkAt(q, i, c))
         == RowsBits(q.frame, q.prev, q.f, c, i * q.heights[c], q.heights[c]) + WorkBits(WorkAt(q, i, c + 1))
  {
    var w := WorkAt(q, i, c);
    WorkDone(q, i, c);
    hide FormatOk, FrameOk, WorkBits, RowsBits, WorkOk, Rest, RowsDone;
    NextGroup(i, q.heights[c]);
    GroupIsPart(w, c, q.heights[c], Rest(q.groups, q.heights, i, c + 1));
  }

  lemma WorkEnds(q: Pass)
    requires WorkOk(WorkAt(q, q.groups, 0))
    ensures WorkBits(WorkAt(q, q.groups, 0)) == []
  {
    hide FormatOk, FrameOk, JobsOk, RowsDone;
  }
}
