/**
 The send path of a frame: encoder threads append to their own buffers and then set their end flags, while
 one sender cuts the joined stream into packets. All interleavings of their atomic steps are considered.
 */
module SendPath {

  /** A thread's buffer: what it has appended, its end flag, and how much of it the sender has taken. */
  datatype Buffer = Buffer(data: seq<nat>, flag: bool, sent: nat)

  /** A packet; `end` marks the last one of the frame, `seqNo` is the 8-bit counter in the header. */
  datatype Packet = Packet(payload: seq<nat>, end: bool, seqNo: nat)

  /**
   Where the sender is: idle, about to load the flag of a thread, or about to load its position.
   `payload` is what it has copied from the threads before `te` for the packet in progress.
   */
  datatype Sender =
    | Idle
    | AtFlag(te: nat, payload: seq<nat>)
    | AtPos(te: nat, payload: seq<nat>, flag: bool)

  datatype State = State(cap: nat, buffers: seq<Buffer>, cur: nat, done: bool, out: seq<Packet>, counter: nat,
                         sender: Sender)

  function Initial(cap: nat, threads: nat): (s: State) {
    State(cap, seq(threads, i => Buffer([], false, 0)), 0, false, [], 0, Idle)
  }

  datatype Event =
    | Append(k: nat, bytes: seq<nat>)
    | Finish(k: nat)
    | SenderStep

  /** A thread writes only before its end flag is set. */
  predicate Enabled(s: State, e: Event) {
    match e
    case Append(k, bytes) => k < |s.buffers| && !s.buffers[k].flag
    case Finish(k) => k < |s.buffers|
    case SenderStep => true
  }

  function Min(a: nat, b: nat): (m: nat) {
    if a <= b then a else b
  }

  function Emit(s: State, payload: seq<nat>, end: bool): (s': State) {
    s.(out := s.out + [Packet(payload, end, s.counter)], counter := (s.counter + 1) % 256, sender := Idle)
  }

  /** The position of thread `te` is loaded and decides: give up, commit a packet, or look at the next thread. */
  function Decide(s: State, te: nat, payload: seq<nat>, flag: bool): (s': State)
    requires te < |s.buffers| && |payload| <= s.cap && s.buffers[te].sent <= |s.buffers[te].data|
  {
    var b := s.buffers[te];
    var pos := |b.data|;
    if !(b.sent < pos || flag) then s.(sender := Idle)
    else
      var remaining := s.cap - |payload|;
      var size := Min(pos - b.sent, remaining);
      var threadDone := b.sent + size == pos && flag;
      if size < remaining && !threadDone then s.(sender := Idle)
      else
        var payload' := payload + b.data[b.sent..b.sent + size];
        if !threadDone then
          Emit(s.(buffers := s.buffers[te := b.(sent := b.sent + size)], cur := te), payload', false)
        else if te + 1 < |s.buffers| then s.(sender := AtFlag(te + 1, payload'))
        else Emit(s.(cur := 0, done := true), payload', true)
  }

  function Step(s: State, e: Event): (s': State)
    requires Inv(s) && Enabled(s, e)
  {
    match e
    case Append(k, bytes) => s.(buffers := s.buffers[k := s.buffers[k].(data := s.buffers[k].data + bytes)])
    case Finish(k) => s.(buffers := s.buffers[k := s.buffers[k].(flag := true)])
    case SenderStep =>
      if s.done then s
      else match s.sender
        case Idle => s.(sender := AtFlag(s.cur, []))
        case AtFlag(te, payload) => s.(sender := AtPos(te, payload, s.buffers[te].flag))
        case AtPos(te, payload, flag) => Decide(s, te, payload, flag)
  }

  // ----- The invariant -----

  /** The data of threads `from` up to `to`, joined. */
  function Joined(buffers: seq<Buffer>, from: nat, to: nat): (d: seq<nat>)
    requires from <= to <= |buffers|
    decreases |buffers| - from
  {
    if from == to then [] else buffers[from].data + Joined(buffers, from + 1, to)
  }

  function Payloads(out: seq<Packet>): (d: seq<nat>) {
    if out == [] then [] else Payloads(out[..|out| - 1]) + out[|out| - 1].payload
  }

  ghost predicate AllFlagged(buffers: seq<Buffer>, from: nat, to: nat)
    requires to <= |buffers|
  {
    forall k :: from <= k < to ==> buffers[k].flag
  }

  /** What the sender has taken for the packet in progress, while looking at thread `te`. */
  ghost predicate Collected(s: State, te: nat, payload: seq<nat>) {
    && s.cur <= te < |s.buffers| && |payload| <= s.cap
    && AllFlagged(s.buffers, s.cur, te)
    && s.buffers[s.cur].sent <= |s.buffers[s.cur].data|
    && payload == (if te == s.cur then []
                   else s.buffers[s.cur].data[s.buffers[s.cur].sent..] + Joined(s.buffers, s.cur + 1, te))
  }

  ghost predicate SenderOk(s: State) {
    match s.sender
    case Idle => true
    case AtFlag(te, payload) => Collected(s, te, payload)
    case AtPos(te, payload, flag) => Collected(s, te, payload) && (flag ==> s.buffers[te].flag)
  }

  /** Every packet but the end packet is full, the counter counts, and only a finished frame has an end packet. */
  ghost predicate PacketsOk(s: State) {
    && (forall i :: 0 <= i < |s.out| ==> |s.out[i].payload| <= s.cap && (!s.out[i].end ==> |s.out[i].payload| == s.cap))
    && (forall i :: 0 <= i < |s.out| ==> (s.out[i].end <==> s.done && i == |s.out| - 1) && s.out[i].seqNo == i % 256)
    && s.counter == |s.out| % 256
  }

  /** The packets hold exactly what has been taken, thread after thread. */
  ghost predicate StreamOk(s: State) {
    if s.done then
      s.out != [] && AllFlagged(s.buffers, 0, |s.buffers|) && Payloads(s.out) == Joined(s.buffers, 0, |s.buffers|)
    else
      && s.cur < |s.buffers| && AllFlagged(s.buffers, 0, s.cur)
      && (forall k :: s.cur < k < |s.buffers| ==> s.buffers[k].sent == 0)
      && s.buffers[s.cur].sent <= |s.buffers[s.cur].data|
      && Payloads(s.out) == Joined(s.buffers, 0, s.cur) + s.buffers[s.cur].data[..s.buffers[s.cur].sent]
  }

  ghost predicate Inv(s: State) {
    s.cap > 0 && PacketsOk(s) && StreamOk(s) && (if s.done then s.sender == Idle else SenderOk(s))
  }

  // ----- Joined data -----

  lemma Assoc(a: seq<nat>, b: seq<nat>, c: seq<nat>)
    ensures a + (b + c) == a + b + c
  {
  }

  lemma {:induction false} JoinedSplit(buffers: seq<Buffer>, from: nat, mid: nat, to: nat)
    requires from <= mid <= to <= |buffers|
    ensures Joined(buffers, from, to) == Joined(buffers, from, mid) + Joined(buffers, mid, to)
    decreases |buffers| - from
  {
    if from != mid {
      JoinedSplit(buffers, from + 1, mid, to);
      Assoc(buffers[from].data, Joined(buffers, from + 1, mid), Joined(buffers, mid, to));
    }
  }

  lemma JoinedOne(buffers: seq<Buffer>, k: nat)
    requires k < |buffers|
    ensures Joined(buffers, k, k + 1) == buffers[k].data
  {
    assert Joined(buffers, k + 1, k + 1) == [];
  }

  lemma {:induction false} JoinedSame(a: seq<Buffer>, b: seq<Buffer>, from: nat, to: nat)
    requires from <= to <= |a| == |b| && forall k :: from <= k < to ==> a[k].data == b[k].data
    ensures Joined(a, from, to) == Joined(b, from, to)
    decreases |a| - from
  {
    if from != to {
      JoinedSame(a, b, from + 1, to);
    }
  }

  // ----- Producers -----

  /** A thread that may still write lies at or behind everything the sender has finished with. */
  lemma AppendInv(s: State, k: nat, bytes: seq<nat>)
    requires Inv(s) && k < |s.buffers| && !s.buffers[k].flag
    ensures Inv(Step(s, Append(k, bytes)))
  {
    var s' := Step(s, Append(k, bytes));
    assert !s.done && s.cur <= k;
    JoinedSame(s.buffers, s'.buffers, 0, s.cur);
    AppendCollected(s, s', k, bytes);
    hide PacketsOk;
    KeepsPackets(s, s');
    Prefix(s.buffers[s.cur].data, bytes, s.buffers[s.cur].sent);
  }

  lemma Prefix(a: seq<nat>, b: seq<nat>, n: nat)
    requires n <= |a|
    ensures (a + b)[..n] == a[..n]
  {
  }

  lemma KeepsPackets(s: State, s': State)
    requires s'.out == s.out && s'.done == s.done && s'.counter == s.counter && s'.cap == s.cap
    ensures PacketsOk(s') == PacketsOk(s)
  {
  }

  lemma AppendCollected(s: State, s': State, k: nat, bytes: seq<nat>)
    requires k < |s.buffers| && !s.buffers[k].flag
    requires s' == s.(buffers := s.buffers[k := s.buffers[k].(data := s.buffers[k].data + bytes)])
    ensures forall te: nat, payload :: Collected(s, te, payload) ==> Collected(s', te, payload)
  {
    hide Collected;
    forall te: nat, payload | Collected(s, te, payload) ensures Collected(s', te, payload) {
      AppendKeeps(s, s', k, bytes, te, payload);
    }
  }

  lemma AppendKeeps(s: State, s': State, k: nat, bytes: seq<nat>, te: nat, payload: seq<nat>)
    requires k < |s.buffers| && !s.buffers[k].flag && Collected(s, te, payload)
    requires s' == s.(buffers := s.buffers[k := s.buffers[k].(data := s.buffers[k].data + bytes)])
    ensures Collected(s', te, payload)
  {
    hide Joined;
    if te != s.cur {
      JoinedSame(s.buffers, s'.buffers, s.cur + 1, te);
    }
  }

  lemma FinishInv(s: State, k: nat)
    requires Inv(s) && k < |s.buffers|
    ensures Inv(Step(s, Finish(k)))
  {
    var s' := Step(s, Finish(k));
    JoinedSame(s.buffers, s'.buffers, 0, |s.buffers|);
    if !s.done {
      JoinedSame(s.buffers, s'.buffers, 0, s.cur);
    }
    FinishCollected(s, s', k);
    hide PacketsOk;
    KeepsPackets(s, s');
  }

  lemma FinishCollected(s: State, s': State, k: nat)
    requires k < |s.buffers| && s' == s.(buffers := s.buffers[k := s.buffers[k].(flag := true)])
    ensures forall te: nat, payload :: Collected(s, te, payload) ==> Collected(s', te, payload)
  {
    hide Collected;
    forall te: nat, payload | Collected(s, te, payload) ensures Collected(s', te, payload) {
      FinishKeeps(s, s', k, te, payload);
    }
  }

  lemma FinishKeeps(s: State, s': State, k: nat, te: nat, payload: seq<nat>)
    requires k < |s.buffers| && s' == s.(buffers := s.buffers[k := s.buffers[k].(flag := true)])
    requires Collected(s, te, payload)
    ensures Collected(s', te, payload)
  {
    hide Joined;
    if te != s.cur {
      JoinedSame(s.buffers, s'.buffers, s.cur + 1, te);
    }
  }

  // ----- The sender -----

  /** Everything before the thread looked at has been sent or collected. */
  lemma CollectedStream(s: State, te: nat, payload: seq<nat>)
    requires StreamOk(s) && !s.done && Collected(s, te, payload)
    ensures AllFlagged(s.buffers, 0, te) && s.buffers[te].sent <= |s.buffers[te].data|
    ensures Payloads(s.out) + payload == Joined(s.buffers, 0, te) + s.buffers[te].data[..s.buffers[te].sent]
  {
    var b := s.buffers[s.cur];
    if te == s.cur {
      assert payload == [];
    } else {
      JoinedSplit(s.buffers, 0, s.cur, te);
      assert Joined(s.buffers, s.cur, te) == b.data + Joined(s.buffers, s.cur + 1, te);
      assert b.data[..b.sent] + b.data[b.sent..] == b.data;
      Regroup(Joined(s.buffers, 0, s.cur), b.data[..b.sent], b.data[b.sent..], Joined(s.buffers, s.cur + 1, te),
              b.data);
      assert s.buffers[te].data[..0] == [];
      NoMore(Joined(s.buffers, 0, te));
    }
  }

  lemma NoMore(a: seq<nat>)
    ensures a + [] == a && [] + a == a
  {
  }

  lemma Regroup(a: seq<nat>, b: seq<nat>, c: seq<nat>, d: seq<nat>, bc: seq<nat>)
    requires b + c == bc
    ensures (a + b) + (c + d) == a + (bc + d)
  {
    Assoc(a + b, c, d);
    Assoc(a, b, c);
    Assoc(a, bc, d);
  }

  lemma EmitPackets(s: State, payload: seq<nat>, end: bool)
    requires PacketsOk(s) && !s.done && |payload| <= s.cap && (!end ==> |payload| == s.cap)
    ensures PacketsOk(Emit(s, payload, end).(done := end))
    ensures Payloads(Emit(s, payload, end).out) == Payloads(s.out) + payload
  {
    EmitPayloads(s, payload, end);
    hide Payloads;
    var n := |s.out|;
    assert (n + 1) % 256 == (n % 256 + 1) % 256;
  }

  lemma EmitPayloads(s: State, payload: seq<nat>, end: bool)
    ensures Payloads(Emit(s, payload, end).out) == Payloads(s.out) + payload
  {
    var out := Emit(s, payload, end).out;
    assert out[..|out| - 1] == s.out;
  }

  /** A packet is committed while a thread still has data or may get more. */
  lemma CommitMiddle(s: State, te: nat, payload: seq<nat>, size: nat)
    requires Inv(s) && !s.done && Collected(s, te, payload)
    requires s.buffers[te].sent + size <= |s.buffers[te].data| && |payload| + size == s.cap
    ensures var b := s.buffers[te];
            Inv(Emit(s.(buffers := s.buffers[te := b.(sent := b.sent + size)], cur := te),
                     payload + b.data[b.sent..b.sent + size], false))
  {
    hide Joined, Payloads;
    hide PacketsOk;
    var b := s.buffers[te];
    var more := b.data[b.sent..b.sent + size];
    var s1 := s.(buffers := s.buffers[te := b.(sent := b.sent + size)], cur := te);
    var s' := Emit(s1, payload + more, false);
    CollectedStream(s, te, payload);
    JoinedSame(s.buffers, s1.buffers, 0, te);
    Assoc(Payloads(s.out), payload, more);
    assert b.data[..b.sent] + more == b.data[..b.sent + size];
    Assoc(Joined(s.buffers, 0, te), b.data[..b.sent], more);
    KeepsPackets(s, s1);
    EmitPackets(s1, payload + more, false);
    assert s'.(done := false) == s';
  }

  /** The thread looked at is finished and taken whole; the next one is looked at. */
  lemma TakeThread(s: State, te: nat, payload: seq<nat>)
    requires Inv(s) && !s.done && Collected(s, te, payload) && s.buffers[te].flag && te + 1 < |s.buffers|
    requires s.buffers[te].sent <= |s.buffers[te].data|
    requires |payload| + |s.buffers[te].data| - s.buffers[te].sent <= s.cap
    ensures var b := s.buffers[te];
            Collected(s, te + 1, payload + b.data[b.sent..])
  {
    var b := s.buffers[te];
    if te == s.cur {
      assert Joined(s.buffers, te + 1, te + 1) == [];
      assert payload + b.data[b.sent..] == b.data[b.sent..] + [];
    } else {
      JoinedSplit(s.buffers, s.cur + 1, te, te + 1);
      JoinedOne(s.buffers, te);
      assert b.data[0..] == b.data;
      Assoc(s.buffers[s.cur].data[s.buffers[s.cur].sent..], Joined(s.buffers, s.cur + 1, te), b.data);
    }
  }

  /** The last thread is taken whole: the end packet completes the frame. */
  lemma CommitLast(s: State, te: nat, payload: seq<nat>)
    requires Inv(s) && !s.done && Collected(s, te, payload) && s.buffers[te].flag && te + 1 == |s.buffers|
    requires s.buffers[te].sent <= |s.buffers[te].data|
    requires |payload| + |s.buffers[te].data| - s.buffers[te].sent <= s.cap
    ensures var b := s.buffers[te];
            Inv(Emit(s.(cur := 0, done := true), payload + b.data[b.sent..], true))
  {
    var b := s.buffers[te];
    var more := b.data[b.sent..];
    var s1 := s.(cur := 0);
    var s' := Emit(s.(cur := 0, done := true), payload + more, true);
    CollectedStream(s, te, payload);
    Assoc(Payloads(s.out), payload, more);
    assert b.data[..b.sent] + more == b.data;
    Assoc(Joined(s.buffers, 0, te), b.data[..b.sent], more);
    JoinedSplit(s.buffers, 0, te, te + 1);
    JoinedOne(s.buffers, te);
    hide Joined, Payloads, Collected;
    KeepsPackets(s, s1);
    EmitPackets(s1, payload + more, true);
    hide PacketsOk;
    assert Emit(s1, payload + more, true).(done := true) == s';
  }

  lemma GiveUpInv(s: State)
    requires Inv(s) && !s.done
    ensures Inv(s.(sender := Idle))
  {
    KeepsPackets(s, s.(sender := Idle));
  }

  /** What holds when the position of a thread is loaded. */
  lemma AtPosFacts(s: State, te: nat, payload: seq<nat>, flag: bool)
    requires Inv(s) && !s.done && s.sender == AtPos(te, payload, flag)
    ensures Collected(s, te, payload) && (flag ==> te < |s.buffers| && s.buffers[te].flag)
    ensures te < |s.buffers| && |payload| <= s.cap && s.buffers[te].sent <= |s.buffers[te].data|
  {
    CollectedStream(s, te, payload);
  }

  lemma LookFurther(s: State, te: nat, payload: seq<nat>)
    requires Inv(s) && !s.done && Collected(s, te, payload)
    ensures Inv(s.(sender := AtFlag(te, payload)))
  {
    KeepsPackets(s, s.(sender := AtFlag(te, payload)));
    hide PacketsOk, Joined, Payloads;
  }

  lemma CollectedBound(s: State, te: nat, payload: seq<nat>)
    requires Collected(s, te, payload)
    ensures te < |s.buffers| && |payload| <= s.cap
  {
    hide Joined;
  }

  /** What the decision is when the rest of a finished thread fits into the packet. */
  lemma TakesWhole(s: State, te: nat, payload: seq<nat>)
    requires te < |s.buffers| && |payload| <= s.cap && s.buffers[te].sent <= |s.buffers[te].data|
    requires |payload| + |s.buffers[te].data| - s.buffers[te].sent <= s.cap
    ensures var more := s.buffers[te].data[s.buffers[te].sent..];
            Decide(s, te, payload, true) ==
              if te + 1 < |s.buffers| then s.(sender := AtFlag(te + 1, payload + more))
              else Emit(s.(cur := 0, done := true), payload + more, true)
  {
    hide Emit;
    var b := s.buffers[te];
    assert b.data[b.sent..|b.data|] == b.data[b.sent..];
  }

  /** The rest of a finished thread fits into the packet. */
  lemma DecideThread(s: State, te: nat, payload: seq<nat>)
    requires Inv(s) && !s.done && Collected(s, te, payload) && s.buffers[te].flag
    requires s.buffers[te].sent <= |s.buffers[te].data|
    requires |payload| + |s.buffers[te].data| - s.buffers[te].sent <= s.cap
    ensures Inv(Decide(s, te, payload, true))
  {
    hide Inv, Collected, Decide, Emit;
    CollectedBound(s, te, payload);
    TakesWhole(s, te, payload);
    var b := s.buffers[te];
    if te + 1 < |s.buffers| {
      TakeThread(s, te, payload);
      LookFurther(s, te + 1, payload + b.data[b.sent..]);
    } else {
      CommitLast(s, te, payload);
    }
  }

  /** The packet is filled before the thread is finished. */
  lemma DecideMiddle(s: State, te: nat, payload: seq<nat>, flag: bool)
    requires Inv(s) && !s.done && Collected(s, te, payload) && s.buffers[te].sent <= |s.buffers[te].data|
    requires s.buffers[te].sent < |s.buffers[te].data| || flag
    requires |payload| + |s.buffers[te].data| - s.buffers[te].sent >= s.cap
    requires !flag || |payload| + |s.buffers[te].data| - s.buffers[te].sent > s.cap
    ensures Inv(Decide(s, te, payload, flag))
  {
    CommitMiddle(s, te, payload, s.cap - |payload|);
    hide Inv, Collected, Emit;
  }

  lemma DecideInv(s: State, te: nat, payload: seq<nat>, flag: bool)
    requires Inv(s) && !s.done && s.sender == AtPos(te, payload, flag)
    ensures te < |s.buffers| && |payload| <= s.cap && s.buffers[te].sent <= |s.buffers[te].data|
    ensures Inv(Decide(s, te, payload, flag))
  {
    AtPosFacts(s, te, payload, flag);
    GiveUpInv(s);
    hide Inv, Collected, Emit;
    var b := s.buffers[te];
    if flag && |payload| + |b.data| - b.sent <= s.cap {
      DecideThread(s, te, payload);
    } else if (b.sent < |b.data| || flag) && |payload| + |b.data| - b.sent >= s.cap {
      DecideMiddle(s, te, payload, flag);
    } else {
      assert Decide(s, te, payload, flag) == s.(sender := Idle);
    }
  }

  lemma StartCollected(s: State)
    requires Inv(s) && !s.done
    ensures Collected(s, s.cur, [])
  {
    hide PacketsOk, Payloads;
  }

  lemma LoadFlag(s: State, te: nat, payload: seq<nat>)
    requires Inv(s) && !s.done && s.sender == AtFlag(te, payload)
    ensures te < |s.buffers| && Inv(s.(sender := AtPos(te, payload, s.buffers[te].flag)))
  {
    KeepsPackets(s, s.(sender := AtPos(te, payload, s.buffers[te].flag)));
    hide PacketsOk, Joined, Payloads;
  }

  lemma LoadInv(s: State)
    requires Inv(s) && !s.done && !s.sender.AtPos?
    ensures Inv(Step(s, SenderStep))
  {
    hide Inv;
    match s.sender
    case Idle =>
      StartCollected(s);
      LookFurther(s, s.cur, []);
    case AtFlag(te, payload) => LoadFlag(s, te, payload);
  }

  /** Every step of any thread keeps the invariant. */
  lemma StepInv(s: State, e: Event)
    requires Inv(s) && Enabled(s, e)
    ensures Inv(Step(s, e))
  {
    hide Inv, Decide;
    match e
    case Append(k, bytes) => AppendInv(s, k, bytes);
    case Finish(k) => FinishInv(s, k);
    case SenderStep =>
      if !s.done {
        match s.sender
        case AtPos(te, payload, flag) => DecideInv(s, te, payload, flag);
        case _ => LoadInv(s);
      }
  }

  // ----- Whole runs -----

  /** The state a run of steps reaches; an append after the thread's end flag makes the run impossible. */
  datatype Outcome = Reached(state: State) | Impossible

  ghost function Run(cap: nat, threads: nat, events: seq<Event>): (o: Outcome)
    requires cap > 0 && threads > 0
    ensures o.Reached? ==> Inv(o.state) && o.state.cap == cap && |o.state.buffers| == threads
    decreases |events|
  {
    if events == [] then InitialInv(cap, threads); Reached(Initial(cap, threads))
    else
      var n := |events| - 1;
      hide Inv;
      match Run(cap, threads, events[..n])
      case Impossible => Impossible
      case Reached(s) =>
        if Enabled(s, events[n]) then StepInv(s, events[n]); StepShape(s, events[n]); Reached(Step(s, events[n]))
        else Impossible
  }

  lemma InitialInv(cap: nat, threads: nat)
    requires cap > 0 && threads > 0
    ensures Inv(Initial(cap, threads))
  {
  }

  lemma StepShape(s: State, e: Event)
    requires Inv(s) && Enabled(s, e)
    ensures Step(s, e).cap == s.cap && |Step(s, e).buffers| == |s.buffers|
  {
    hide Joined, Payloads, PacketsOk;
    if e.SenderStep? && !s.done && s.sender.AtPos? {
      AtPosFacts(s, s.sender.te, s.sender.payload, s.sender.flag);
    }
  }

  /** The data appended to thread `k` in the order of the events. */
  function AppendedTo(events: seq<Event>, k: nat): (d: seq<nat>)
    decreases |events|
  {
    if events == [] then []
    else
      var n := |events| - 1;
      AppendedTo(events[..n], k) + (if events[n].Append? && events[n].k == k then events[n].bytes else [])
  }

  /** A thread's buffer holds what it has appended. */
  lemma {:induction false} BuffersHold(cap: nat, threads: nat, events: seq<Event>, k: nat)
    requires cap > 0 && k < threads && Run(cap, threads, events).Reached?
    ensures Run(cap, threads, events).state.buffers[k].data == AppendedTo(events, k)
    decreases |events|
  {
    if events != [] {
      var n := |events| - 1;
      BuffersHold(cap, threads, events[..n], k);
      StepData(Run(cap, threads, events[..n]).state, events[n], k);
    }
  }

  lemma StepData(s: State, e: Event, k: nat)
    requires Inv(s) && Enabled(s, e) && k < |s.buffers|
    ensures |Step(s, e).buffers| == |s.buffers|
    ensures Step(s, e).buffers[k].data == s.buffers[k].data + (if e.Append? && e.k == k then e.bytes else [])
  {
    StepShape(s, e);
    hide Joined, Payloads, PacketsOk;
    NoMore(s.buffers[k].data);
    if e.SenderStep? && !s.done && s.sender.AtPos? {
      AtPosFacts(s, s.sender.te, s.sender.payload, s.sender.flag);
    }
  }

  /** The data of all threads up to `to`, in thread order. */
  function AllAppended(events: seq<Event>, to: nat): (d: seq<nat>) {
    if to == 0 then [] else AllAppended(events, to - 1) + AppendedTo(events, to - 1)
  }

  lemma {:induction false} JoinedIsAppended(cap: nat, threads: nat, events: seq<Event>, n: nat)
    requires cap > 0 && 0 < threads && n <= threads && Run(cap, threads, events).Reached?
    ensures Joined(Run(cap, threads, events).state.buffers, 0, n) == AllAppended(events, n)
    decreases n
  {
    if n != 0 {
      var buffers := Run(cap, threads, events).state.buffers;
      JoinedIsAppended(cap, threads, events, n - 1);
      JoinedSplit(buffers, 0, n - 1, n);
      JoinedOne(buffers, n - 1);
      BuffersHold(cap, threads, events, n - 1);
    }
  }

  /**
   For any interleaving, the packets sent so far are a prefix of the data of thread 0, then thread 1, and
   so on; when the frame is done, they are all of it. Every packet but the last is full, only the last of a
   finished frame carries the end mark, and the header counter numbers them.
   */
  lemma SentIsJoined(cap: nat, threads: nat, events: seq<Event>)
    requires cap > 0 && threads > 0 && Run(cap, threads, events).Reached?
    ensures var s := Run(cap, threads, events).state;
            && Payloads(s.out) <= AllAppended(events, threads)
            && (s.done ==> Payloads(s.out) == AllAppended(events, threads))
            && (forall i :: 0 <= i < |s.out| ==>
                  (s.out[i].end <==> s.done && i == |s.out| - 1) && s.out[i].seqNo == i % 256
                  && |s.out[i].payload| <= cap && (!s.out[i].end ==> |s.out[i].payload| == cap))
  {
    var s := Run(cap, threads, events).state;
    JoinedIsAppended(cap, threads, events, threads);
    hide Run, AllAppended;
    if !s.done {
      PartOfJoined(s);
    }
  }

  lemma PartOfJoined(s: State)
    requires StreamOk(s) && !s.done
    ensures Payloads(s.out) <= Joined(s.buffers, 0, |s.buffers|)
  {
    var b := s.buffers[s.cur];
    JoinedSplit(s.buffers, 0, s.cur, |s.buffers|);
    var rest := Joined(s.buffers, s.cur + 1, |s.buffers|);
    assert b.data[..b.sent] + b.data[b.sent..] == b.data;
    Assoc(b.data[..b.sent], b.data[b.sent..], rest);
    Assoc(Joined(s.buffers, 0, s.cur), b.data[..b.sent], b.data[b.sent..] + rest);
  }

  // ----- A step that gives up commits nothing; a finished frame is always sent -----

  /** A sender step that sends no packet changes nothing but the sender's own place. */
  lemma NoPacketNoChange(s: State)
    requires Inv(s) && Step(s, SenderStep).out == s.out
    ensures Step(s, SenderStep) == s.(sender := Step(s, SenderStep).sender)
  {
    hide Joined, Payloads, PacketsOk;
    if !s.done && s.sender.AtPos? {
      AtPosFacts(s, s.sender.te, s.sender.payload, s.sender.flag);
    }
  }

  ghost predicate Finished(s: State) {
    forall k :: 0 <= k < |s.buffers| ==> s.buffers[k].flag
  }

  /** The sender alone takes `m` steps. */
  ghost function Alone(s: State, m: nat): (s': State)
    requires Inv(s)
    ensures Inv(s')
    decreases m
  {
    hide Inv;
    if m == 0 then s else StepInv(s, SenderStep); Alone(Step(s, SenderStep), m - 1)
  }

  /** The sender never changes what the threads wrote. */
  lemma SenderKeepsData(s: State)
    requires Inv(s) && Finished(s)
    ensures var s' := Step(s, SenderStep);
            && Finished(s') && |s'.buffers| == |s.buffers| && s'.cap == s.cap
            && (forall k :: 0 <= k < |s.buffers| ==> s'.buffers[k].data == s.buffers[k].data)
  {
    hide Joined, Payloads, PacketsOk;
    if !s.done && s.sender.AtPos? {
      AtPosFacts(s, s.sender.te, s.sender.payload, s.sender.flag);
    }
  }

  /** Looking at a thread of a finished frame sends a packet or moves on to the next thread. */
  lemma TwoSteps(s: State)
    requires Inv(s) && !s.done && Finished(s) && s.sender.AtFlag?
    ensures Inv(Step(s, SenderStep))
    ensures var s2 := Step(Step(s, SenderStep), SenderStep);
            && Inv(s2)
            && (|s2.out| == |s.out| + 1
                || (s2.out == s.out && !s2.done && s2.sender.AtFlag? && s2.sender.te == s.sender.te + 1 < |s.buffers|))
  {
    StepInv(s, SenderStep);
    StepInv(Step(s, SenderStep), SenderStep);
    var te, payload := s.sender.te, s.sender.payload;
    var s1 := Step(s, SenderStep);
    AtPosFacts(s1, te, payload, true);
    hide Inv, Joined, Payloads, PacketsOk, Collected;
  }

  /** When all threads have finished, the sender's next packet comes within two steps for each thread. */
  lemma {:induction false} SendsFrom(s: State) returns (m: nat)
    requires Inv(s) && !s.done && Finished(s) && s.sender.AtFlag?
    ensures |Alone(s, m).out| == |s.out| + 1 && m <= 2 * (|s.buffers| - s.sender.te)
    decreases |s.buffers| - s.sender.te
  {
    hide Inv, Step, Alone, Finished;
    InRange(s);
    TwoSteps(s);
    SenderKeepsData(s);
    SenderKeepsData(Step(s, SenderStep));
    var s2 := Step(Step(s, SenderStep), SenderStep);
    AloneTwo(s);
    if |s2.out| == |s.out| + 1 {
      m := 2;
    } else {
      var m' := SendsFrom(s2);
      AloneAdd(s, 2, m');
      m := 2 + m';
    }
  }

  lemma InRange(s: State)
    requires Inv(s) && !s.done && s.sender.AtFlag?
    ensures s.sender.te < |s.buffers|
  {
  }

  lemma AloneTwo(s: State)
    requires Inv(s) && Inv(Step(s, SenderStep))
    ensures Alone(s, 2) == Step(Step(s, SenderStep), SenderStep)
  {
    hide Inv, Step;
    var s1 := Step(s, SenderStep);
    assert Alone(s1, 1) == Alone(Step(s1, SenderStep), 0);
  }

  lemma {:induction false} AloneAdd(s: State, a: nat, b: nat)
    requires Inv(s)
    ensures Alone(s, a + b) == Alone(Alone(s, a), b)
    decreases a
  {
    hide Inv, Step;
    if a != 0 {
      StepInv(s, SenderStep);
      AloneAdd(Step(s, SenderStep), a - 1, b);
    }
  }

  lemma {:induction false} AloneKeepsData(s: State, m: nat)
    requires Inv(s) && Finished(s)
    ensures var s' := Alone(s, m);
            && Finished(s') && |s'.buffers| == |s.buffers| && s'.cap == s.cap
            && (forall k :: 0 <= k < |s.buffers| ==> s'.buffers[k].data == s.buffers[k].data)
    decreases m
  {
    hide Inv, Step;
    if m != 0 {
      StepInv(s, SenderStep);
      SenderKeepsData(s);
      AloneKeepsData(Step(s, SenderStep), m - 1);
    }
  }

  /** Bytes of the frame not yet sent. */
  ghost function Unsent(s: State): (n: int) {
    |Joined(s.buffers, 0, |s.buffers|)| - |Payloads(s.out)|
  }

  lemma UnsentNat(s: State)
    requires Inv(s)
    ensures Unsent(s) >= 0
  {
    if !s.done {
      PartOfJoined(s);
    }
  }

  lemma {:induction false} FullLength(out: seq<Packet>, cap: nat)
    requires forall i :: 0 <= i < |out| ==> |out[i].payload| == cap
    ensures |Payloads(out)| == |out| * cap
    decreases |out|
  {
    if out != [] {
      FullLength(out[..|out| - 1], cap);
      MulNext(|out| - 1, cap);
    }
  }

  /** Sending a packet that does not finish the frame leaves fewer bytes to send. */
  lemma FewerUnsent(s: State, s': State)
    requires Inv(s) && Inv(s') && !s.done && !s'.done && |s.out| < |s'.out| && s'.cap == s.cap
    requires |s.buffers| == |s'.buffers| && forall k :: 0 <= k < |s.buffers| ==> s'.buffers[k].data == s.buffers[k].data
    ensures Unsent(s') < Unsent(s)
  {
    hide StreamOk, SenderOk;
    JoinedSame(s.buffers, s'.buffers, 0, |s.buffers|);
    FullLength(s.out, s.cap);
    FullLength(s'.out, s.cap);
    hide Joined, Payloads, PacketsOk;
    MulLess(|s.out|, |s'.out|, s.cap);
  }

  lemma MulNext(n: nat, c: nat)
    ensures (n + 1) * c == n * c + c
  {
  }

  lemma MulLess(a: nat, b: nat, c: nat)
    requires a < b && c > 0
    ensures a * c < b * c
  {
  }

  /** Packets already sent stay as they are. */
  lemma {:induction false} AloneExtends(s: State, m: nat)
    requires Inv(s)
    ensures |s.out| <= |Alone(s, m).out| && Alone(s, m).out[..|s.out|] == s.out
    decreases m
  {
    hide Inv, Step;
    if m == 0 {
      assert s.out[..|s.out|] == s.out;
    } else {
      StepInv(s, SenderStep);
      var s1 := Step(s, SenderStep);
      StepExtends(s);
      AloneExtends(s1, m - 1);
      assert Alone(s, m).out[..|s.out|] == Alone(s, m).out[..|s1.out|][..|s.out|];
    }
  }

  lemma StepExtends(s: State)
    requires Inv(s)
    ensures |s.out| <= |Step(s, SenderStep).out| && Step(s, SenderStep).out[..|s.out|] == s.out
  {
    hide Joined, Payloads, PacketsOk;
    assert s.out[..|s.out|] == s.out;
    if !s.done && s.sender.AtPos? {
      AtPosFacts(s, s.sender.te, s.sender.payload, s.sender.flag);
    }
  }

  /** A sender that is not looking at a flag gets there, or sends a packet, in one or two steps. */
  lemma GetsToFlag(s: State) returns (m: nat)
    requires Inv(s) && !s.done && Finished(s)
    ensures m <= 2 && Inv(Alone(s, m))
    ensures |Alone(s, m).out| > |s.out| || (Alone(s, m).out == s.out && !Alone(s, m).done && Alone(s, m).sender.AtFlag?)
  {
    StepInv(s, SenderStep);
    StepInv(Step(s, SenderStep), SenderStep);
    AloneTwo(s);
    AloneOne(s);
    if s.sender.AtPos? {
      AtPosFacts(s, s.sender.te, s.sender.payload, s.sender.flag);
    }
    hide Inv, Joined, Payloads, PacketsOk, Collected, Alone;
    assert Alone(s, 0) == s by {
      AloneNone(s);
    }
    if s.sender.AtFlag? {
      m := 0;
    } else if s.sender.AtPos? && Step(s, SenderStep).sender.Idle? && !(|Step(s, SenderStep).out| > |s.out|) {
      m := 2;
    } else {
      m := 1;
    }
  }

  lemma AloneNone(s: State)
    requires Inv(s)
    ensures Alone(s, 0) == s
  {
  }

  lemma AloneOne(s: State)
    requires Inv(s) && Inv(Step(s, SenderStep))
    ensures Alone(s, 1) == Step(s, SenderStep)
  {
    hide Inv, Step;
  }

  /** Once all threads have finished, the sender alone completes the frame. */
  lemma {:induction false} Completes(s: State) returns (m: nat)
    requires Inv(s) && Finished(s)
    ensures Alone(s, m).done
    decreases Unsent(s)
  {
    hide Inv, Step, Unsent, Alone, Finished;
    AloneNone(s);
    if s.done {
      m := 0;
    } else {
      var m1 := GetsToFlag(s);
      var s1 := Alone(s, m1);
      AloneKeepsData(s, m1);
      var m2 := 0;
      if |s1.out| == |s.out| {
        m2 := SendsFrom(s1);
      }
      AloneAdd(s, m1, m2);
      var s2 := Alone(s, m1 + m2);
      AloneKeepsData(s, m1 + m2);
      AloneExtends(s, m1 + m2);
      if s2.done {
        m := m1 + m2;
      } else {
        UnsentNat(s2);
        FewerUnsent(s, s2);
        var m3 := Completes(s2);
        AloneAdd(s, m1 + m2, m3);
        m := m1 + m2 + m3;
      }
    }
  }
}
