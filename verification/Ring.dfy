/**
 The semaphore ring that passes pointers between threads: producers put pointers into slots under a mutex
 and release the semaphore; one consumer waits for the semaphore and empties slots. Every memory access is
 a step of its own, and all interleavings are considered.
 */
module Ring {
  import opened Bits

  /** A producer inside `rp_syn_rel1` with its pointer. */
  datatype Producer = Idle | Waiting(p: nat) | Locked(p: nat) | Wrote(p: nat) | Advanced(p: nat) | Unlocked(p: nat)

  /** The consumer inside `rp_syn_acq`; the pointer is what it read. */
  datatype Consumer = Resting | Acquired | HasRead(p: nat) | Cleared(p: nat)

  /**
   Slots hold zero when empty. `log` lists the pointers in the order in which they were written, `delivered`
   what the consumer returned. `heads` and `tails` count the advances of the two ends.
   */
  datatype State = State(count: nat, slots: seq<nat>, head: nat, tail: nat, sem: nat, locked: bool,
                         producers: seq<Producer>, consumer: Consumer,
                         log: seq<nat>, delivered: seq<nat>, heads: nat, tails: nat)

  function Initial(count: nat, producers: nat): (s: State) {
    State(count, seq(count, i => 0), 0, 0, 0, false, seq(producers, i => Idle), Resting, [], [], 0, 0)
  }

  /** Producers that have taken a pointer but not written it yet. */
  predicate IsPending(p: Producer) {
    p.Waiting? || p.Locked?
  }

  /** Producers that have advanced the head but not yet released the semaphore. */
  predicate IsLate(p: Producer) {
    p.Advanced? || p.Unlocked?
  }

  function Pending(ps: seq<Producer>): (n: nat) {
    if ps == [] then 0 else Pending(ps[..|ps| - 1]) + (if IsPending(ps[|ps| - 1]) then 1 else 0)
  }

  function Late(ps: seq<Producer>): (n: nat) {
    if ps == [] then 0 else Late(ps[..|ps| - 1]) + (if IsLate(ps[|ps| - 1]) then 1 else 0)
  }

  /** Pointers on their way: handed to `rp_syn_rel1` and not yet cleared from their slot by the consumer. */
  function Outstanding(s: State): (n: int) {
    |s.log| - s.tails - (if s.consumer.Cleared? then 1 else 0) + Pending(s.producers)
  }

  datatype Event = Start(k: nat, p: nat) | Move(k: nat) | Consume

  /** The callers of the ring never have more than `count` pointers on their way. */
  predicate Enabled(s: State, e: Event) {
    match e
    case Start(k, p) => k < |s.producers| && s.producers[k].Idle? && p > 0 && Outstanding(s) < s.count
    case Move(k) => k < |s.producers|
    case Consume => true
  }

  /** The next access of a producer; it stays where it is while the mutex is taken. */
  function MoveProducer(s: State, k: nat): (s': State)
    requires s.count > 0 && |s.slots| == s.count && s.head < s.count && k < |s.producers|
  {
    match s.producers[k]
    case Idle => s
    case Waiting(p) => if s.locked then s else s.(locked := true, producers := s.producers[k := Locked(p)])
    case Locked(p) => s.(slots := s.slots[s.head := p], log := s.log + [p], producers := s.producers[k := Wrote(p)])
    case Wrote(p) =>
      s.(head := (s.head + 1) % s.count, heads := s.heads + 1, producers := s.producers[k := Advanced(p)])
    case Advanced(p) => s.(locked := false, producers := s.producers[k := Unlocked(p)])
    case Unlocked(p) => s.(sem := s.sem + 1, producers := s.producers[k := Idle])
  }

  /** The next access of the consumer; it rests while the semaphore is zero. */
  function MoveConsumer(s: State): (s': State)
    requires s.count > 0 && |s.slots| == s.count && s.tail < s.count
  {
    match s.consumer
    case Resting => if s.sem == 0 then s else s.(sem := s.sem - 1, consumer := Acquired)
    case Acquired => s.(consumer := HasRead(s.slots[s.tail]))
    case HasRead(p) => s.(slots := s.slots[s.tail := 0], consumer := Cleared(p))
    case Cleared(p) =>
      s.(tail := (s.tail + 1) % s.count, tails := s.tails + 1, delivered := s.delivered + [p], consumer := Resting)
  }

  function Step(s: State, e: Event): (s': State)
    requires Inv(s) && Enabled(s, e)
  {
    match e
    case Start(k, p) => s.(producers := s.producers[k := Waiting(p)])
    case Move(k) => MoveProducer(s, k)
    case Consume => MoveConsumer(s)
  }

  // ----- The invariant -----

  /** The first pointer still in a slot. */
  function First(s: State): (n: nat) {
    s.tails + (if s.consumer.Cleared? then 1 else 0)
  }

  /** The producer in the critical section, if any. */
  predicate Inside(p: Producer) {
    p.Locked? || p.Wrote? || p.Advanced?
  }

  ghost predicate MutexOk(s: State) {
    && (s.locked <==> exists k :: 0 <= k < |s.producers| && Inside(s.producers[k]))
    && (forall j, k | 0 <= j < |s.producers| && 0 <= k < |s.producers| ::
          Inside(s.producers[j]) && Inside(s.producers[k]) ==> j == k)
    && (forall k :: 0 <= k < |s.producers| && s.producers[k].Wrote? ==> |s.log| == s.heads + 1)
    && ((forall k :: 0 <= k < |s.producers| ==> !s.producers[k].Wrote?) ==> |s.log| == s.heads)
    && (forall k :: 0 <= k < |s.producers| && !s.producers[k].Idle? ==> s.producers[k].p > 0)
  }

  /** The slots hold the written pointers that have not been cleared, and nothing else. */
  ghost predicate SlotsOk(s: State) {
    && s.count > 0 && |s.slots| == s.count && s.head == s.heads % s.count && s.tail == s.tails % s.count
    && First(s) <= |s.log| <= First(s) + s.count
    && (forall n: nat {:trigger s.log[n]} :: First(s) <= n < |s.log| ==> s.slots[n % s.count] == s.log[n])
    && (forall n: nat {:trigger s.slots[n % s.count]} :: |s.log| <= n < First(s) + s.count ==>
          s.slots[n % s.count] == 0)
    && (forall n :: 0 <= n < |s.log| ==> s.log[n] > 0)
  }

  /** The semaphore counts the advances of the head that the consumer has not acquired yet. */
  ghost predicate SemOk(s: State) {
    && s.sem + Late(s.producers) + (if s.consumer.Resting? then 0 else 1) == s.heads - s.tails
    && Outstanding(s) <= s.count
  }

  ghost predicate ConsumerOk(s: State) {
    && s.tails <= |s.log| && s.delivered == s.log[..s.tails]
    && (s.consumer.HasRead? || s.consumer.Cleared? ==> s.tails < |s.log| && s.consumer.p == s.log[s.tails])
  }

  ghost predicate Inv(s: State) {
    MutexOk(s) && SlotsOk(s) && SemOk(s) && ConsumerOk(s)
  }

  // ----- Counting -----

  lemma {:induction false} CountUpdate(ps: seq<Producer>, k: nat, p: Producer)
    requires k < |ps|
    ensures Pending(ps[k := p]) + (if IsPending(ps[k]) then 1 else 0) == Pending(ps) + (if IsPending(p) then 1 else 0)
    ensures Late(ps[k := p]) + (if IsLate(ps[k]) then 1 else 0) == Late(ps) + (if IsLate(p) then 1 else 0)
    decreases |ps|
  {
    var n := |ps| - 1;
    if k < n {
      CountUpdate(ps[..n], k, p);
      assert ps[k := p][..n] == ps[..n][k := p];
    } else {
      assert ps[k := p][..n] == ps[..n];
    }
  }

  lemma {:induction false} PendingPositive(ps: seq<Producer>, k: nat)
    requires k < |ps|
    ensures IsPending(ps[k]) ==> Pending(ps) >= 1
    ensures IsLate(ps[k]) ==> Late(ps) >= 1
    decreases |ps|
  {
    if k < |ps| - 1 {
      PendingPositive(ps[..|ps| - 1], k);
    }
  }

  /** Numbers less than the ring size apart fall into different slots. */
  lemma DifferentSlots(a: nat, b: nat, count: nat)
    requires a < b < a + count
    ensures a % count != b % count
  {
    var qa, qb := a / count, b / count;
    DivMod(a, count);
    DivMod(b, count);
    if qb <= qa {
      MulMono(qb, qa, count);
    } else {
      MulMono(qa + 1, qb, count);
    }
  }

  lemma NextSlot(n: nat, count: nat)
    requires count > 0
    ensures (n % count + 1) % count == (n + 1) % count
  {
    if n % count + 1 < count {
      SlotInside(n, count);
    } else {
      SlotWraps(n, count);
    }
  }

  lemma SlotInside(n: nat, count: nat)
    requires count > 0 && n % count + 1 < count
    ensures (n + 1) % count == n % count + 1 == (n % count + 1) % count
  {
    DivMod(n, count);
    NextInside(n, n / count, n % count, count);
  }

  lemma NextInside(n: nat, q: nat, r: nat, count: nat)
    requires count > 0 && n == q * count + r && r + 1 < count
    ensures (n + 1) % count == r + 1 == (r + 1) % count
  {
    MulDivExact(q, count, r + 1);
  }

  lemma SlotWraps(n: nat, count: nat)
    requires count > 0 && n % count + 1 == count
    ensures (n + 1) % count == 0 && count % count == 0
  {
    DivMod(n, count);
    MulDivExact(n / count + 1, count, 0);
  }

  // ----- Producers -----

  lemma StartInv(s: State, k: nat, p: nat)
    requires Inv(s) && Enabled(s, Start(k, p))
    ensures Inv(Step(s, Start(k, p)))
  {
    var s' := Step(s, Start(k, p));
    CountUpdate(s.producers, k, Waiting(p));
    StartMutex(s, k, p);
    hide Pending, Late, SlotsOk, ConsumerOk, MutexOk;
    SameSlots(s, s');
    SameConsumer(s, s');
  }

  lemma StartMutex(s: State, k: nat, p: nat)
    requires MutexOk(s) && k < |s.producers| && s.producers[k].Idle? && p > 0
    ensures MutexOk(s.(producers := s.producers[k := Waiting(p)]))
  {
    var s' := s.(producers := s.producers[k := Waiting(p)]);
    forall j | 0 <= j < |s.producers|
      ensures Inside(s'.producers[j]) == Inside(s.producers[j]) && s'.producers[j].Wrote? == s.producers[j].Wrote?
    {
    }
    if s.locked {
      var j :| 0 <= j < |s.producers| && Inside(s.producers[j]);
      assert Inside(s'.producers[j]);
    }
  }

  lemma SameSlots(s: State, s': State)
    requires SlotsOk(s) && s'.count == s.count && s'.slots == s.slots && s'.head == s.head && s'.tail == s.tail
    requires s'.heads == s.heads && s'.tails == s.tails && s'.log == s.log && First(s') == First(s)
    ensures SlotsOk(s')
  {
  }

  lemma SameConsumer(s: State, s': State)
    requires ConsumerOk(s) && s'.tails == s.tails && s'.delivered == s.delivered && s'.consumer == s.consumer
    requires s.log <= s'.log
    ensures ConsumerOk(s')
  {
  }

  lemma LockInv(s: State, k: nat)
    requires Inv(s) && k < |s.producers| && s.producers[k].Waiting? && !s.locked
    ensures Inv(MoveProducer(s, k))
  {
    var s' := MoveProducer(s, k);
    CountUpdate(s.producers, k, Locked(s.producers[k].p));
    hide Pending, Late, SlotsOk, ConsumerOk;
    SameSlots(s, s');
    SameConsumer(s, s');
    assert Inside(s'.producers[k]);
    forall j | 0 <= j < |s.producers| && j != k ensures s'.producers[j] == s.producers[j] && !Inside(s.producers[j]) {
    }
  }

  /** The slot a producer writes is empty. */
  lemma WritesEmpty(s: State, k: nat)
    requires Inv(s) && k < |s.producers| && s.producers[k].Locked?
    ensures |s.log| == s.heads && |s.log| < First(s) + s.count && s.head < |s.slots| && s.slots[s.head] == 0
  {
    PendingPositive(s.producers, k);
    hide Pending, Late, ConsumerOk;
    assert Inside(s.producers[k]);
    assert s.slots[|s.log| % s.count] == 0;
  }

  lemma WriteSlots(s: State, s': State, p: nat)
    requires SlotsOk(s) && |s.log| == s.heads < First(s) + s.count && p > 0
    requires s'.slots == s.slots[s.head := p] && s'.log == s.log + [p] && s'.count == s.count
    requires s'.head == s.head && s'.tail == s.tail && s'.heads == s.heads && s'.tails == s.tails
    requires First(s') == First(s)
    ensures SlotsOk(s')
  {
    var w := |s.log|;
    forall n: nat {:trigger s'.log[n]} | First(s) <= n < w + 1 ensures s'.slots[n % s.count] == s'.log[n] {
      if n < w {
        DifferentSlots(n, w, s.count);
        assert s.slots[n % s.count] == s.log[n];
      }
    }
    forall n: nat {:trigger s'.slots[n % s.count]} | w + 1 <= n < First(s) + s.count
      ensures s'.slots[n % s.count] == 0
    {
      DifferentSlots(w, n, s.count);
      assert s.slots[n % s.count] == 0;
    }
  }

  lemma WriteInv(s: State, k: nat)
    requires Inv(s) && k < |s.producers| && s.producers[k].Locked?
    ensures Inv(MoveProducer(s, k))
  {
    var p := s.producers[k].p;
    var s' := MoveProducer(s, k);
    WritesEmpty(s, k);
    CountUpdate(s.producers, k, Wrote(p));
    WriteSlots(s, s', p);
    hide Pending, Late, SlotsOk, ConsumerOk;
    SameConsumer(s, s');
    assert Inside(s.producers[k]) && s'.producers[k].Wrote?;
    forall j | 0 <= j < |s.producers| && j != k ensures s'.producers[j] == s.producers[j] && !Inside(s.producers[j]) {
    }
  }

  lemma AdvanceInv(s: State, k: nat)
    requires Inv(s) && k < |s.producers| && s.producers[k].Wrote?
    ensures Inv(MoveProducer(s, k))
  {
    var s' := MoveProducer(s, k);
    CountUpdate(s.producers, k, Advanced(s.producers[k].p));
    NextSlot(s.heads, s.count);
    assert SlotsOk(s') by {
      hide MutexOk, SemOk, ConsumerOk, Pending, Late;
    }
    hide Pending, Late, SlotsOk, ConsumerOk;
    SameConsumer(s, s');
    assert Inside(s.producers[k]) && Inside(s'.producers[k]);
    forall j | 0 <= j < |s.producers| && j != k ensures s'.producers[j] == s.producers[j] && !Inside(s.producers[j]) {
    }
  }

  lemma UnlockInv(s: State, k: nat)
    requires Inv(s) && k < |s.producers| && s.producers[k].Advanced?
    ensures Inv(MoveProducer(s, k))
  {
    var s' := MoveProducer(s, k);
    CountUpdate(s.producers, k, Unlocked(s.producers[k].p));
    hide Pending, Late, SlotsOk, ConsumerOk;
    SameSlots(s, s');
    SameConsumer(s, s');
    assert Inside(s.producers[k]);
    forall j | 0 <= j < |s.producers|
      ensures !Inside(s'.producers[j]) && (j != k ==> s'.producers[j] == s.producers[j])
    {
    }
  }

  lemma ReleaseInv(s: State, k: nat)
    requires Inv(s) && k < |s.producers| && s.producers[k].Unlocked?
    ensures Inv(MoveProducer(s, k))
  {
    var s' := MoveProducer(s, k);
    CountUpdate(s.producers, k, Idle);
    hide Pending, Late, SlotsOk, ConsumerOk;
    SameSlots(s, s');
    SameConsumer(s, s');
    forall j | 0 <= j < |s.producers| && j != k ensures s'.producers[j] == s.producers[j] {
    }
    assert MutexOk(s');
  }

  // ----- The consumer -----

  /** The slot the consumer reads is full, and holds the oldest pointer not delivered. */
  lemma ReadsFull(s: State)
    requires Inv(s) && (s.consumer.Acquired? || s.consumer.HasRead?)
    ensures s.tails < |s.log| && s.tail < |s.slots| && s.slots[s.tail] == s.log[s.tails] > 0
  {
    hide Pending, Late;
    LogLength(s);
  }

  lemma LogLength(s: State)
    requires MutexOk(s)
    ensures s.heads <= |s.log| <= s.heads + 1
  {
    if k :| 0 <= k < |s.producers| && s.producers[k].Wrote? {
    }
  }

  lemma SameMutex(s: State, s': State)
    requires MutexOk(s) && s'.locked == s.locked && s'.producers == s.producers && s'.log == s.log
    requires s'.heads == s.heads
    ensures MutexOk(s')
  {
  }

  lemma AcquireInv(s: State)
    requires Inv(s) && s.consumer.Resting? && s.sem > 0
    ensures Inv(MoveConsumer(s))
  {
    var s' := MoveConsumer(s);
    hide Pending, Late, SlotsOk, MutexOk;
    SameSlots(s, s');
    SameMutex(s, s');
  }

  lemma ReadInv(s: State)
    requires Inv(s) && s.consumer.Acquired?
    ensures Inv(MoveConsumer(s))
  {
    ReadsFull(s);
    var s' := MoveConsumer(s);
    hide Pending, Late, SlotsOk, MutexOk;
    SameSlots(s, s');
    SameMutex(s, s');
  }

  lemma ClearSlots(s: State, s': State)
    requires SlotsOk(s) && s.consumer.HasRead? && s'.consumer.Cleared? && s.tails < |s.log|
    requires s'.slots == s.slots[s.tail := 0] && s'.log == s.log && s'.count == s.count
    requires s'.head == s.head && s'.tail == s.tail && s'.heads == s.heads && s'.tails == s.tails
    ensures SlotsOk(s')
  {
    var t, w := s.tails, |s.log|;
    forall n: nat {:trigger s'.log[n]} | t + 1 <= n < w ensures s'.slots[n % s.count] == s'.log[n] {
      DifferentSlots(t, n, s.count);
      assert s.slots[n % s.count] == s.log[n];
    }
    forall n: nat {:trigger s'.slots[n % s.count]} | w <= n < t + 1 + s.count ensures s'.slots[n % s.count] == 0 {
      if n < t + s.count {
        DifferentSlots(t, n, s.count);
        assert s.slots[n % s.count] == 0;
      } else {
        OneRound(t, s.count);
      }
    }
  }

  lemma OneRound(t: nat, count: nat)
    requires count > 0
    ensures (t + count) % count == t % count
  {
    DivMod(t, count);
    MulDivExact(t / count + 1, count, t % count);
  }

  lemma ClearInv(s: State)
    requires Inv(s) && s.consumer.HasRead?
    ensures Inv(MoveConsumer(s))
  {
    ReadsFull(s);
    var s' := MoveConsumer(s);
    ClearSlots(s, s');
    hide Pending, Late, SlotsOk, MutexOk;
    SameMutex(s, s');
  }

  lemma DeliverInv(s: State)
    requires Inv(s) && s.consumer.Cleared?
    ensures Inv(MoveConsumer(s))
  {
    var s' := MoveConsumer(s);
    NextSlot(s.tails, s.count);
    assert SlotsOk(s') by {
      hide MutexOk, SemOk, ConsumerOk, Pending, Late;
    }
    hide Pending, Late, SlotsOk, MutexOk;
    SameMutex(s, s');
    assert s.log[..s.tails] + [s.log[s.tails]] == s.log[..s.tails + 1];
  }

  /** Every access keeps the invariant. */
  lemma StepInv(s: State, e: Event)
    requires Inv(s) && Enabled(s, e)
    ensures Inv(Step(s, e))
  {
    InvShape(s);
    hide Inv, Outstanding;
    match e
    case Start(k, p) => StartInv(s, k, p);
    case Move(k) =>
      match s.producers[k] {
        case Idle =>
        case Waiting(p) =>
          if !s.locked {
            LockInv(s, k);
          }
        case Locked(p) => WriteInv(s, k);
        case Wrote(p) => AdvanceInv(s, k);
        case Advanced(p) => UnlockInv(s, k);
        case Unlocked(p) => ReleaseInv(s, k);
      }
    case Consume =>
      match s.consumer {
        case Resting =>
          if s.sem > 0 {
            AcquireInv(s);
          }
        case Acquired => ReadInv(s);
        case HasRead(p) => ClearInv(s);
        case Cleared(p) => DeliverInv(s);
      }
  }

  lemma InvShape(s: State)
    requires Inv(s)
    ensures s.count > 0 && |s.slots| == s.count && s.head < s.count && s.tail < s.count
  {
    hide Pending, Late;
  }

  // ----- Whole runs -----

  datatype Outcome = Reached(state: State) | Overfull

  ghost function Run(count: nat, producers: nat, events: seq<Event>): (o: Outcome)
    requires count > 0
    ensures o.Reached? ==> Inv(o.state)
    decreases |events|
  {
    if events == [] then InitialInv(count, producers); Reached(Initial(count, producers))
    else
      var n := |events| - 1;
      hide Inv;
      match Run(count, producers, events[..n])
      case Overfull => Overfull
      case Reached(s) => if Enabled(s, events[n]) then StepInv(s, events[n]); Reached(Step(s, events[n])) else Overfull
  }

  lemma InitialInv(count: nat, producers: nat)
    requires count > 0
    ensures Inv(Initial(count, producers))
  {
    NoneBusy(seq(producers, i => Idle));
    hide Pending, Late;
  }

  lemma {:induction false} NoneBusy(ps: seq<Producer>)
    requires forall i :: 0 <= i < |ps| ==> ps[i] == Idle
    ensures Pending(ps) == 0 && Late(ps) == 0
    decreases |ps|
  {
    if ps != [] {
      NoneBusy(ps[..|ps| - 1]);
    }
  }

  /**
   As long as at most `count` pointers are on their way: in every state a run reaches, the next write goes
   to an empty slot, the next read finds a full one, and the consumer has returned the pointers in the
   order in which they were written, each once.
   */
  lemma RingIsSafe(count: nat, producers: nat, events: seq<Event>)
    requires count > 0 && Run(count, producers, events).Reached?
    ensures var s := Run(count, producers, events).state;
            && |s.slots| > 0 && s.head < |s.slots| && s.tail < |s.slots|
            && s.delivered <= s.log && |s.delivered| == s.tails
            && (forall k :: 0 <= k < |s.producers| && s.producers[k].Locked? ==> s.slots[s.head] == 0)
            && (s.consumer.Acquired? ==> s.slots[s.tail] > 0 && |s.log| > s.tails && s.slots[s.tail] == s.log[s.tails])
  {
    var s := Run(count, producers, events).state;
    hide Run, Pending, Late;
    InvShape(s);
    if s.consumer.Acquired? {
      ReadsFull(s);
    }
    forall k | 0 <= k < |s.producers| && s.producers[k].Locked? ensures s.slots[s.head] == 0 {
      WritesEmpty(s, k);
    }
  }
}
