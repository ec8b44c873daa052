/**
 The Reliable Stream sender as a state machine: queueing packets, scheduling them in FEC groups, sending,
 and handling a receiver report. The invariant holds in every run.
 */
module Sender {
  import opened Schedule
  import opened Groups
  import Nack

  /** Packets in flight at most; segment pool and recovery-buffer pool capacities. */
  const BUFS: nat := 453
  const SEGMENT_POOL: nat := 1359
  const RECOVERY_POOL: nat := 227
  const INTERVAL_MAX: nat := 15
  const SLOT_MAX: nat := 2100

  /**
   `rsnd[i]` holds packets reported missing `i + 1` times; `cur` is the schedule at absolute slots; `wak`
   waits for a report. `segs` and `bufs` count the blocks taken from the two pools.
   */
  datatype State = State(nextNum: nat, nextGrp: nat, nSnd: int, nSndMax: nat, interval: nat,
                         snd: seq<Seg>, rsnd: seq<seq<Seg>>, cur: seq<Entry>, wak: seq<Seg>,
                         segs: int, bufs: int, established: bool)

  function Initial(): (s: State) {
    State(0, 0, 0, BUFS, 0, [], [[], [], []], [], [], 0, 0, false)
  }

  // ----- Views -----

  function Core(x: Seg): (y: Seg) {
    x.(wsn := 0, weak := false)
  }

  function Cores(w: seq<Seg>): (c: seq<Seg>)
    ensures |c| == |w|
  {
    if w == [] then [] else [Core(w[0])] + Cores(w[1..])
  }

  function CurCores(cur: seq<Entry>): (c: seq<Seg>)
    ensures |c| == |cur|
  {
    if cur == [] then [] else [Core(cur[0].seg)] + CurCores(cur[1..])
  }

  /** Sent and scheduled segments, in sending order. */
  function InFlight(s: State): (w: seq<Seg>) {
    Cores(s.wak) + CurCores(s.cur)
  }

  /** Packet numbers of the original segments in a list. */
  function Nums(w: seq<Seg>): (m: multiset<nat>) {
    if w == [] then multiset{}
    else if w[0].recovery then Nums(w[1..])
    else multiset{w[0].num} + Nums(w[1..])
  }

  /** All packets the sender still holds. */
  function Live(s: State): (m: multiset<nat>)
    requires |s.rsnd| == 3
  {
    Sum5(Nums(s.snd), Nums(s.rsnd[0]), Nums(s.rsnd[1]), Nums(s.rsnd[2]), Nums(InFlight(s)))
  }

  /** Queued packets in the order in which the scheduler takes them. */
  function Pending(s: State): (w: seq<Seg>)
    requires |s.rsnd| == 3
  {
    s.rsnd[2] + s.rsnd[1] + s.rsnd[0] + s.snd
  }

  // ----- The invariant -----

  ghost predicate QueueOk(w: seq<Seg>, wrn: nat) {
    forall i :: 0 <= i < |w| ==> !w[i].recovery && !w[i].weak && !w[i].gidEnd && w[i].wrn == wrn
  }

  ghost predicate QueuesOk(s: State) {
    && |s.rsnd| == 3 && QueueOk(s.snd, 0)
    && QueueOk(s.rsnd[0], 1) && QueueOk(s.rsnd[1], 2) && QueueOk(s.rsnd[2], 3)
  }

  /**
   Recovery buffers are released when sent: `weak` marks exactly the recovery segments in `wak`. Recovery
   segments are never counted as reported missing.
   */
  ghost predicate WeakOk(s: State) {
    && (forall i :: 0 <= i < |s.wak| ==> (s.wak[i].weak <==> s.wak[i].recovery) && s.wak[i].wrn <= 3)
    && (forall i :: 0 <= i < |s.cur| ==>
          !s.cur[i].seg.weak && s.cur[i].seg.wrn <= 3 && (s.cur[i].seg.recovery ==> s.cur[i].seg.wrn == 0))
  }

  /** Group ids of segments in flight identify their groups. */
  ghost predicate IdsOk(w: seq<Seg>, nextGrp: nat) {
    && (forall x :: x in w ==> x.grp < nextGrp)
    && (forall x, y :: x in w && y in w && Fid(x) == Fid(y) ==> x.grp == y.grp)
  }

  ghost predicate SlotsOk(s: State) {
    && Increasing(s.cur) && s.interval <= INTERVAL_MAX
    && forall i :: 0 <= i < |s.cur| ==> s.cur[i].at <= SLOT_MAX && s.cur[i].seg.wsn == 0
  }

  ghost predicate CountsOk(s: State)
    requires |s.rsnd| == 3
  {
    && s.nSnd == |Live(s)| && s.nSnd <= BUFS && s.nSndMax <= BUFS
    && (forall x :: Live(s)[x] <= 1) && (forall x :: x in Live(s) ==> x < s.nextNum)
    && s.segs == |s.snd| + |s.rsnd[0]| + |s.rsnd[1]| + |s.rsnd[2]| + |s.wak| + |s.cur|
    && s.bufs == Recoveries(CurCores(s.cur))
  }

  ghost predicate Inv(s: State) {
    && QueuesOk(s) && WeakOk(s) && SlotsOk(s) && CountsOk(s)
    && GroupsOk(InFlight(s)) && IdsOk(InFlight(s), s.nextGrp)
    && (!s.established ==> s.cur == [] && s.wak == [])
  }

  // ----- Basic lemmas -----

  lemma {:induction false} CoresAppend(a: seq<Seg>, b: seq<Seg>)
    ensures Cores(a + b) == Cores(a) + Cores(b)
  {
    if a == [] {
      assert a + b == b;
    } else {
      CoresAppend(a[1..], b);
      ConsAppend(a, b);
      Assoc([Core(a[0])], Cores(a[1..]), Cores(b));
    }
  }

  lemma {:induction false} CoresAt(w: seq<Seg>, i: nat)
    requires i < |w|
    ensures Cores(w)[i] == Core(w[i])
  {
    if i != 0 {
      CoresAt(w[1..], i - 1);
    }
  }

  lemma {:induction false} CurCoresAt(cur: seq<Entry>, i: nat)
    requires i < |cur|
    ensures CurCores(cur)[i] == Core(cur[i].seg)
  {
    if i != 0 {
      CurCoresAt(cur[1..], i - 1);
    }
  }

  lemma {:induction false} NumsAppend(a: seq<Seg>, b: seq<Seg>)
    ensures Nums(a + b) == Nums(a) + Nums(b)
  {
    if a == [] {
      assert a + b == b;
    } else {
      NumsAppend(a[1..], b);
      ConsAppend(a, b);
    }
  }

  lemma {:induction false} NumsCores(w: seq<Seg>)
    ensures Nums(Cores(w)) == Nums(w)
  {
    if w != [] {
      NumsCores(w[1..]);
    }
  }

  lemma {:induction false} NumsSize(w: seq<Seg>)
    ensures |Nums(w)| == Originals(w)
  {
    if w != [] {
      NumsSize(w[1..]);
    }
  }

  lemma {:induction false} AllOriginals(w: seq<Seg>, wrn: nat)
    requires QueueOk(w, wrn)
    ensures Originals(w) == |w|
  {
    if w != [] {
      AllOriginals(w[1..], wrn);
    }
  }

  /** Segments in flight: at most one recovery segment for every two originals. */
  lemma InFlightBound(s: State)
    requires GroupsOk(InFlight(s))
    ensures 2 * Recoveries(InFlight(s)) <= Originals(InFlight(s)) == |Nums(InFlight(s))|
  {
    FewRecoveries(InFlight(s));
    NumsSize(InFlight(s));
  }

  /** The pools never run dry: at most 679 segments and 226 recovery buffers are ever taken. */
  lemma PoolBounds(s: State)
    requires Inv(s)
    ensures 2 * s.segs <= 3 * s.nSnd && 2 * s.bufs <= s.nSnd
    ensures s.segs < SEGMENT_POOL && s.bufs < RECOVERY_POOL
  {
    hide Nums, Cores, CurCores, GroupsOk, Recoveries, Originals;
    InFlightBound(s);
    AllOriginals(s.snd, 0);
    AllOriginals(s.rsnd[0], 1);
    AllOriginals(s.rsnd[1], 2);
    AllOriginals(s.rsnd[2], 3);
    NumsSize(s.snd);
    NumsSize(s.rsnd[0]);
    NumsSize(s.rsnd[1]);
    NumsSize(s.rsnd[2]);
    RecoveriesAppend(Cores(s.wak), CurCores(s.cur));
    assert s.nSnd == |s.snd| + |s.rsnd[0]| + |s.rsnd[1]| + |s.rsnd[2]| + |Nums(InFlight(s))|;
    assert |InFlight(s)| == |s.wak| + |s.cur|;
  }

  // ----- Queueing -----

  function Packet(num: nat, audio: bool): (x: Seg) {
    Seg(num, 0, 0, if audio then 2 else 0, Fec11, 0, false, false, false, audio)
  }

  /** Adds a packet: audio in front of the packets reported missing twice, others behind the new ones. */
  function Queue(s: State, audio: bool): (s': State)
    requires |s.rsnd| == 3
  {
    var x := Packet(s.nextNum, audio);
    var s1 := s.(nextNum := s.nextNum + 1, nSnd := s.nSnd + 1, segs := s.segs + 1);
    if audio then s1.(rsnd := s.rsnd[1 := [x] + s.rsnd[1]]) else s1.(snd := s.snd + [x])
  }

  lemma QueueLive(s: State, audio: bool)
    requires |s.rsnd| == 3
    ensures Live(Queue(s, audio)) == Live(s) + multiset{s.nextNum}
    ensures InFlight(Queue(s, audio)) == InFlight(s)
  {
    var x := Packet(s.nextNum, audio);
    assert Nums([x]) == multiset{s.nextNum} by {
      assert [x][1..] == [];
    }
    hide Nums, Cores, CurCores, Sum5, InFlight;
    NumsAppend([x], s.rsnd[1]);
    NumsAppend(s.snd, [x]);
    assert Nums(s.snd) + Nums([x]) == Nums([x]) + Nums(s.snd);
    TakeOne(Nums(s.snd), Nums(s.rsnd[0]), Nums(s.rsnd[1]), Nums(s.rsnd[2]), Nums(InFlight(s)), Nums([x]));
    SameInFlight(s, Queue(s, audio));
  }

  lemma QueueInv(s: State, audio: bool)
    requires Inv(s) && s.nSnd < s.nSndMax
    ensures Inv(Queue(s, audio))
  {
    hide Live, InFlight, GroupsOk, Recoveries, CurCores;
    QueueLive(s, audio);
    var s' := Queue(s, audio);
    assert forall x :: Live(s')[x] <= 1 by {
      assert s.nextNum !in Live(s);
    }
    assert QueuesOk(s');
    assert CountsOk(s');
  }

  // ----- Scheduling -----

  /** The queues without the first pending packet. */
  function PopPending(s: State): (s': State)
    requires |s.rsnd| == 3 && Pending(s) != []
  {
    if s.rsnd[2] != [] then s.(rsnd := s.rsnd[2 := s.rsnd[2][1..]])
    else if s.rsnd[1] != [] then s.(rsnd := s.rsnd[1 := s.rsnd[1][1..]])
    else if s.rsnd[0] != [] then s.(rsnd := s.rsnd[0 := s.rsnd[0][1..]])
    else s.(snd := s.snd[1..])
  }

  /** Gives a segment the least free slot at or after `w`. */
  function Place(s: State, x: Seg, w: nat): (s': State) {
    s.(cur := InsertSorted(s.cur, Entry(FirstFree(s.cur, w), x)))
  }

  /** A group of one: the first pending packet goes into the first free slot. */
  function ScheduleOne(s: State): (s': State)
    requires |s.rsnd| == 3 && Pending(s) != []
  {
    var x := Pending(s)[0].(grp := s.nextGrp, fty := Fec11, gid := 0, wsn := 0, gidEnd := true);
    Place(PopPending(s).(nextGrp := s.nextGrp + 1), x, 0)
  }

  function Recovery(grp: nat): (x: Seg) {
    Seg(0, grp, 0, 0, Fec23, 2, true, false, true, false)
  }

  lemma PopTwice(s: State)
    requires |s.rsnd| == 3 && Pending(s) != []
    ensures |PopPending(s).rsnd| == 3 && Pending(PopPending(s)) == Pending(s)[1..]
  {
  }

  /** Two packets and their recovery segment, spread over the schedule by the send interval. */
  function ScheduleTwo(s: State): (s': State)
    requires |s.rsnd| == 3 && |Pending(s)| >= 2
  {
    PopTwice(s);
    var x0 := Pending(s)[0].(grp := s.nextGrp, fty := Fec23, gid := 0, wsn := 0);
    var x1 := Pending(s)[1].(grp := s.nextGrp, fty := Fec23, gid := 1, wsn := 0);
    var s0 := PopPending(PopPending(s)).(nextGrp := s.nextGrp + 1);
    var at0 := FirstFree(s0.cur, 0);
    var s1 := Place(s0, x0, 0);
    var w1 := s.interval + at0;
    var at1 := FirstFree(s1.cur, w1);
    var s2 := Place(s1, x1, w1);
    var w2 := 2 * s.interval + at0 + (at1 - w1);
    Place(s2, Recovery(s.nextGrp), w2).(segs := s.segs + 1, bufs := s.bufs + 1)
  }

  lemma {:induction false} InsertMembers(a: seq<Entry>, e: Entry)
    ensures forall x :: x in InsertSorted(a, e) <==> x in a || x == e
  {
    if a != [] {
      InsertMembers(a[1..], e);
    }
  }

  /**
   The members of a group of three are at least the send interval apart, the first one as early as
   possible; nothing else in the schedule moves.
   */
  lemma GroupIsSpread(s: State) returns (at0: nat, at1: nat, at2: nat)
    requires |s.rsnd| == 3 && |Pending(s)| >= 2
    ensures at0 == FirstFree(s.cur, 0) && at0 + s.interval <= at1 && at1 + s.interval <= at2
    ensures var first := Pending(s)[0].(grp := s.nextGrp, fty := Fec23, gid := 0, wsn := 0);
            var second := Pending(s)[1].(grp := s.nextGrp, fty := Fec23, gid := 1, wsn := 0);
            var cur1 := InsertSorted(s.cur, Entry(at0, first));
            var cur2 := InsertSorted(cur1, Entry(at1, second));
            at1 == FirstFree(cur1, at0 + s.interval) && at2 == FirstFree(cur2, at1 + s.interval)
    ensures forall e :: e in ScheduleTwo(s).cur <==>
              || e in s.cur
              || e == Entry(at0, Pending(s)[0].(grp := s.nextGrp, fty := Fec23, gid := 0, wsn := 0))
              || e == Entry(at1, Pending(s)[1].(grp := s.nextGrp, fty := Fec23, gid := 1, wsn := 0))
              || e == Entry(at2, Recovery(s.nextGrp))
  {
    hide Pending, PopPending, InsertSorted, FirstFree;
    PopTwice(s);
    PopTwiceCur(s);
    var x0 := Pending(s)[0].(grp := s.nextGrp, fty := Fec23, gid := 0, wsn := 0);
    var x1 := Pending(s)[1].(grp := s.nextGrp, fty := Fec23, gid := 1, wsn := 0);
    var s0 := PopPending(PopPending(s)).(nextGrp := s.nextGrp + 1);
    var s1 := Place(s0, x0, 0);
    at0 := FirstFree(s0.cur, 0);
    at1 := FirstFree(s1.cur, s.interval + at0);
    var s2 := Place(s1, x1, s.interval + at0);
    at2 := FirstFree(s2.cur, s.interval + at1);
    InsertMembers(s0.cur, Entry(at0, x0));
    InsertMembers(s1.cur, Entry(at1, x1));
    InsertMembers(s2.cur, Entry(at2, Recovery(s.nextGrp)));
  }

  lemma PopTwiceCur(s: State)
    requires |s.rsnd| == 3 && |Pending(s)| >= 2 && |PopPending(s).rsnd| == 3 && Pending(PopPending(s)) != []
    ensures PopPending(PopPending(s)).cur == s.cur && PopPending(PopPending(s)).interval == s.interval
  {
  }

  /** One scheduling step; packets reported missing three times go out in pairs with a recovery segment. */
  function NextGroup(s: State): (s': State)
    requires |s.rsnd| == 3
  {
    if Pending(s) == [] then s
    else if s.rsnd[2] != [] && |Pending(s)| >= 2 then ScheduleTwo(s)
    else ScheduleOne(s)
  }

  // Facts about the queues

  lemma PopFacts(s: State)
    requires QueuesOk(s) && Pending(s) != []
    ensures var x, s' := Pending(s)[0], PopPending(s);
            && QueuesOk(s') && !x.recovery && !x.weak && !x.gidEnd && x.wrn <= 3
            && (s.rsnd[2] != [] ==> x.wrn == 3)
            && |s.snd| + |s.rsnd[0]| + |s.rsnd[1]| + |s.rsnd[2]|
               == |s'.snd| + |s'.rsnd[0]| + |s'.rsnd[1]| + |s'.rsnd[2]| + 1
  {
  }

  lemma NumsHead(w: seq<Seg>, wrn: nat)
    requires w != [] && QueueOk(w, wrn)
    ensures Nums(w) == multiset{w[0].num} + Nums(w[1..])
  {
  }

  function Sum5(a: multiset<nat>, b: multiset<nat>, c: multiset<nat>, d: multiset<nat>, e: multiset<nat>)
    : (m: multiset<nat>)
  {
    a + b + c + d + e
  }

  lemma TakeOne(a: multiset<nat>, b: multiset<nat>, c: multiset<nat>, d: multiset<nat>, e: multiset<nat>,
                m: multiset<nat>)
    ensures Sum5(m + a, b, c, d, e) == Sum5(a, b, c, d, e) + m
    ensures Sum5(a, m + b, c, d, e) == Sum5(a, b, c, d, e) + m
    ensures Sum5(a, b, m + c, d, e) == Sum5(a, b, c, d, e) + m
    ensures Sum5(a, b, c, m + d, e) == Sum5(a, b, c, d, e) + m
  {
  }

  lemma PopLive(s: State)
    requires QueuesOk(s) && Pending(s) != []
    ensures |PopPending(s).rsnd| == 3 && InFlight(PopPending(s)) == InFlight(s)
    ensures Live(s) == Live(PopPending(s)) + multiset{Pending(s)[0].num}
  {
    hide Nums, InFlight, QueueOk, Sum5;
    var s' := PopPending(s);
    SameInFlight(s, s');
    TakeOne(Nums(s'.snd), Nums(s'.rsnd[0]), Nums(s'.rsnd[1]), Nums(s'.rsnd[2]), Nums(InFlight(s)),
            multiset{Pending(s)[0].num});
    if s.rsnd[2] != [] {
      NumsHead(s.rsnd[2], 3);
    } else if s.rsnd[1] != [] {
      NumsHead(s.rsnd[1], 2);
    } else if s.rsnd[0] != [] {
      NumsHead(s.rsnd[0], 1);
    } else {
      NumsHead(s.snd, 0);
    }
  }

  lemma SameInFlight(s: State, s': State)
    requires s'.wak == s.wak && s'.cur == s.cur
    ensures InFlight(s') == InFlight(s)
  {
  }

  // Facts about placing a segment

  lemma {:induction false} InsertIncreasing(a: seq<Entry>, e: Entry)
    requires Increasing(a) && !Taken(a, e.at)
    ensures Increasing(InsertSorted(a, e))
    ensures forall x :: x in InsertSorted(a, e) <==> x in a || x == e
  {
    if a != [] {
      assert a[0].at != e.at;
      if a[0].at < e.at {
        var rest := a[1..];
        assert forall i :: 0 <= i < |rest| ==> rest[i] == a[i + 1];
        InsertIncreasing(rest, e);
        var r := InsertSorted(rest, e);
        forall i | 0 <= i < |r| ensures a[0].at < r[i].at {
          assert r[i] in r;
        }
      }
    }
  }

  lemma {:induction false} CurCoresIn(cur: seq<Entry>, x: Seg)
    ensures x in CurCores(cur) <==> exists i :: 0 <= i < |cur| && Core(cur[i].seg) == x
  {
    if x in CurCores(cur) {
      var i :| 0 <= i < |cur| && CurCores(cur)[i] == x;
      CurCoresAt(cur, i);
    }
    if i :| 0 <= i < |cur| && Core(cur[i].seg) == x {
      CurCoresAt(cur, i);
    }
  }

  /** Placing a segment changes no other group; behind the other members of its group, it becomes the last. */
  lemma {:induction false} PlaceMembers(cur: seq<Entry>, e: Entry, k: nat)
    requires Increasing(cur) && !Taken(cur, e.at)
    requires forall i :: 0 <= i < |cur| && cur[i].seg.grp == e.seg.grp ==> cur[i].at < e.at
    ensures Members(CurCores(InsertSorted(cur, e)), k)
         == Members(CurCores(cur), k) + (if e.seg.grp == k then [Core(e.seg)] else [])
  {
    if cur == [] {
    } else if cur[0].at < e.at {
      var rest := cur[1..];
      assert forall i :: 0 <= i < |rest| ==> rest[i] == cur[i + 1];
      PlaceMembers(rest, e, k);
      assert InsertSorted(cur, e)[1..] == InsertSorted(rest, e);
      Assoc([Core(cur[0].seg)], Members(CurCores(rest), k), if e.seg.grp == k then [Core(e.seg)] else []);
    } else {
      assert cur[0].at != e.at;
      assert ([e] + cur)[1..] == cur;
      forall i | 0 <= i < |cur| ensures CurCores(cur)[i].grp != e.seg.grp {
        CurCoresAt(cur, i);
      }
      NoMembers(CurCores(cur), e.seg.grp);
    }
  }

  lemma {:induction false} PlaceCounts(cur: seq<Entry>, e: Entry)
    ensures Nums(CurCores(InsertSorted(cur, e)))
         == Nums(CurCores(cur)) + (if e.seg.recovery then multiset{} else multiset{e.seg.num})
    ensures Recoveries(CurCores(InsertSorted(cur, e))) == Recoveries(CurCores(cur)) + (if e.seg.recovery then 1 else 0)
  {
    if cur == [] {
    } else if cur[0].at < e.at {
      PlaceCounts(cur[1..], e);
      assert InsertSorted(cur, e)[1..] == InsertSorted(cur[1..], e);
    } else {
      assert ([e] + cur)[1..] == cur;
    }
  }

  /** Live group numbers differ from the next one by less than the id space. */
  ghost predicate Window(s: State) {
    forall x :: x in InFlight(s) ==> s.nextGrp < x.grp + ID_SPACE
  }

  lemma FreshId(g: nat, next: nat)
    requires g < next < g + ID_SPACE
    ensures g % ID_SPACE != next % ID_SPACE
  {
    assert next == g + (next - g);
  }

  /** What must hold of a segment and its request for it to be placed. */
  ghost predicate Placeable(s: State, x: Seg, w: nat) {
    && WeakOk(s) && SlotsOk(s) && IdsOk(InFlight(s), s.nextGrp)
    && !x.weak && x.wrn <= 3 && (x.recovery ==> x.wrn == 0) && x.wsn == 0 && x.grp < s.nextGrp
    && (forall y :: y in InFlight(s) && Fid(y) == Fid(x) ==> y.grp == x.grp)
    && FirstFree(s.cur, w) <= SLOT_MAX
    && (forall i :: 0 <= i < |s.cur| && s.cur[i].seg.grp == x.grp ==> s.cur[i].at < FirstFree(s.cur, w))
  }

  lemma PlaceSlots(s: State, x: Seg, w: nat)
    requires Placeable(s, x, w)
    ensures WeakOk(Place(s, x, w)) && SlotsOk(Place(s, x, w))
    ensures forall e :: e in Place(s, x, w).cur <==> e in s.cur || e == Entry(FirstFree(s.cur, w), x)
  {
    hide InFlight, InsertSorted, FirstFree, IdsOk;
    FirstFreeIsLeast(s.cur, w);
    var e := Entry(FirstFree(s.cur, w), x);
    InsertIncreasing(s.cur, e);
    var cur' := InsertSorted(s.cur, e);
    forall i | 0 <= i < |cur'|
      ensures !cur'[i].seg.weak && cur'[i].seg.wrn <= 3 && (cur'[i].seg.recovery ==> cur'[i].seg.wrn == 0)
      ensures cur'[i].at <= SLOT_MAX && cur'[i].seg.wsn == 0
    {
      assert cur'[i] in cur';
    }
  }

  lemma PlaceIn(s: State, x: Seg, w: nat, y: Seg)
    requires Placeable(s, x, w) && y in InFlight(Place(s, x, w))
    ensures y in InFlight(s) || y == Core(x)
  {
    hide InsertSorted, FirstFree, IdsOk, Cores, CurCores, SlotsOk, WeakOk;
    PlaceSlots(s, x, w);
    var s' := Place(s, x, w);
    if y in CurCores(s'.cur) {
      CurCoresIn(s'.cur, y);
      var i :| 0 <= i < |s'.cur| && Core(s'.cur[i].seg) == y;
      assert s'.cur[i] in s'.cur;
      if s'.cur[i] in s.cur {
        var j :| 0 <= j < |s.cur| && s.cur[j] == s'.cur[i];
        CurCoresIn(s.cur, y);
      }
    }
  }

  lemma PlaceIds(s: State, x: Seg, w: nat)
    requires Placeable(s, x, w)
    ensures IdsOk(InFlight(Place(s, x, w)), s.nextGrp)
  {
    hide InFlight, InsertSorted, FirstFree, SlotsOk, WeakOk;
    var w' := InFlight(Place(s, x, w));
    forall y | y in w' ensures y.grp < s.nextGrp && (y in InFlight(s) || y == Core(x)) {
      PlaceIn(s, x, w, y);
    }
    assert Fid(Core(x)) == Fid(x) && Core(x).grp == x.grp;
  }

  lemma PlaceGroup(s: State, x: Seg, w: nat, k: nat)
    requires Placeable(s, x, w)
    ensures Members(InFlight(Place(s, x, w)), k)
         == Members(InFlight(s), k) + (if x.grp == k then [Core(x)] else [])
  {
    hide InsertSorted, FirstFree, Members, Cores, CurCores;
    FirstFreeIsLeast(s.cur, w);
    var s' := Place(s, x, w);
    PlaceMembers(s.cur, Entry(FirstFree(s.cur, w), x), k);
    MembersAppend(Cores(s.wak), CurCores(s.cur), k);
    MembersAppend(Cores(s.wak), CurCores(s'.cur), k);
    Assoc(Members(Cores(s.wak), k), Members(CurCores(s.cur), k), if x.grp == k then [Core(x)] else []);
  }

  lemma PlaceLive(s: State, x: Seg, w: nat)
    requires |s.rsnd| == 3
    ensures Live(Place(s, x, w)) == Live(s) + (if x.recovery then multiset{} else multiset{x.num})
    ensures Recoveries(CurCores(Place(s, x, w).cur)) == Recoveries(CurCores(s.cur)) + (if x.recovery then 1 else 0)
    ensures |Place(s, x, w).cur| == |s.cur| + 1
  {
    hide InsertSorted, FirstFree, Nums, Cores, CurCores, Recoveries;
    var s' := Place(s, x, w);
    PlaceCounts(s.cur, Entry(FirstFree(s.cur, w), x));
    NumsAppend(Cores(s.wak), CurCores(s.cur));
    NumsAppend(Cores(s.wak), CurCores(s'.cur));
  }

  /** The next group number is not in use, and neither is its 12-bit id. */
  lemma FreshGroup(s: State)
    requires Inv(s) && Window(s)
    ensures Members(InFlight(s), s.nextGrp) == []
    ensures forall y :: y in InFlight(s) ==> Fid(y) != s.nextGrp % ID_SPACE
    ensures forall i :: 0 <= i < |s.cur| ==> s.cur[i].seg.grp != s.nextGrp
    ensures IdsOk(InFlight(s), s.nextGrp + 1)
  {
    hide Members, GroupsOk, Cores, CurCores, CountsOk, SlotsOk, QueuesOk, WeakOk;
    forall y | y in InFlight(s) ensures Fid(y) != s.nextGrp % ID_SPACE {
      FreshId(y.grp, s.nextGrp);
    }
    NoMembers(InFlight(s), s.nextGrp);
    forall i | 0 <= i < |s.cur| ensures s.cur[i].seg.grp != s.nextGrp {
      CurCoresAt(s.cur, i);
      assert CurCores(s.cur)[i] in InFlight(s);
    }
  }

  lemma CurFits(s: State)
    requires Inv(s)
    ensures |s.cur| <= 679
  {
    PoolBounds(s);
  }

  lemma ScheduleOneInv(s: State)
    requires Inv(s) && Window(s) && s.established && Pending(s) != []
    ensures Inv(ScheduleOne(s)) && Live(ScheduleOne(s)) == Live(s)
  {
    hide Members, Cores, CurCores, InFlight, Live, Pending, PopPending, Recoveries, FirstFree, InsertSorted, FullGroup;
    PopFacts(s);
    PopLive(s);
    FreshGroup(s);
    CurFits(s);
    var x := Pending(s)[0].(grp := s.nextGrp, fty := Fec11, gid := 0, wsn := 0, gidEnd := true);
    var s0 := PopPending(s).(nextGrp := s.nextGrp + 1);
    PopOnly(s);
    SameInFlight(s, s0);
    SameLive(PopPending(s), s0);
    PlaceSlots(s0, x, 0);
    PlaceIds(s0, x, 0);
    PlaceLive(s0, x, 0);
    var s' := ScheduleOne(s);
    forall k ensures FullGroup(Members(InFlight(s'), k)) {
      PlaceGroup(s0, x, 0, k);
      assert FullGroup(Members(InFlight(s), k));
      SingleFull(x);
      EmptyPlus(Members(InFlight(s), k), Core(x));
    }
  }

  lemma PopOnly(s: State)
    requires |s.rsnd| == 3 && Pending(s) != []
    ensures PopPending(s) == s.(snd := PopPending(s).snd, rsnd := PopPending(s).rsnd)
  {
  }

  lemma SameLive(s: State, s': State)
    requires |s.rsnd| == 3 && s'.snd == s.snd && s'.rsnd == s.rsnd && s'.wak == s.wak && s'.cur == s.cur
    ensures Live(s') == Live(s)
  {
  }

  lemma SingleFull(x: Seg)
    requires x.fty == Fec11 && x.gid == 0 && x.gidEnd && !x.recovery
    ensures FullGroup([Core(x)])
  {
  }

  lemma EmptyPlus(m: seq<Seg>, x: Seg)
    ensures m + [] == m && [] + [x] == [x]
  {
  }

  /** A slot just taken pushes the next request of the same group behind it. */
  lemma NextBehind(s: State, x: Seg, w: nat, w': nat)
    requires Placeable(s, x, w) && w' >= FirstFree(s.cur, w)
    ensures FirstFree(Place(s, x, w).cur, w') > FirstFree(s.cur, w)
    ensures FirstFree(Place(s, x, w).cur, w') <= w' + |s.cur| + 1
  {
    hide InFlight, InsertSorted, IdsOk, WeakOk;
    PlaceSlots(s, x, w);
    var s' := Place(s, x, w);
    var e := Entry(FirstFree(s.cur, w), x);
    assert e in s'.cur;
    var i :| 0 <= i < |s'.cur| && s'.cur[i] == e;
    assert Taken(s'.cur, FirstFree(s.cur, w));
    FirstFreeIsLeast(s'.cur, w');
  }

  /** After placing one member of a fresh group, the next member can be placed behind it. */
  lemma StillPlaceable(s: State, x: Seg, w: nat, x': Seg, w': nat)
    requires Placeable(s, x, w) && w' >= FirstFree(s.cur, w)
    requires x'.grp == x.grp && !x'.weak && x'.wrn <= 3 && (x'.recovery ==> x'.wrn == 0) && x'.wsn == 0
    requires w' + |s.cur| + 1 <= SLOT_MAX
    ensures Placeable(Place(s, x, w), x', w')
    ensures FirstFree(Place(s, x, w).cur, w') > FirstFree(s.cur, w)
  {
    hide InFlight, InsertSorted, FirstFree, SlotsOk, WeakOk, IdsOk;
    NextBehind(s, x, w, w');
    PlaceSlots(s, x, w);
    PlaceIds(s, x, w);
    var s' := Place(s, x, w);
    forall y | y in InFlight(s') && Fid(y) == Fid(x') ensures y.grp == x'.grp {
      PlaceIn(s, x, w, y);
    }
    forall i | 0 <= i < |s'.cur| && s'.cur[i].seg.grp == x'.grp ensures s'.cur[i].at < FirstFree(s'.cur, w') {
      assert s'.cur[i] in s'.cur;
      if s'.cur[i] in s.cur {
        var j :| 0 <= j < |s.cur| && s.cur[j] == s'.cur[i];
      }
    }
  }

  lemma TripleFull(x0: Seg, x1: Seg, x2: Seg)
    requires x0.fty == x1.fty == x2.fty == Fec23 && x0.gid == 0 && x1.gid == 1 && x2.gid == 2
    requires !x0.gidEnd && !x1.gidEnd && x2.gidEnd && !x0.recovery && !x1.recovery && x2.recovery
    ensures FullGroup([Core(x0)] + [Core(x1)] + [Core(x2)])
  {
  }

  /** Three placements in a row, and what they do to the groups and the packets. */
  lemma PlaceThree(s0: State, x0: Seg, x1: Seg, x2: Seg, w1: nat, w2: nat) returns (s3: State)
    requires |s0.rsnd| == 3 && Placeable(s0, x0, 0) && x1.grp == x2.grp == x0.grp
    requires !x1.weak && !x2.weak && x1.wrn <= 3 && x2.wrn == 0 && x1.wsn == 0 && x2.wsn == 0
    requires !x0.recovery && !x1.recovery && x2.recovery
    requires w1 >= FirstFree(s0.cur, 0) && w1 + |s0.cur| + 1 <= SLOT_MAX
    requires w2 >= FirstFree(Place(s0, x0, 0).cur, w1) && w2 + |s0.cur| + 2 <= SLOT_MAX
    ensures s3 == Place(Place(Place(s0, x0, 0), x1, w1), x2, w2)
    ensures WeakOk(s3) && SlotsOk(s3) && IdsOk(InFlight(s3), s0.nextGrp)
    ensures Live(s3) == Live(s0) + multiset{x0.num} + multiset{x1.num}
    ensures Recoveries(CurCores(s3.cur)) == Recoveries(CurCores(s0.cur)) + 1 && |s3.cur| == |s0.cur| + 3
    ensures forall k :: k != x0.grp ==> Members(InFlight(s3), k) == Members(InFlight(s0), k)
    ensures Members(InFlight(s3), x0.grp)
         == Members(InFlight(s0), x0.grp) + [Core(x0)] + [Core(x1)] + [Core(x2)]
  {
    hide Members, Cores, CurCores, InFlight, Live, Recoveries, FirstFree, InsertSorted, WeakOk, SlotsOk, IdsOk, Place,
         Placeable;
    var s1, s2 := Place(s0, x0, 0), Place(Place(s0, x0, 0), x1, w1);
    s3 := Place(s2, x2, w2);
    PlaceFrame(s0, x0, 0);
    PlaceFrame(s1, x1, w1);
    PlaceFrame(s2, x2, w2);
    StillPlaceable(s0, x0, 0, x1, w1);
    PlaceLive(s0, x0, 0);
    StillPlaceable(s1, x1, w1, x2, w2);
    PlaceLive(s1, x1, w1);
    PlaceLive(s2, x2, w2);
    PlaceSlots(s2, x2, w2);
    PlaceIds(s2, x2, w2);
    forall k ensures k != x0.grp ==> Members(InFlight(s3), k) == Members(InFlight(s0), k) {
      PlaceGroup(s0, x0, 0, k);
      PlaceGroup(s1, x1, w1, k);
      PlaceGroup(s2, x2, w2, k);
      EmptyPlus(Members(InFlight(s0), k), Core(x0));
    }
    PlaceGroup(s0, x0, 0, x0.grp);
    PlaceGroup(s1, x1, w1, x0.grp);
    PlaceGroup(s2, x2, w2, x0.grp);
  }

  lemma PlaceFrame(s: State, x: Seg, w: nat)
    ensures Place(s, x, w) == s.(cur := Place(s, x, w).cur)
  {
  }

  /** Taking the first two pending packets off the queues. */
  lemma PopTwo(s: State) returns (s0: State)
    requires QueuesOk(s) && |Pending(s)| >= 2
    ensures |PopPending(s).rsnd| == 3 && Pending(PopPending(s)) == Pending(s)[1..]
    ensures s0 == PopPending(PopPending(s)).(nextGrp := s.nextGrp + 1)
    ensures s0 == s.(snd := s0.snd, rsnd := s0.rsnd, nextGrp := s.nextGrp + 1)
    ensures QueuesOk(s0) && InFlight(s0) == InFlight(s)
    ensures Live(s) == Live(s0) + multiset{Pending(s)[1].num} + multiset{Pending(s)[0].num}
    ensures |s.snd| + |s.rsnd[0]| + |s.rsnd[1]| + |s.rsnd[2]|
         == |s0.snd| + |s0.rsnd[0]| + |s0.rsnd[1]| + |s0.rsnd[2]| + 2
    ensures forall i :: 0 <= i < 2 ==>
              !Pending(s)[i].recovery && !Pending(s)[i].weak && !Pending(s)[i].gidEnd && Pending(s)[i].wrn <= 3
  {
    hide InFlight, Live, Pending, PopPending, QueueOk;
    PopTwice(s);
    PopFacts(s);
    PopLive(s);
    PopOnly(s);
    var p := PopPending(s);
    PopFacts(p);
    PopLive(p);
    PopOnly(p);
    s0 := PopPending(p).(nextGrp := s.nextGrp + 1);
    SameInFlight(s, s0);
    SameLive(PopPending(p), s0);
  }

  /** The first member of the new group can be placed. */
  lemma FirstPlaceable(s: State, s0: State, x0: Seg)
    requires Inv(s) && Window(s)
    requires s0.cur == s.cur && s0.wak == s.wak && s0.interval == s.interval && s0.nextGrp == s.nextGrp + 1
    requires x0.grp == s.nextGrp && !x0.weak && !x0.recovery && x0.wrn <= 3 && x0.wsn == 0
    ensures Placeable(s0, x0, 0) && |s0.cur| <= 679 && Members(InFlight(s0), s.nextGrp) == []
  {
    hide Members, Cores, CurCores, CountsOk, GroupsOk, InsertSorted, QueuesOk;
    FreshGroup(s);
    CurFits(s);
    assert FirstFree(s0.cur, 0) <= 679;
  }

  lemma QueuesAndInterval(s: State)
    requires Inv(s)
    ensures |s.rsnd| == 3 && QueuesOk(s) && s.interval <= INTERVAL_MAX
  {
    hide GroupsOk, WeakOk, IdsOk, CountsOk;
  }

  /** Two packets are taken off the queues, and their group is placed. */
  ghost predicate TwoPlaced(s: State, s0: State, s3: State, x0: Seg, x1: Seg, x2: Seg) {
    && |s.rsnd| == 3 && QueuesOk(s0) && InFlight(s0) == InFlight(s)
    && s0 == s.(snd := s0.snd, rsnd := s0.rsnd, nextGrp := s.nextGrp + 1) && s3 == s0.(cur := s3.cur)
    && Live(s) == Live(s0) + multiset{x1.num} + multiset{x0.num}
    && |s.snd| + |s.rsnd[0]| + |s.rsnd[1]| + |s.rsnd[2]|
       == |s0.snd| + |s0.rsnd[0]| + |s0.rsnd[1]| + |s0.rsnd[2]| + 2
    && WeakOk(s3) && SlotsOk(s3) && IdsOk(InFlight(s3), s0.nextGrp)
    && Live(s3) == Live(s0) + multiset{x0.num} + multiset{x1.num}
    && Recoveries(CurCores(s3.cur)) == Recoveries(CurCores(s0.cur)) + 1 && |s3.cur| == |s0.cur| + 3
    && (forall k :: k != x0.grp ==> Members(InFlight(s3), k) == Members(InFlight(s0), k))
    && Members(InFlight(s3), x0.grp) == Members(InFlight(s0), x0.grp) + [Core(x0)] + [Core(x1)] + [Core(x2)]
    && Members(InFlight(s0), x0.grp) == [] && FullGroup([Core(x0)] + [Core(x1)] + [Core(x2)])
  }

  lemma TwoSlots(s: State, s0: State, x0: Seg) returns (w1: nat, w2: nat)
    requires Inv(s) && Placeable(s0, x0, 0) && |s0.cur| <= 679 && s0.interval == s.interval
    ensures w1 == s.interval + FirstFree(s0.cur, 0) && w1 + |s0.cur| + 1 <= SLOT_MAX
    ensures w2 == 2 * s.interval + FirstFree(s0.cur, 0) + (FirstFree(Place(s0, x0, 0).cur, w1) - w1)
    ensures w2 >= FirstFree(Place(s0, x0, 0).cur, w1) && w2 + |s0.cur| + 2 <= SLOT_MAX
  {
    QueuesAndInterval(s);
    hide InsertSorted, Placeable, Inv;
    w1 := s.interval + FirstFree(s0.cur, 0);
    PlaceCount(s0, x0, 0);
    hide Place;
    w2 := 2 * s.interval + FirstFree(s0.cur, 0) + (FirstFree(Place(s0, x0, 0).cur, w1) - w1);
  }

  lemma PlaceCount(s: State, x: Seg, w: nat)
    ensures |Place(s, x, w).cur| == |s.cur| + 1
  {
    hide FirstFree;
    PlaceCounts(s.cur, Entry(FirstFree(s.cur, w), x));
  }

  lemma PlaceTwo(s: State) returns (s0: State, s3: State, x0: Seg, x1: Seg, x2: Seg)
    requires Inv(s) && Window(s) && |Pending(s)| >= 2
    ensures TwoPlaced(s, s0, s3, x0, x1, x2)
    ensures ScheduleTwo(s) == s3.(segs := s.segs + 1, bufs := s.bufs + 1)
  {
    hide Members, Cores, CurCores, InFlight, Live, Pending, PopPending, Recoveries, FirstFree, InsertSorted, FullGroup,
         Place, Placeable, Inv, QueueOk, WeakOk, SlotsOk, IdsOk;
    QueuesAndInterval(s);
    s0 := PopTwo(s);
    x0 := Pending(s)[0].(grp := s.nextGrp, fty := Fec23, gid := 0, wsn := 0);
    x1 := Pending(s)[1].(grp := s.nextGrp, fty := Fec23, gid := 1, wsn := 0);
    x2 := Recovery(s.nextGrp);
    FirstPlaceable(s, s0, x0);
    var w1, w2 := TwoSlots(s, s0, x0);
    s3 := PlaceThree(s0, x0, x1, x2, w1, w2);
    TripleFull(x0, x1, x2);
    PlaceFrame(s0, x0, 0);
    PlaceFrame(Place(s0, x0, 0), x1, w1);
    PlaceFrame(Place(Place(s0, x0, 0), x1, w1), x2, w2);
  }

  lemma ScheduleTwoInv(s: State)
    requires Inv(s) && Window(s) && s.established && |Pending(s)| >= 2
    ensures Inv(ScheduleTwo(s)) && Live(ScheduleTwo(s)) == Live(s)
  {
    hide Inv, Live, ScheduleTwo, TwoPlaced;
    var s0, s3, x0, x1, x2 := PlaceTwo(s);
    FinishTwo(s, s0, s3, x0, x1, x2);
  }

  /** The state after the three placements satisfies the invariant. */
  lemma FinishTwo(s: State, s0: State, s3: State, x0: Seg, x1: Seg, x2: Seg)
    requires Inv(s) && s.established && TwoPlaced(s, s0, s3, x0, x1, x2)
    ensures var s' := s3.(segs := s.segs + 1, bufs := s.bufs + 1);
            Inv(s') && Live(s') == Live(s)
  {
    hide Members, Cores, CurCores, InFlight, Live, Recoveries, FullGroup, SlotsOk, WeakOk, IdsOk, QueueOk;
    var s' := s3.(segs := s.segs + 1, bufs := s.bufs + 1);
    SameInFlight(s3, s');
    SameLive(s3, s');
    SameChecks(s3, s');
    forall k ensures FullGroup(Members(InFlight(s'), k)) {
      assert FullGroup(Members(InFlight(s), k));
      EmptyPlus([], Core(x0));
    }
    assert Live(s') == Live(s);
    assert CountsOk(s');
    assert GroupsOk(InFlight(s'));
    assert QueuesOk(s');
  }

  lemma SameChecks(s: State, s': State)
    requires s'.wak == s.wak && s'.cur == s.cur && s'.interval == s.interval
    ensures WeakOk(s') == WeakOk(s) && SlotsOk(s') == SlotsOk(s)
  {
  }

  // ----- Sending -----

  /** Sends the head of the schedule; a sent recovery segment gives its buffer back. */
  function Send(s: State): (s': State)
    requires s.cur != [] && Increasing(s.cur)
  {
    var e := s.cur[0];
    var x := e.seg.(wsn := e.at, weak := e.seg.weak || e.seg.recovery);
    s.(wak := s.wak + [x],
       cur := Shift(s.cur[1..], e.at + 1),
       bufs := s.bufs - (if e.seg.recovery && !e.seg.weak then 1 else 0))
  }

  lemma {:induction false} CurCoresShift(a: seq<Entry>, d: nat)
    requires forall i :: 0 <= i < |a| ==> a[i].at >= d
    ensures CurCores(Shift(a, d)) == CurCores(a)
  {
    if a != [] {
      CurCoresShift(a[1..], d);
      assert Shift(a, d)[1..] == Shift(a[1..], d);
    }
  }

  /** Sending keeps the order of the segments in flight. */
  lemma SendInFlight(s: State)
    requires s.cur != [] && Increasing(s.cur)
    ensures InFlight(Send(s)) == InFlight(s)
  {
    var s', x := Send(s), Send(s).wak[|s.wak|];
    CurCoresShift(s.cur[1..], s.cur[0].at + 1);
    CoresAppend(s.wak, [x]);
    assert [x][1..] == [];
    assert Cores([x]) == [Core(s.cur[0].seg)];
    Assoc(Cores(s.wak), [Core(s.cur[0].seg)], CurCores(s.cur[1..]));
  }

  lemma SendShape(s: State)
    requires WeakOk(s) && SlotsOk(s) && s.cur != []
    ensures WeakOk(Send(s)) && SlotsOk(Send(s))
  {
    var cur, d := s.cur, s.cur[0].at + 1;
    var cur' := Shift(cur[1..], d);
    assert forall i :: 0 <= i < |cur'| ==> cur'[i] == cur[i + 1].(at := cur[i + 1].at - d);
  }

  lemma SendCounts(s: State)
    requires |s.rsnd| == 3 && s.cur != [] && Increasing(s.cur) && !s.cur[0].seg.weak
    requires s.bufs == Recoveries(CurCores(s.cur))
    ensures Send(s).bufs == Recoveries(CurCores(Send(s).cur))
    ensures Live(Send(s)) == Live(s)
  {
    CurCoresShift(s.cur[1..], s.cur[0].at + 1);
    SendInFlight(s);
  }

  lemma SendInv(s: State)
    requires Inv(s) && s.cur != []
    ensures Inv(Send(s)) && Live(Send(s)) == Live(s)
  {
    hide InFlight, CurCores, Recoveries, GroupsOk, IdsOk, QueueOk, Live;
    SendShape(s);
    SendCounts(s);
    SendInFlight(s);
    hide WeakOk, SlotsOk;
  }
}
