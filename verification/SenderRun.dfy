/** Whole runs of the sender: the invariant, the pool bounds and the fate of every packet. */
module SenderRun {
  import opened Schedule
  import opened Groups
  import opened Sender
  import opened SenderReport
  import Nack

  const CUR_BUFS: int := 46

  datatype Event =
    | Queue(audio: bool)
    | Establish
    | Schedule
    | Send
    | Report(fid: nat, gid: nat, nacks: seq<Nack.Range>)
    | SetWindows(snd: int, cur: int)

  function Min(a: int, b: int): (m: int) {
    if a <= b then a else b
  }

  /** New window sizes; the send interval of a group of three is a third of the schedule window. */
  function Windows(s: State, snd: int, cur: int): (s': State) {
    if snd <= 0 then s
    else
      var s1 := s.(nSndMax := Min(snd, BUFS));
      if cur <= 0 then s1 else s1.(interval := (Min(cur, CUR_BUFS) + 1) / 3)
  }

  /** The schedule is extended only when its first slot is free. */
  predicate WantsMore(s: State) {
    s.nSnd > 0 && s.established && (s.cur == [] || s.cur[0].at != 0)
  }

  /** A group is scheduled only while the groups in flight span less than the group id space. */
  ghost predicate Enabled(s: State, e: Event) {
    e.Schedule? ==> Window(s)
  }

  ghost function Step(s: State, e: Event): (s': State)
    requires Inv(s) && Enabled(s, e)
    ensures Inv(s')
  {
    hide Inv;
    InvShape(s);
    match e
    case Queue(audio) =>
      if s.nSnd < s.nSndMax then QueueInv(s, audio); Sender.Queue(s, audio) else s
    case Establish =>
      EstablishInv(s);
      s.(established := true)
    case Schedule =>
      if WantsMore(s) then NextGroupInv(s); NextGroup(s) else s
    case Send =>
      if s.established && s.cur != [] then SendInv(s); Sender.Send(s) else s
    case Report(fid, gid, nacks) =>
      if s.established then ReportKeeps(s, fid, gid, nacks); SenderReport.Report(s, fid, gid, nacks) else s
    case SetWindows(snd, cur) =>
      WindowsInv(s, snd, cur);
      Windows(s, snd, cur)
  }

  lemma InvShape(s: State)
    requires Inv(s)
    ensures |s.rsnd| == 3 && Low(s.wak) && Increasing(s.cur)
  {
  }

  lemma EstablishInv(s: State)
    requires Inv(s)
    ensures Inv(s.(established := true)) && Live(s.(established := true)) == Live(s)
  {
    hide GroupsOk, IdsOk, QueueOk, CurCores, Recoveries, Live, InFlight;
    var s' := s.(established := true);
    SameInFlight(s, s');
    SameLive(s, s');
    SameChecks(s, s');
  }

  lemma WindowsInv(s: State, snd: int, cur: int)
    requires Inv(s)
    ensures Inv(Windows(s, snd, cur)) && Live(Windows(s, snd, cur)) == Live(s)
  {
    hide GroupsOk, IdsOk, QueueOk, CurCores, Recoveries, Live, InFlight;
    var s' := Windows(s, snd, cur);
    SameInFlight(s, s');
    SameLive(s, s');
  }

  lemma NextGroupInv(s: State)
    requires Inv(s) && Window(s) && s.established
    ensures Inv(NextGroup(s)) && Live(NextGroup(s)) == Live(s)
  {
    hide Live, ScheduleOne, ScheduleTwo, Window, CountsOk, WeakOk, SlotsOk, GroupsOk;
    if Pending(s) != [] {
      if s.rsnd[2] != [] && |Pending(s)| >= 2 {
        ScheduleTwoInv(s);
      } else {
        ScheduleOneInv(s);
      }
    }
  }

  lemma ReportKeeps(s: State, fid: nat, gid: nat, nacks: seq<Nack.Range>)
    requires Inv(s)
    ensures Low(s.wak) && Inv(SenderReport.Report(s, fid, gid, nacks))
  {
    var acked := ReportInv(s, fid, gid, nacks);
  }

  // ----- Runs -----

  /** Where a run leads, unless the group ids would wrap around into groups still in flight. */
  datatype Outcome = Reached(state: State) | OutsideWindow

  /** Every state a run reaches satisfies the invariant. */
  ghost function Run(events: seq<Event>): (o: Outcome)
    ensures o.Reached? ==> Inv(o.state)
    decreases |events|
  {
    hide Inv, Step, Enabled;
    if events == [] then InitialInv(); Reached(Initial())
    else
      var n := |events| - 1;
      match Run(events[..n])
      case Reached(s) => if Enabled(s, events[n]) then Reached(Step(s, events[n])) else OutsideWindow
      case OutsideWindow => OutsideWindow
  }

  lemma InitialInv()
    ensures Inv(Initial()) && Live(Initial()) == multiset{}
  {
    hide GroupsOk, IdsOk;
    NothingInFlight();
    NoGroups(Initial().nextGrp);
  }

  lemma NothingInFlight()
    ensures InFlight(Initial()) == [] && Recoveries(CurCores(Initial().cur)) == 0
  {
  }

  lemma NoGroups(next: nat)
    ensures GroupsOk([]) && IdsOk([], next)
  {
  }

  // ----- What one step does to the packets -----

  /** Packet `n` is released by this step: it was held before and is not held after. */
  ghost predicate Releases(s: State, e: Event, n: nat)
    requires Inv(s) && Enabled(s, e)
  {
    n in Live(s) && n !in Live(Step(s, e))
  }

  /** A packet leaves the sender only on a report whose ranges do not contain it. */
  lemma ReleaseIsReported(s: State, e: Event, n: nat)
    requires Inv(s) && Enabled(s, e) && Releases(s, e, n)
    ensures e.Report? && s.established && !Nack.Nacked(n % ID_SPACE, e.nacks)
  {
    hide Inv, Live;
    match e
    case Queue(audio) =>
      InvShape(s);
      QueueLive(s, audio);
    case Establish => EstablishInv(s);
    case Schedule =>
      if WantsMore(s) {
        NextGroupInv(s);
      }
    case Send =>
      if s.established && s.cur != [] {
        SendInv(s);
      }
    case Report(fid, gid, nacks) =>
      var acked := ReportInv(s, fid, gid, nacks);
    case SetWindows(snd, cur) => WindowsInv(s, snd, cur);
  }

  lemma AddOne(a: multiset<nat>, b: multiset<nat>, x: nat)
    requires b == a + multiset{x}
    ensures |b| == |a| + 1 && forall n :: n in b <==> n in a || n == x
  {
  }

  /** Only queueing brings a packet in, and always the next number. */
  lemma StepLive(s: State, e: Event, n: nat)
    requires Inv(s) && Enabled(s, e)
    ensures var s' := Step(s, e);
            && (n in Live(s') ==> n in Live(s) || n == s.nextNum)
            && s'.nextNum == s.nextNum + (if e.Queue? && s.nSnd < s.nSndMax then 1 else 0)
            && (s'.nextNum > s.nextNum ==> s.nextNum in Live(s'))
            && (|Live(s')| <= |Live(s)| || (e.Queue? && s.nSnd < s.nSndMax && |Live(s')| == |Live(s)| + 1))
  {
    hide Inv, Live, NextGroup, Sender.Send, SenderReport.Report;
    match e
    case Queue(audio) =>
      InvShape(s);
      QueueLive(s, audio);
      if s.nSnd < s.nSndMax {
        AddOne(Live(s), Live(Sender.Queue(s, audio)), s.nextNum);
      }
    case Establish => EstablishInv(s);
    case Schedule =>
      if WantsMore(s) {
        NextGroupInv(s);
        InvShape(s);
        NextGroupNum(s);
      }
    case Send =>
      if s.established && s.cur != [] {
        SendInv(s);
        SendNum(s);
      }
    case Report(fid, gid, nacks) =>
      var acked := ReportInv(s, fid, gid, nacks);
      if s.established {
        InvShape(SenderReport.Report(s, fid, gid, nacks));
        SubMultiset(Live(s), Live(SenderReport.Report(s, fid, gid, nacks)), acked);
      }
    case SetWindows(snd, cur) => WindowsInv(s, snd, cur);
  }

  lemma SendNum(s: State)
    requires Inv(s) && s.cur != []
    ensures Increasing(s.cur) && Sender.Send(s).nextNum == s.nextNum && Sender.Send(s).nSndMax == s.nSndMax
  {
  }

  lemma NextGroupNum(s: State)
    requires |s.rsnd| == 3
    ensures NextGroup(s).nextNum == s.nextNum && NextGroup(s).nSndMax == s.nSndMax
  {
    hide InsertSorted, FirstFree;
  }

  // ----- Over a whole run -----

  /** In the run, the event at position `i` is a report that does not name packet `n`, and it releases `n`. */
  ghost predicate ReleasedAt(events: seq<Event>, i: nat, n: nat) {
    && i < |events| && Run(events[..i]).Reached? && Enabled(Run(events[..i]).state, events[i])
    && Releases(Run(events[..i]).state, events[i], n)
    && events[i].Report? && !Nack.Nacked(n % ID_SPACE, events[i].nacks)
  }

  lemma RunPrefix(events: seq<Event>)
    requires events != [] && Run(events).Reached?
    ensures var n := |events| - 1;
            && Run(events[..n]).Reached? && Enabled(Run(events[..n]).state, events[n])
            && Run(events).state == Step(Run(events[..n]).state, events[n])
  {
  }

  lemma ReleasedEarlier(events: seq<Event>, i: nat, n: nat)
    requires events != [] && ReleasedAt(events[..|events| - 1], i, n)
    ensures ReleasedAt(events, i, n)
  {
    hide Releases, Run, Enabled;
    assert events[..|events| - 1][..i] == events[..i];
  }

  /**
   No run loses a packet: every packet ever queued is still held in exactly one place, or some report
   that did not name it released it.
   */
  lemma {:induction false} NoPacketLost(events: seq<Event>, n: nat)
    requires Run(events).Reached? && n < Run(events).state.nextNum
    ensures Live(Run(events).state)[n] == 1 || exists i: nat :: ReleasedAt(events, i, n)
    decreases |events|
  {
    hide Live, Step, Enabled, Inv;
    if events != [] {
      hide Run;
      RunPrefix(events);
      var k := |events| - 1;
      var before, s, s' := events[..k], Run(events[..k]).state, Run(events).state;
      StepLive(s, events[k], n);
      InvShape(s');
      LiveOnce(s', n);
      if n < s.nextNum {
        NoPacketLost(before, n);
        if i: nat :| ReleasedAt(before, i, n) {
          ReleasedEarlier(events, i, n);
        } else if n !in Live(s') {
          LiveOnce(s, n);
          ReleaseIsReported(s, events[k], n);
          assert ReleasedAt(events, k, n);
        }
      }
    } else {
      RunStart();
    }
  }

  lemma RunStart()
    ensures Run([]) == Reached(Initial())
  {
  }

  lemma LiveOnce(s: State, n: nat)
    requires Inv(s)
    ensures Live(s)[n] <= 1 && (n in Live(s) <==> Live(s)[n] == 1)
  {
    hide GroupsOk, WeakOk, SlotsOk, IdsOk, QueueOk;
  }

  /** A packet number at or above the next one is not held: numbers are never used twice. */
  lemma LiveBelow(s: State, n: nat)
    requires Inv(s) && n in Live(s)
    ensures n < s.nextNum
  {
    hide GroupsOk, WeakOk, SlotsOk, IdsOk, QueueOk;
  }

  /** A released packet is gone for good, so the two cases exclude each other. */
  lemma {:induction false} ReleasedForGood(events: seq<Event>, i: nat, n: nat)
    requires Run(events).Reached? && ReleasedAt(events, i, n)
    ensures n !in Live(Run(events).state) && n < Run(events).state.nextNum
    decreases |events|
  {
    hide Live, Step, Enabled, Inv, Run;
    var k := |events| - 1;
    RunPrefix(events);
    var s := Run(events[..k]).state;
    StepLive(s, events[k], n);
    if i < k {
      assert events[..k][..i] == events[..i];
      assert events[..k][i] == events[i];
      ReleasedForGood(events[..k], i, n);
    } else {
      LiveBelow(s, n);
    }
  }

  /** When the receiver's ranges are sorted and near the packet, a released packet lies outside all of them. */
  lemma ReleasedOutsideRanges(events: seq<Event>, i: nat, n: nat, ranges: seq<Nack.NumRange>)
    requires ReleasedAt(events, i, n) && events[i].nacks == Nack.OnWire(ranges) && Nack.NearAndSorted(n, ranges)
    ensures !Nack.Member(n, ranges)
  {
    hide Run, Enabled, Releases, Nack.NearAndSorted, Nack.Member;
    Nack.NackedIsMember(n, ranges);
  }

  /** What holds in every state that any run reaches. */
  lemma EveryRun(events: seq<Event>)
    requires Run(events).Reached?
    ensures var s := Run(events).state;
            && Inv(s) && s.nSnd == |Live(s)| && s.nSnd <= BUFS
            && 2 * s.segs <= 3 * s.nSnd && 2 * s.bufs <= s.nSnd
            && s.segs < SEGMENT_POOL && s.bufs < RECOVERY_POOL
  {
    hide Run;
    PoolBounds(Run(events).state);
    hide GroupsOk, WeakOk, SlotsOk, IdsOk, QueueOk, Live;
  }

  /** New window sizes, if the event brings any, have room for the packets held. */
  predicate LeavesRoom(s: State, e: Event) {
    e.SetWindows? && e.snd > 0 ==> s.nSnd <= Min(e.snd, BUFS)
  }

  lemma WindowsRoom(s: State, snd: int, cur: int)
    requires s.nSnd <= s.nSndMax
    ensures Windows(s, snd, cur).nSnd <= Windows(s, snd, cur).nSndMax <==> LeavesRoom(s, SetWindows(snd, cur))
  {
  }

  lemma StepWindows(s: State, snd: int, cur: int)
    requires Inv(s)
    ensures Enabled(s, SetWindows(snd, cur)) && Step(s, SetWindows(snd, cur)) == Windows(s, snd, cur)
  {
    hide Inv, Windows;
  }

  lemma OtherStep(s: State, e: Event)
    requires Inv(s) && Enabled(s, e) && s.nSnd <= s.nSndMax && !e.SetWindows?
    ensures Step(s, e).nSnd <= Step(s, e).nSndMax
  {
    hide Step, Inv, Live, Enabled;
    StepLive(s, e, 0);
    StepMax(s, e);
    NSndIsLive(s);
    NSndIsLive(Step(s, e));
  }

  /** A step leaves the packets held within the window exactly if it does not make the window too small for them. */
  lemma StaysInWindow(s: State, e: Event)
    requires Inv(s) && Enabled(s, e) && s.nSnd <= s.nSndMax
    ensures Step(s, e).nSnd <= Step(s, e).nSndMax <==> LeavesRoom(s, e)
  {
    hide Step, Inv, Enabled;
    match e
    case SetWindows(snd, cur) =>
      StepWindows(s, snd, cur);
      WindowsRoom(s, snd, cur);
    case _ => OtherStep(s, e);
  }

  ghost predicate InWindowAt(events: seq<Event>, i: nat) {
    i <= |events| && (Run(events[..i]).Reached? ==> Run(events[..i]).state.nSnd <= Run(events[..i]).state.nSndMax)
  }

  ghost predicate RoomAt(events: seq<Event>, i: nat) {
    i < |events| && (Run(events[..i]).Reached? ==> LeavesRoom(Run(events[..i]).state, events[i]))
  }

  lemma ReachedBefore(events: seq<Event>)
    requires events != [] && Run(events).Reached?
    ensures Run(events[..|events| - 1]).Reached?
  {
    hide Inv, Step, Enabled;
  }

  lemma SamePrefix(events: seq<Event>, i: nat)
    requires i < |events|
    ensures events[..|events| - 1][..i] == events[..i]
  {
  }

  lemma {:induction false} PrefixReached(events: seq<Event>, i: nat)
    requires Run(events).Reached? && i <= |events|
    ensures Run(events[..i]).Reached?
    decreases |events|
  {
    hide Run;
    if i == |events| {
      assert events[..i] == events;
    } else {
      ReachedBefore(events);
      SamePrefix(events, i);
      PrefixReached(events[..|events| - 1], i);
    }
  }

  lemma WindowStep(events: seq<Event>, i: nat)
    requires Run(events).Reached? && i < |events| && InWindowAt(events, i)
    ensures InWindowAt(events, i + 1) <==> RoomAt(events, i)
  {
    hide Run, LeavesRoom, Enabled, Inv, Step;
    PrefixReached(events, i);
    PrefixReached(events, i + 1);
    assert events[..i + 1][..i] == events[..i];
    RunPrefix(events[..i + 1]);
    StaysInWindow(Run(events[..i]).state, events[i]);
  }

  lemma {:induction false} WindowKept(events: seq<Event>, i: nat)
    requires Run(events).Reached? && i <= |events| && forall k: nat :: k < i ==> RoomAt(events, k)
    ensures InWindowAt(events, i)
    decreases i
  {
    if i == 0 {
      RunStart();
      assert events[..0] == [];
    } else {
      hide InWindowAt, RoomAt, Run;
      WindowKept(events, i - 1);
      WindowStep(events, i - 1);
    }
  }

  /**
   The number of packets held stays within the window all along a run if and only if no new window size is
   smaller than the number held when it is set.
   */
  lemma {:induction false} AlwaysInWindow(events: seq<Event>)
    requires Run(events).Reached?
    ensures (forall i: nat :: i <= |events| ==> InWindowAt(events, i))
       <==> (forall i: nat :: i < |events| ==> RoomAt(events, i))
  {
    hide InWindowAt, RoomAt, Run;
    if forall i: nat :: i <= |events| ==> InWindowAt(events, i) {
      forall i: nat | i < |events| ensures RoomAt(events, i) {
        WindowStep(events, i);
        assert InWindowAt(events, i) && InWindowAt(events, i + 1);
      }
    }
    if forall i: nat :: i < |events| ==> RoomAt(events, i) {
      forall i: nat | i <= |events| ensures InWindowAt(events, i) {
        WindowKept(events, i);
      }
    }
  }

  lemma NSndIsLive(s: State)
    requires Inv(s)
    ensures s.nSnd == |Live(s)|
  {
    hide GroupsOk, WeakOk, SlotsOk, IdsOk, QueueOk, Live;
  }

  lemma StepMax(s: State, e: Event)
    requires Inv(s) && Enabled(s, e) && !e.SetWindows?
    ensures Step(s, e).nSndMax == s.nSndMax
  {
    hide Inv, NextGroup, Sender.Send, SenderReport.Report, Live;
    InvShape(s);
    match e
    case Schedule => NextGroupNum(s);
    case Send =>
      if s.established && s.cur != [] {
        SendNum(s);
      }
    case Report(fid, gid, nacks) =>
      if s.established {
        var acked := ReportInv(s, fid, gid, nacks);
      }
    case _ =>
  }
}
