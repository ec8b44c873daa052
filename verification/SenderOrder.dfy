/** The order in which packets leave the sender: new ones first come, first served, missed ones before them. */
module SenderOrder {
  import opened Schedule
  import opened Groups
  import opened Sender
  import opened SenderReport
  import opened SenderRun
  import Nack

  // ----- Queueing -----

  lemma Regroup(a: seq<Seg>, b: seq<Seg>, c: seq<Seg>, d: seq<Seg>, x: Seg)
    ensures a + b + c + (d + [x]) == a + b + c + d + [x]
    ensures a + ([x] + b) + c + d == a + [x] + (a + b + c + d)[|a|..]
  {
  }

  /** A new packet waits behind all others; an audio packet overtakes all but those missed three times. */
  lemma QueuePlace(s: State, audio: bool)
    requires |s.rsnd| == 3
    ensures var x := Packet(s.nextNum, audio);
            Pending(Sender.Queue(s, audio)) ==
              if audio then s.rsnd[2] + [x] + Pending(s)[|s.rsnd[2]|..] else Pending(s) + [x]
  {
    Regroup(s.rsnd[2], s.rsnd[1], s.rsnd[0], s.snd, Packet(s.nextNum, audio));
  }

  /** New packets wait in the order of their numbers. */
  ghost predicate InOrder(s: State) {
    && (forall i, j :: 0 <= i < j < |s.snd| ==> s.snd[i].num < s.snd[j].num)
    && (forall i :: 0 <= i < |s.snd| ==> s.snd[i].num < s.nextNum)
  }

  /** Packets leave the queue at its front and join it at its end, with the next number. */
  ghost predicate FirstInFirstOut(s: State, s': State) {
    && s.nextNum <= s'.nextNum
    && ((exists k: nat :: k <= |s.snd| && s'.snd == s.snd[k..])
        || (s'.snd == s.snd + [Packet(s.nextNum, false)] && s'.nextNum == s.nextNum + 1))
  }

  lemma SameQueue(s: State, s': State)
    requires s'.snd == s.snd && s'.nextNum >= s.nextNum
    ensures FirstInFirstOut(s, s')
  {
    assert s.snd == s.snd[0..];
  }

  lemma QueueFifo(s: State, audio: bool)
    requires |s.rsnd| == 3
    ensures FirstInFirstOut(s, Sender.Queue(s, audio))
  {
    if audio {
      SameQueue(s, Sender.Queue(s, audio));
    }
  }

  lemma PopFifo(s: State) returns (k: nat)
    requires |s.rsnd| == 3 && Pending(s) != []
    ensures |PopPending(s).rsnd| == 3 && PopPending(s).nextNum == s.nextNum
    ensures k <= |s.snd| && PopPending(s).snd == s.snd[k..]
  {
    k := if s.rsnd[2] == [] && s.rsnd[1] == [] && s.rsnd[0] == [] then 1 else 0;
  }

  lemma PlaceSnd(s: State)
    requires |s.rsnd| == 3 && Pending(s) != []
    ensures ScheduleOne(s).snd == PopPending(s).snd && ScheduleOne(s).nextNum == s.nextNum
    ensures |Pending(s)| >= 2 ==> |PopPending(s).rsnd| == 3 && Pending(PopPending(s)) != []
                                  && ScheduleTwo(s).snd == PopPending(PopPending(s)).snd
                                  && ScheduleTwo(s).nextNum == s.nextNum
  {
    hide InsertSorted, FirstFree;
    PopTwice(s);
    PopNum(s);
    if |Pending(s)| >= 2 {
      PopNum(PopPending(s));
      hide PopPending, Pending;
    }
  }

  lemma PopNum(s: State)
    requires |s.rsnd| == 3 && Pending(s) != []
    ensures PopPending(s).nextNum == s.nextNum
  {
  }

  lemma DropTwice(a: seq<Seg>, k: nat, l: nat)
    requires k <= |a| && l <= |a| - k
    ensures a[k..][l..] == a[k + l..]
  {
  }

  lemma Dropped(s: State, s': State, k: nat)
    requires k <= |s.snd| && s'.snd == s.snd[k..] && s'.nextNum == s.nextNum
    ensures FirstInFirstOut(s, s')
  {
  }

  lemma ScheduleTwoFifo(s: State)
    requires |s.rsnd| == 3 && |Pending(s)| >= 2
    ensures FirstInFirstOut(s, ScheduleTwo(s))
  {
    hide ScheduleOne, ScheduleTwo, Pending, PopPending, FirstInFirstOut;
    PlaceSnd(s);
    var k := PopFifo(s);
    var l := PopFifo(PopPending(s));
    DropTwice(s.snd, k, l);
    Dropped(s, ScheduleTwo(s), k + l);
  }

  lemma NextGroupFifo(s: State)
    requires |s.rsnd| == 3
    ensures FirstInFirstOut(s, NextGroup(s))
  {
    hide ScheduleOne, ScheduleTwo, Pending, PopPending, FirstInFirstOut;
    if Pending(s) == [] {
      SameQueue(s, s);
    } else if s.rsnd[2] != [] && |Pending(s)| >= 2 {
      ScheduleTwoFifo(s);
    } else {
      PlaceSnd(s);
      var k := PopFifo(s);
      Dropped(s, ScheduleOne(s), k);
    }
  }

  lemma ReportFifo(s: State, fid: nat, gid: nat, nacks: seq<Nack.Range>)
    requires Inv(s)
    ensures Low(s.wak) && |s.rsnd| == 3 && FirstInFirstOut(s, SenderReport.Report(s, fid, gid, nacks))
  {
    hide Inv;
    InvShape(s);
    var acked := ReportInv(s, fid, gid, nacks);
    ReportExactly(s, fid, gid, nacks);
    SameQueue(s, SenderReport.Report(s, fid, gid, nacks));
  }

  lemma SendFifo(s: State)
    requires s.cur != [] && Increasing(s.cur)
    ensures FirstInFirstOut(s, Sender.Send(s))
  {
    SameQueue(s, Sender.Send(s));
  }

  /** Whatever happens, new packets leave their queue in front and join it at the end. */
  lemma StepFifo(s: State, e: Event)
    requires Inv(s) && Enabled(s, e)
    ensures FirstInFirstOut(s, Step(s, e))
  {
    hide Inv, FirstInFirstOut, NextGroup, Sender.Send, SenderReport.Report, Sender.Queue;
    InvShape(s);
    SameQueue(s, s);
    match e
    case Queue(audio) => QueueFifo(s, audio);
    case Establish => SameQueue(s, s.(established := true));
    case Schedule => NextGroupFifo(s);
    case Send =>
      if s.established && s.cur != [] {
        SendFifo(s);
      }
    case Report(fid, gid, nacks) => ReportFifo(s, fid, gid, nacks);
    case SetWindows(snd, cur) => SameQueue(s, Windows(s, snd, cur));
  }

  lemma FifoKeepsOrder(s: State, s': State)
    requires InOrder(s) && FirstInFirstOut(s, s')
    ensures InOrder(s')
  {
    hide InOrder;
    if k: nat :| k <= |s.snd| && s'.snd == s.snd[k..] {
      SuffixInOrder(s, s', k);
    } else {
      MoreInOrder(s, s');
    }
  }

  lemma SuffixInOrder(s: State, s': State, k: nat)
    requires InOrder(s) && k <= |s.snd| && s'.snd == s.snd[k..] && s.nextNum <= s'.nextNum
    ensures InOrder(s')
  {
  }

  lemma MoreInOrder(s: State, s': State)
    requires InOrder(s) && s'.snd == s.snd + [Packet(s.nextNum, false)] && s'.nextNum == s.nextNum + 1
    ensures InOrder(s')
  {
  }

  /** In every state of every run new packets wait in the order in which they were queued. */
  lemma {:induction false} AlwaysInOrder(events: seq<Event>)
    requires Run(events).Reached?
    ensures InOrder(Run(events).state)
    decreases |events|
  {
    hide Run, Step, Enabled, FirstInFirstOut, InOrder, Inv;
    if events == [] {
      RunStart();
      NothingWaits();
    } else {
      RunPrefix(events);
      var n := |events| - 1;
      AlwaysInOrder(events[..n]);
      StepFifo(Run(events[..n]).state, events[n]);
      FifoKeepsOrder(Run(events[..n]).state, Run(events).state);
    }
  }

  lemma NothingWaits()
    ensures InOrder(Initial())
  {
  }

  // ----- First come, first served, over a whole run -----

  /** In the run, the event at position `i` queues an ordinary packet, which gets number `n`. */
  ghost predicate QueuedAt(events: seq<Event>, i: nat, n: nat) {
    && i < |events| && events[i] == SenderRun.Queue(false) && Run(events[..i]).Reached?
    && Run(events[..i]).state.nSnd < Run(events[..i]).state.nSndMax && Run(events[..i]).state.nextNum == n
  }

  /** Packet `n` waits to be scheduled for the first time. */
  ghost predicate Waits(s: State, n: nat) {
    exists i :: 0 <= i < |s.snd| && s.snd[i].num == n
  }

  /** Packets behind one that is still waiting are still waiting. */
  lemma WaitsBehind(s: State, s': State, k: nat, n: nat, m: nat)
    requires InOrder(s) && k <= |s.snd| && s'.snd == s.snd[k..] && n < m && Waits(s', n) && Waits(s, m)
    ensures Waits(s', m)
  {
    hide InOrder;
    var j :| 0 <= j < |s.snd| && s.snd[j].num == m;
    var i :| 0 <= i < |s'.snd| && s'.snd[i].num == n;
    AtSuffix(s.snd, k, k + i);
    InFront(s, k + i, j);
    AtSuffix(s.snd, k, j);
  }

  lemma AtSuffix(w: seq<Seg>, k: nat, j: nat)
    requires k <= j < |w|
    ensures w[k..][j - k] == w[j]
  {
  }

  lemma InFront(s: State, i: nat, j: nat)
    requires InOrder(s) && i < |s.snd| && j < |s.snd| && s.snd[i].num < s.snd[j].num
    ensures i < j
  {
  }

  lemma WaitsWithMore(s: State, s': State, x: Seg, m: nat)
    requires s'.snd == s.snd + [x] && Waits(s, m)
    ensures Waits(s', m)
  {
    var j :| 0 <= j < |s.snd| && s.snd[j].num == m;
    assert s'.snd[j] == s.snd[j];
  }

  lemma StillWaits(s: State, s': State, n: nat, m: nat)
    requires InOrder(s) && FirstInFirstOut(s, s') && n < m && Waits(s', n) && Waits(s, m)
    ensures Waits(s', m)
  {
    hide InOrder, Waits;
    if k: nat :| k <= |s.snd| && s'.snd == s.snd[k..] {
      WaitsBehind(s, s', k, n, m);
    } else {
      WaitsWithMore(s, s', Packet(s.nextNum, false), m);
    }
  }

  lemma JustQueued(s: State)
    requires |s.rsnd| == 3
    ensures Waits(Sender.Queue(s, false), s.nextNum)
  {
    var q := Sender.Queue(s, false).snd;
    assert q[|q| - 1].num == s.nextNum;
  }

  lemma QueuedEarlier(events: seq<Event>, i: nat, n: nat)
    requires QueuedAt(events, i, n) && i < |events| - 1
    ensures QueuedAt(events[..|events| - 1], i, n)
  {
    hide Run;
    SamePrefix(events, i);
  }

  lemma QueueStep(s: State)
    requires Inv(s) && s.nSnd < s.nSndMax && Enabled(s, SenderRun.Queue(false))
    ensures |s.rsnd| == 3 && Step(s, SenderRun.Queue(false)) == Sender.Queue(s, false)
  {
    hide Inv, Sender.Queue;
    InvShape(s);
  }

  /** A number given at some step is below the next number from then on. */
  lemma {:induction false} GivenBefore(events: seq<Event>, i: nat, n: nat)
    requires Run(events).Reached? && QueuedAt(events, i, n)
    ensures n < Run(events).state.nextNum
    decreases |events|
  {
    hide Run, Step, Enabled, Inv;
    RunPrefix(events);
    var k := |events| - 1;
    var s := Run(events[..k]).state;
    if i < k {
      QueuedEarlier(events, i, n);
      GivenBefore(events[..k], i, n);
      StepFifo(s, events[k]);
    } else {
      QueueStep(s);
    }
  }

  /** No packet overtakes one queued before it: while a packet waits, so do all ordinary packets queued later. */
  lemma {:induction false} FirstComeFirstServed(events: seq<Event>, i: nat, n: nat, j: nat, m: nat)
    requires Run(events).Reached? && QueuedAt(events, i, n) && QueuedAt(events, j, m) && i < j
    requires Waits(Run(events).state, n)
    ensures n < m && Waits(Run(events).state, m)
    decreases |events|
  {
    hide Run, Step, Enabled, Inv, Waits, FirstInFirstOut, InOrder;
    RunPrefix(events);
    var k := |events| - 1;
    var s, s' := Run(events[..k]).state, Run(events).state;
    QueuedEarlier(events, i, n);
    GivenBefore(events[..k], i, n);
    AlwaysInOrder(events[..k]);
    StepFifo(s, events[k]);
    if j == k {
      QueueStep(s);
      JustQueued(s);
    } else {
      QueuedEarlier(events, j, m);
      WaitedBefore(s, s', n);
      FirstComeFirstServed(events[..k], i, n, j, m);
      StillWaits(s, s', n, m);
    }
  }

  lemma WaitedBefore(s: State, s': State, n: nat)
    requires FirstInFirstOut(s, s') && Waits(s', n) && n < s.nextNum
    ensures Waits(s, n)
  {
    var i :| 0 <= i < |s'.snd| && s'.snd[i].num == n;
    if k: nat :| k <= |s.snd| && s'.snd == s.snd[k..] {
      assert s.snd[k + i].num == n;
    } else {
      assert s'.snd[i] == s.snd[i];
    }
  }

  // ----- Scheduling -----

  lemma PlaceIn(a: seq<Entry>, e: Entry)
    ensures e in InsertSorted(a, e)
  {
    InsertMembers(a, e);
  }

  /** When nothing was reported missing, the packet scheduled next is the oldest new one. */
  lemma OldestFirst(s: State)
    requires |s.rsnd| == 3 && InOrder(s) && s.snd != [] && s.rsnd[0] == [] && s.rsnd[1] == [] && s.rsnd[2] == []
    ensures exists e :: e in NextGroup(s).cur && e.seg.num == s.snd[0].num && e.seg.grp == s.nextGrp
    ensures NextGroup(s).snd == s.snd[1..]
    ensures forall x :: x in NextGroup(s).snd ==> s.snd[0].num < x.num
  {
    hide InsertSorted, FirstFree;
    assert Pending(s) == s.snd;
    var x := s.snd[0].(grp := s.nextGrp, fty := Fec11, gid := 0, wsn := 0, gidEnd := true);
    PlaceIn(s.cur, Entry(FirstFree(s.cur, 0), x));
  }

  /** Packets wait in the order of how often they were missed, and the first one is scheduled next. */
  lemma MostMissedFirst(s: State)
    requires QueuesOk(s) && Pending(s) != []
    ensures forall i, j :: 0 <= i < j < |Pending(s)| ==> Pending(s)[j].wrn <= Pending(s)[i].wrn
    ensures exists e :: e in NextGroup(s).cur && e.seg.num == Pending(s)[0].num && e.seg.grp == s.nextGrp
  {
    hide InsertSorted, FirstFree, PopPending;
    if s.rsnd[2] != [] && |Pending(s)| >= 2 {
      var at0, at1, at2 := GroupIsSpread(s);
      hide ScheduleTwo, Pending;
      var e := Entry(at0, Pending(s)[0].(grp := s.nextGrp, fty := Fec23, gid := 0, wsn := 0));
      assert e in ScheduleTwo(s).cur;
    } else {
      OneIsFirst(s);
    }
  }

  lemma OneIsFirst(s: State)
    requires |s.rsnd| == 3 && Pending(s) != []
    ensures exists e :: e in ScheduleOne(s).cur && e.seg.num == Pending(s)[0].num && e.seg.grp == s.nextGrp
  {
    hide InsertSorted, FirstFree, Pending;
    PopCur(s);
    hide PopPending;
    var x := Pending(s)[0].(grp := s.nextGrp, fty := Fec11, gid := 0, wsn := 0, gidEnd := true);
    PlaceIn(s.cur, Entry(FirstFree(s.cur, 0), x));
    assert Entry(FirstFree(s.cur, 0), x) in ScheduleOne(s).cur;
  }

  /** `t` is the first slot from `w` on that is neither taken nor one of `used`. */
  ghost predicate EarliestFree(a: seq<Entry>, used: set<nat>, w: nat, t: nat) {
    w <= t && !Taken(a, t) && t !in used && forall u :: w <= u < t ==> Taken(a, u) || u in used
  }

  lemma TakenAfter(a: seq<Entry>, e: Entry, t: nat)
    ensures Taken(InsertSorted(a, e), t) <==> Taken(a, t) || t == e.at
  {
    InsertMembers(a, e);
    var r := InsertSorted(a, e);
    if Taken(a, t) {
      var i :| 0 <= i < |a| && a[i].at == t;
      assert a[i] in r;
    }
    assert e in r;
    if Taken(r, t) {
      var i :| 0 <= i < |r| && r[i].at == t;
      assert r[i] in a || r[i] == e;
    }
  }

  lemma EarliestAfter(a: seq<Entry>, used: set<nat>, b: seq<Entry>, w: nat)
    requires Increasing(b) && forall t: nat :: Taken(b, t) <==> Taken(a, t) || t in used
    ensures EarliestFree(a, used, w, FirstFree(b, w))
  {
    hide FirstFree, Taken;
    FirstFreeIsLeast(b, w);
  }

  /** Each member of a group of three gets the earliest slot that is free and far enough behind the one before. */
  lemma GroupIsEarly(s: State) returns (at0: nat, at1: nat, at2: nat)
    requires |s.rsnd| == 3 && |Pending(s)| >= 2 && Increasing(s.cur)
    ensures EarliestFree(s.cur, {}, 0, at0)
    ensures EarliestFree(s.cur, {at0}, at0 + s.interval, at1)
    ensures EarliestFree(s.cur, {at0, at1}, at1 + s.interval, at2)
    ensures forall e :: e in ScheduleTwo(s).cur <==>
              || e in s.cur
              || e == Entry(at0, Pending(s)[0].(grp := s.nextGrp, fty := Fec23, gid := 0, wsn := 0))
              || e == Entry(at1, Pending(s)[1].(grp := s.nextGrp, fty := Fec23, gid := 1, wsn := 0))
              || e == Entry(at2, Recovery(s.nextGrp))
  {
    hide FirstFree, InsertSorted, Taken, Pending, ScheduleTwo, EarliestFree;
    at0, at1, at2 := GroupIsSpread(s);
    var e0 := Entry(at0, Pending(s)[0].(grp := s.nextGrp, fty := Fec23, gid := 0, wsn := 0));
    var e1 := Entry(at1, Pending(s)[1].(grp := s.nextGrp, fty := Fec23, gid := 1, wsn := 0));
    var cur1 := InsertSorted(s.cur, e0);
    FirstFreeIsLeast(s.cur, 0);
    InsertIncreasing(s.cur, e0);
    FirstFreeIsLeast(cur1, at0 + s.interval);
    InsertIncreasing(cur1, e1);
    EarliestAfter(s.cur, {}, s.cur, 0);
    forall t: nat ensures Taken(cur1, t) <==> Taken(s.cur, t) || t in {at0} {
      TakenAfter(s.cur, e0, t);
    }
    EarliestAfter(s.cur, {at0}, cur1, at0 + s.interval);
    forall t: nat ensures Taken(InsertSorted(cur1, e1), t) <==> Taken(s.cur, t) || t in {at0, at1} {
      TakenAfter(s.cur, e0, t);
      TakenAfter(cur1, e1, t);
    }
    EarliestAfter(s.cur, {at0, at1}, InsertSorted(cur1, e1), at1 + s.interval);
  }

  /**
   A group of two packets with a recovery segment is made exactly when a packet missed three times waits and there
   is another packet; any other packet goes out alone.
   */
  lemma GroupChoice(s: State)
    requires |s.rsnd| == 3
    ensures |NextGroup(s).cur| - |s.cur| == if Pending(s) == [] then 0
                                            else if s.rsnd[2] != [] && |Pending(s)| > 1 then 3 else 1
    ensures Pending(s) != [] && (s.rsnd[2] == [] || |Pending(s)| == 1) ==> |Pending(NextGroup(s))| == |Pending(s)| - 1
    ensures s.rsnd[2] != [] && |Pending(s)| > 1 ==> |Pending(NextGroup(s))| == |Pending(s)| - 2
  {
    hide InsertSorted, FirstFree, Pending, PopPending;
    if Pending(s) != [] {
      PopTwice(s);
      SamePending(s);
    }
  }

  lemma SamePending(s: State)
    requires |s.rsnd| == 3 && Pending(s) != []
    ensures Pending(ScheduleOne(s)) == Pending(PopPending(s)) && |PopPending(s).rsnd| == 3
    ensures |ScheduleOne(s).cur| == |s.cur| + 1
    ensures |Pending(s)| >= 2 ==> Pending(PopPending(s)) != []
                                  && |PopPending(PopPending(s)).rsnd| == 3
                                  && Pending(ScheduleTwo(s)) == Pending(PopPending(PopPending(s)))
                                  && |Pending(PopPending(PopPending(s)))| == |Pending(s)| - 2
                                  && |ScheduleTwo(s).cur| == |s.cur| + 3
  {
    hide InsertSorted, FirstFree;
    PopTwice(s);
    PopCur(s);
    if |Pending(s)| >= 2 {
      PopTwice(PopPending(s));
      PopCur(PopPending(s));
    }
    hide PopPending;
  }

  lemma PopCur(s: State)
    requires |s.rsnd| == 3 && Pending(s) != []
    ensures PopPending(s).cur == s.cur
  {
  }

  // ----- Windows -----

  /** The send interval is the nearest whole number to a third of the schedule window, which is at most 46. */
  lemma IntervalIsThird(s: State, snd: int, cur: int)
    requires snd > 0 && cur > 0
    ensures Windows(s, snd, cur).nSndMax == if snd <= 453 then snd else 453
    ensures cur <= 46 ==> -1 <= 3 * Windows(s, snd, cur).interval - cur <= 1
    ensures cur > 46 ==> Windows(s, snd, cur).interval == 15
  {
  }

  // ----- Packets missed again -----

  /** The resend list for a packet missed after it was on list `wrn - 1` (or new): one further, up to the last. */
  function NextList(wrn: nat): (i: nat)
    ensures i < 3
  {
    if wrn == 0 then 0 else if wrn == 1 then 1 else 2
  }

  /** The packets of a group that are missing again and go to list `i`, in the order in which they are settled. */
  function GoTo(m: seq<Seg>, i: nat, nacks: seq<Nack.Range>): (nums: seq<nat>)
    decreases |m|
  {
    if m == [] then []
    else
      var x := m[|m| - 1];
      (if !x.recovery && Nack.Nacked(x.num % ID_SPACE, nacks) && NextList(x.wrn) == i then [x.num] else [])
      + GoTo(m[..|m| - 1], i, nacks)
  }

  function Numbers(w: seq<Seg>): (nums: seq<nat>)
    ensures |nums| == |w| && forall i :: 0 <= i < |w| ==> nums[i] == w[i].num
  {
    seq(|w|, i requires 0 <= i < |w| => w[i].num)
  }

  lemma SettleGoes(s: State, x: Seg, nacks: seq<Nack.Range>, i: nat)
    requires |s.rsnd| == 3 && x.wrn <= 3 && i < 3
    ensures Numbers(Settle(s, x, nacks).rsnd[i]) == Numbers(s.rsnd[i]) + GoTo([x], i, nacks)
  {
    assert [x][..0] == [];
    assert GoTo([x][..0], i, nacks) == [];
  }

  lemma GoToLast(m: seq<Seg>, i: nat, nacks: seq<Nack.Range>)
    requires m != []
    ensures GoTo(m, i, nacks) == GoTo([m[|m| - 1]], i, nacks) + GoTo(m[..|m| - 1], i, nacks)
  {
    assert [m[|m| - 1]][..0] == [];
    assert GoTo([], i, nacks) == [];
  }

  lemma Concat(a: seq<nat>, b: seq<nat>, c: seq<nat>)
    ensures a + b + c == a + (b + c) && a + [] == a
  {
  }

  lemma {:induction false} SettleAllGoes(s: State, m: seq<Seg>, nacks: seq<Nack.Range>, i: nat)
    requires |s.rsnd| == 3 && i < 3 && forall j :: 0 <= j < |m| ==> m[j].wrn <= 3
    ensures Numbers(SettleAll(s, m, nacks).rsnd[i]) == Numbers(s.rsnd[i]) + GoTo(m, i, nacks)
    decreases |m|
  {
    if m == [] {
      Concat(Numbers(s.rsnd[i]), [], []);
    } else {
      hide Settle, GoTo, Numbers;
      var x := m[|m| - 1];
      SettleGoes(s, x, nacks, i);
      SettleAllGoes(Settle(s, x, nacks), m[..|m| - 1], nacks, i);
      GoToLast(m, i, nacks);
      Concat(Numbers(s.rsnd[i]), GoTo([x], i, nacks), GoTo(m[..|m| - 1], i, nacks));
    }
  }

  /** Settling a group puts each packet missed again at the end of the next resend list, and no other packet. */
  lemma SettleGroupGoes(s: State, k: nat, nacks: seq<Nack.Range>, i: nat)
    requires |s.rsnd| == 3 && Low(s.wak) && i < 3
    ensures Numbers(SettleGroup(s, k, nacks).rsnd[i]) == Numbers(s.rsnd[i]) + GoTo(Members(s.wak, k), i, nacks)
  {
    MembersLow(s.wak, k);
    SettleAllGoes(s.(wak := Without(s.wak, k)), Members(s.wak, k), nacks, i);
  }

  /** Pruning keeps the packets that are still missing, in their order. */
  lemma {:induction false} KeptIs(a: seq<Seg>, b: seq<Seg>, nacks: seq<Nack.Range>)
    ensures Kept(a + b, nacks) == Kept(a, nacks) + Kept(b, nacks)
    ensures forall x :: x in Kept(a, nacks) <==> x in a && Nack.Nacked(x.num % ID_SPACE, nacks)
  {
    if a == [] {
      assert a + b == b;
    } else {
      assert (a + b)[1..] == a[1..] + b;
      KeptIs(a[1..], b, nacks);
    }
  }
}
