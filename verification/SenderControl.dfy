/** The control block of the Reliable Stream sender: lists and counters updated in place. */
module SenderControl {
  import opened Schedule
  import opened Groups
  import opened Sender
  import opened SenderReport
  import opened SenderWalk
  import SenderRun
  import SenderOrder
  import Nack

  const ARQ_DATA_SIZE: int := 1446
  const PACKET_SIZE: int := 1448

  /** The group type for the queue of its first packet; queue 0 holds packets reported missing three times. */
  function TypeFromQueue(queue: nat): (t: FecType) {
    if queue == 0 then Fec23 else Fec11
  }

  /** Queues in scheduling order: `rsnd[2]`, `rsnd[1]`, `rsnd[0]`, `snd`. */
  function QueueAt(s: State, queue: nat): (w: seq<Seg>)
    requires |s.rsnd| == 3 && queue <= 3
  {
    if queue < 3 then s.rsnd[2 - queue] else s.snd
  }

  /** The queues from `from` up to `queue` hold nothing. */
  ghost predicate EmptyUpTo(s: State, from: nat, queue: nat)
    requires |s.rsnd| == 3 && queue <= 4
  {
    forall q :: from <= q < queue ==> QueueAt(s, q) == []
  }

  class Control {
    const cid: nat
    var nextNum: nat
    var nextGrp: nat
    var nSnd: int
    var nSndMax: nat
    var interval: nat
    var snd: seq<Seg>
    var rsnd: seq<seq<Seg>>
    var cur: seq<Seg>
    var wak: seq<Seg>
    var segs: int
    var bufs: int
    var established: bool

    /** The abstract state: the delta-coded schedule stands for absolute slots. */
    function View(): (s: State)
      reads this
    {
      State(nextNum, nextGrp, nSnd, nSndMax, interval, snd, rsnd, Slots(cur), wak, segs, bufs, established)
    }

    ghost predicate Valid()
      reads this
    {
      Inv(View())
    }

    constructor (cid: nat)
      ensures View() == Initial() && Valid() && this.cid == cid % 2
    {
      this.cid := cid % 2;
      nextNum, nextGrp, nSnd, nSndMax, interval := 0, 0, 0, BUFS, 0;
      snd, rsnd, cur, wak := [], [[], [], []], [], [];
      segs, bufs, established := 0, 0, false;
      new;
      SenderRun.InitialInv();
      assert View() == Initial();
    }

    /** Queues a packet. The segment pool is never empty, so only a wrong size or a full window is refused. */
    method QueuePacket(len: int, audio: bool) returns (code: int)
      requires Valid()
      modifies this
      ensures Valid()
      ensures code == if len != ARQ_DATA_SIZE then -2 else if old(nSnd) >= old(nSndMax) then -4 else 0
      ensures View() == if len == ARQ_DATA_SIZE then SenderRun.Step(old(View()), SenderRun.Queue(audio))
                        else old(View())
      ensures |old(rsnd)| == |rsnd| == 3
      ensures code == 0 ==>
        Pending(View())
        == if audio then old(rsnd[2]) + [Packet(old(nextNum), audio)] + old(Pending(View())[|rsnd[2]|..])
           else old(Pending(View())) + [Packet(old(nextNum), audio)]
    {
      hide Inv, Slots, Pending;
      SenderRun.InvShape(View());
      SenderOrder.QueuePlace(View(), audio);
      if len != ARQ_DATA_SIZE {
        return -2;
      }
      if nSndMax - nSnd <= 0 {
        return -4;
      }
      PoolBounds(View());
      if segs >= SEGMENT_POOL {
        assert false;
        return -3;
      }
      segs := segs + 1;
      var seg := Packet(nextNum, audio);
      nextNum := nextNum + 1;
      if audio {
        rsnd := rsnd[1 := [seg] + rsnd[1]];
      } else {
        snd := snd + [seg];
      }
      nSnd := nSnd + 1;
      assert View() == Sender.Queue(old(View()), audio);
      QueueInv(old(View()), audio);
      return 0;
    }

    // ----- Scheduling -----

    /** The first non-empty queue from `from` on, or 4. */
    method FirstQueue(from: nat) returns (queue: nat)
      requires |rsnd| == 3 && from <= 4
      ensures from <= queue <= 4 && EmptyUpTo(View(), from, queue)
      ensures queue < 4 ==> QueueAt(View(), queue) != []
    {
      hide Slots;
      queue := from;
      while queue < 4 && (if queue < 3 then rsnd[2 - queue] else snd) == []
        invariant from <= queue <= 4 && EmptyUpTo(View(), from, queue)
      {
        queue := queue + 1;
      }
    }

    /** Takes the first segment off a queue. */
    method TakeFirst(queue: nat) returns (seg: Seg)
      requires |rsnd| == 3 && queue <= 3 && QueueAt(View(), queue) != []
      requires EmptyUpTo(View(), 0, queue)
      modifies this
      ensures old(Pending(View())) != [] && seg == old(Pending(View()))[0]
      ensures View() == PopPending(old(View())) && cur == old(cur)
    {
      hide Slots;
      PendingHead(View(), queue);
      if queue < 3 {
        seg := rsnd[2 - queue][0];
        rsnd := rsnd[2 - queue := rsnd[2 - queue][1..]];
      } else {
        seg := snd[0];
        snd := snd[1..];
      }
    }

    /** Takes the first two pending segments off their queues. */
    method TakeTwo(queue: nat, queue1: nat) returns (seg0: Seg, seg1: Seg)
      requires |rsnd| == 3 && |Pending(View())| >= 2
      requires queue <= 3 && QueueAt(View(), queue) != [] && EmptyUpTo(View(), 0, queue)
      requires |PopPending(View()).rsnd| == 3
      requires queue1 <= 3 && QueueAt(PopPending(View()), queue1) != [] && EmptyUpTo(PopPending(View()), 0, queue1)
      modifies this
      ensures Pending(PopPending(old(View()))) != []
      ensures seg0 == Pending(old(View()))[0] && seg1 == Pending(old(View()))[1]
      ensures View() == PopPending(PopPending(old(View()))) && View() == old(View()).(snd := snd, rsnd := rsnd)
    {
      hide Slots, PopPending, Pending, QueueAt, EmptyUpTo;
      ghost var s := View();
      PopTwice(s);
      PopOnly(s);
      PopOnly(PopPending(s));
      seg0 := TakeFirst(queue);
      seg1 := TakeFirst(queue1);
    }

    /** Inserts a segment into the schedule at its requested slot and tells how far it was displaced. */
    method InsertSendCur(seg: Seg) returns (ret: nat)
      modifies this
      ensures ret == FirstFree(old(View()).cur, seg.wsn) - seg.wsn
      ensures View() == Place(old(View()), seg.(wsn := 0), seg.wsn)
    {
      cur, ret := InsertStandalone(cur, seg);
    }

    /** Schedules the next group; 1 when nothing is queued. No error code is ever returned. */
    method QueueSendCur() returns (code: int)
      requires Valid() && established && Window(View())
      modifies this
      ensures Valid() && |old(View()).rsnd| == 3
      ensures View() == NextGroup(old(View()))
      ensures code == if old(Pending(View())) == [] then 1 else 0
    {
      hide Inv, Slots, Window, FirstFree, InsertSorted, PopPending, Pending, EmptyUpTo, ScheduleOne, ScheduleTwo;
      ghost var s := View();
      SenderRun.InvShape(s);
      SenderRun.NextGroupInv(s);
      PoolBounds(s);
      var queue := FirstQueue(0);
      PendingQueues(s, queue);
      if queue == 4 {
        return 1;
      }
      var fty := TypeFromQueue(queue);
      if OriginalCount(fty) != 1 {
        SecondPending(s);
        var queue1 := queue;
        if |rsnd[2 - queue]| < 2 {
          queue1 := FirstQueue(queue + 1);
          SecondQueue(s, queue1);
        }
        if queue1 != 4 {
          code := ScheduleGroup(queue, queue1);
          return;
        }
        fty := Fec11;
      }
      ScheduleSingle(queue, fty);
      return 0;
    }

    /** Schedules the first packet alone. */
    method ScheduleSingle(queue: nat, fty: FecType)
      requires |rsnd| == 3 && fty == Fec11
      requires queue <= 3 && QueueAt(View(), queue) != [] && EmptyUpTo(View(), 0, queue)
      modifies this
      ensures old(Pending(View())) != [] && View() == ScheduleOne(old(View()))
    {
      hide Slots, FirstFree, InsertSorted, PopPending, Pending, QueueAt, Place, EmptyUpTo;
      ghost var s := View();
      var seg := TakeFirst(queue);
      PopOnly(s);
      seg := seg.(grp := nextGrp, fty := fty, gid := 0, wsn := 0, gidEnd := true);
      nextGrp := nextGrp + 1;
      assert View() == PopPending(s).(nextGrp := s.nextGrp + 1);
      var ret := InsertSendCur(seg);
    }

    /** Schedules two packets, from the heads of the two queues, and their recovery segment. */
    method ScheduleGroup(queue: nat, queue1: nat) returns (code: int)
      requires |rsnd| == 3 && |Pending(View())| >= 2 && segs < SEGMENT_POOL && bufs < RECOVERY_POOL
      requires queue <= 3 && QueueAt(View(), queue) != [] && EmptyUpTo(View(), 0, queue)
      requires |PopPending(View()).rsnd| == 3
      requires queue1 <= 3 && QueueAt(PopPending(View()), queue1) != []
      requires EmptyUpTo(PopPending(View()), 0, queue1)
      modifies this
      ensures code == 0 && View() == ScheduleTwo(old(View()))
    {
      hide Slots, FirstFree, InsertSorted, PopPending, Pending, QueueAt, Place, EmptyUpTo, ScheduleTwo;
      ghost var s := View();
      var seg0, seg1 := TakeTwo(queue, queue1);
      seg0 := seg0.(grp := nextGrp, fty := Fec23, gid := 0, wsn := 0);
      seg1 := seg1.(grp := nextGrp, fty := Fec23, gid := 1, wsn := 0);
      nextGrp := nextGrp + 1;
      ghost var s0 := View();
      assert s0 == PopPending(PopPending(s)).(nextGrp := s.nextGrp + 1);
      var wsn := InsertPair(seg0, seg1);
      code := InsertRecovery(seg0.grp, wsn);
      TwoSteps(s, s0, seg0, seg1, wsn);
    }

    /** Schedules the two packets of a group; `wsn` sums how far they were displaced. */
    method InsertPair(seg0: Seg, seg1: Seg) returns (wsn: nat)
      requires seg0.wsn == 0 && seg1.wsn == 0
      modifies this
      ensures wsn == PairDisplacement(old(View()), seg0)
      ensures View() == PlacePair(old(View()), seg0, seg1)
      ensures View() == old(View()).(cur := View().cur)
    {
      hide Slots, FirstFree, InsertSorted, Place, PlacePair, PairDisplacement;
      ghost var s0 := View();
      wsn := InsertSendCur(seg0);
      ghost var s1 := View();
      PlaceFrame(s0, seg0, 0);
      var ret := InsertSendCur(seg1.(wsn := interval + wsn));
      PairIs(s0, s1, View(), seg0, seg1, wsn, ret);
      wsn := wsn + ret;
    }

    /** Takes a segment and a buffer from the pools for the recovery segment, and schedules it. */
    method InsertRecovery(grp: nat, wsn: nat) returns (code: int)
      requires segs < SEGMENT_POOL && bufs < RECOVERY_POOL
      modifies this
      ensures code == 0
      ensures View() == Place(old(View()), Recovery(grp), 2 * old(interval) + wsn)
                        .(segs := old(segs) + 1, bufs := old(bufs) + 1)
    {
      hide Slots, FirstFree, InsertSorted;
      if segs >= SEGMENT_POOL {
        assert false;
        return -17;
      }
      segs := segs + 1;
      if bufs >= RECOVERY_POOL {
        assert false;
        return -16;
      }
      bufs := bufs + 1;
      var ret := InsertSendCur(Recovery(grp).(wsn := 2 * interval + wsn));
      return 0;
    }

    /** Extends the schedule when its first slot is free, and tells how many slots to let pass. */
    method SendReady() returns (delay: int)
      requires Valid() && Window(View())
      modifies this
      ensures Valid() && View() == SenderRun.Step(old(View()), SenderRun.Schedule)
      ensures delay == if old(nSnd) <= 0 then -3 else if !old(established) then 0
                       else if cur == [] then -1 else cur[0].wsn
    {
      hide Inv, Window, NextGroup, Slots, Pending;
      ghost var s := View();
      SenderRun.InvShape(s);
      SlotsHead(cur);
      if nSnd <= 0 {
        return -3;
      }
      if !established {
        return 0;
      }
      if cur == [] || cur[0].wsn != 0 {
        var ret := QueueSendCur();
        SenderRun.NextGroupInv(s);
        if ret < 0 {
          assert false;
          return ret * 16 - 2;
        }
      }
      delay := if cur == [] then -1 else cur[0].wsn;
    }

    // ----- Sending -----

    /** Sends the head of the schedule; `ret` is the result of the datagram output, 0 asking for another try. */
    method SendCur(ret: int) returns (code: int)
      requires Valid() && established && cur != []
      modifies this
      ensures Valid()
      ensures code == if ret == 0 then 1 else if ret < 0 then ret * 16 else if ret != PACKET_SIZE then -5 else 0
      ensures View() == if code == 0 then SenderRun.Step(old(View()), SenderRun.Send) else old(View())
    {
      hide Inv, Slots, Sender.Send;
      if ret == 0 {
        return 1;
      }
      if ret < 0 {
        return ret * 16;
      }
      if ret != PACKET_SIZE {
        return -5;
      }
      MoveToWak();
      SendInv(old(View()));
      return 0;
    }

    /** Moves the head of the schedule to the waiting list; a recovery segment gives its buffer back. */
    method MoveToWak()
      requires cur != []
      modifies this
      ensures Increasing(old(View()).cur) && View() == Sender.Send(old(View()))
    {
      hide Slots, Sender.Send;
      SlotsIncreasing(cur);
      SentView(View(), cur);
      var seg := cur[0];
      cur := cur[1..];
      if seg.recovery {
        if !seg.weak {
          bufs := bufs - 1;
          seg := seg.(weak := true);
        }
      }
      wak := wak + [seg];
    }

    /** Sets the window sizes. */
    method WndSize(snd: int, cur: int) returns (code: int)
      requires Valid()
      modifies this
      ensures Valid() && View() == SenderRun.Step(old(View()), SenderRun.SetWindows(snd, cur))
      ensures code == if snd <= 0 then -1 else if cur <= 0 then -2 else 0
    {
      hide Inv, Slots;
      SenderRun.WindowsInv(View(), snd, cur);
      if snd > 0 {
        nSndMax := SenderRun.Min(snd, BUFS);
      } else {
        return -1;
      }
      if cur > 0 {
        interval := (SenderRun.Min(cur, SenderRun.CUR_BUFS) + 1) / 3;
      } else {
        return -2;
      }
      return 0;
    }

    // ----- Reports -----

    /** Unlinks the segment at position `q` of the waiting list and frees it or queues it again. */
    method SettleMember(q: nat, nacks: seq<Nack.Range>)
      requires q < |wak| && |rsnd| == 3 && wak[q].wrn <= 3 && (wak[q].weak <==> wak[q].recovery)
      modifies this
      ensures wak == old(wak)[..q] + old(wak)[q + 1..]
      ensures View() == Settle(old(View()).(wak := wak), old(wak)[q], nacks)
    {
      hide Slots;
      var seg := wak[q];
      wak := wak[..q] + wak[q + 1..];
      if seg.recovery {
        FreeSegment(seg);
        return;
      }
      var missing := Nack.CheckNack(Pid(seg), nacks);
      if !missing {
        nSnd := nSnd - 1;
        FreeSegment(seg);
      } else {
        seg := seg.(gidEnd := false);
        if seg.wrn < 3 {
          seg := seg.(wrn := seg.wrn + 1);
        }
        rsnd := rsnd[seg.wrn - 1 := rsnd[seg.wrn - 1] + [seg]];
      }
    }

    /** Gives a segment back to its pool, with its recovery buffer if it still owns one. */
    method FreeSegment(seg: Seg)
      modifies this
      ensures View() == old(View()).(segs := old(segs) - 1,
                                     bufs := old(bufs) - (if seg.recovery && !seg.weak then 1 else 0))
      ensures wak == old(wak)
    {
      hide Slots;
      if !seg.weak {
        if seg.recovery {
          bufs := bufs - 1;
        }
      }
      segs := segs - 1;
    }

    /**
     Settles the group that ends at position `i` of the waiting list, walking back over its members. Every
     member is where the walk looks for it, so neither error is possible, and the list behind position `i`
     is left alone.
     */
    method HandleSendWakNack(i: nat, nacks: seq<Nack.Range>) returns (code: int)
      requires Valid() && i < |wak| && wak[i].gidEnd
      modifies this
      ensures code == 0 && Valid()
      ensures |old(View()).rsnd| == 3 && Low(old(wak))
      ensures View() == SettleGroup(old(View()), old(wak[i]).grp, nacks)
      ensures wak == Without(old(wak[..i + 1]), old(wak[i]).grp) + old(wak[i + 1..])
    {
      hide Inv, Slots, Members, Without, Complete, Settle, SettleGroup, Low, Walked, Fid, GroupSize;
      ghost var s, w, k := View(), wak, wak[i].grp;
      WalkStart(s, i);
      WalkBegins(s, i, nacks);
      ghost var goal := SettleGroup(s, k, nacks);
      var fid, fty := Fid(wak[i]), wak[i].fty;
      var q, count := i, GroupSize(fty) - 1;
      MemberAt(w, i, i);
      while true
        invariant q <= i && w[q].grp == k && count == |Members(w[..q], k)|
        invariant Walked(w, k, q + 1, View(), goal, nacks)
        decreases q
      {
        WalkSettles(w, k, q, View(), goal, nacks);
        var seg := wak[q];
        var more := seg.gid > 0;
        MemberAt(w, i, q);
        if seg.gid != count || seg.fty != fty {
          assert false;
          return -2;
        }
        assert seg.weak <==> seg.recovery;
        SettleMember(q, nacks);
        if !more {
          break;
        }
        var p := FindPrevious(wak, q, fid);
        WalksBack(w, i, q, p, View(), goal, nacks);
        if p < 0 {
          assert false;
          return -1;
        }
        q, count := p, count - 1;
      }
      WalkEnds(w, k, q, View(), goal, nacks);
      SplitAt(w, i);
      SettleGroupInv(s, w[..i], w[i], w[i + 1..], nacks);
      code := 0;
    }

    /** Unlinks and frees the packet at position `p` of resend list `i`. */
    method DropResend(i: nat, p: nat)
      requires |rsnd| == 3 && i < 3 && p < |rsnd[i]| && !rsnd[i][p].recovery
      modifies this
      ensures |rsnd| == 3 && rsnd[i] == old(rsnd[i])[..p] + old(rsnd[i])[p + 1..]
      ensures View() == old(View()).(rsnd := old(rsnd)[i := rsnd[i]], nSnd := old(nSnd) - 1, segs := old(segs) - 1)
    {
      hide Slots;
      var seg := rsnd[i][p];
      rsnd := rsnd[i := rsnd[i][..p] + rsnd[i][p + 1..]];
      nSnd := nSnd - 1;
      FreeSegment(seg);
    }

    /** Frees the packets of resend list `i` that the report does not name. */
    method HandleNack(i: nat, nacks: seq<Nack.Range>)
      requires |rsnd| == 3 && i < 3 && NoRecovery(rsnd[i])
      modifies this
      ensures |old(View()).rsnd| == 3 && View() == Prune(old(View()), i, nacks)
    {
      hide Slots, Kept, Missing, NoRecovery;
      ghost var s, w := View(), rsnd[i];
      var p := 0;
      KeptAll(w, nacks);
      while p < |rsnd[i]|
        invariant |rsnd| == 3 && 0 <= p <= |rsnd[i]| <= |w|
        invariant rsnd[i][..p] + Kept(rsnd[i][p..], nacks) == Kept(w, nacks)
        invariant NoRecovery(rsnd[i])
        invariant View() == WithResend(s, i, rsnd[i])
        decreases |rsnd[i]| - p
      {
        KeptStep(rsnd[i], p, nacks);
        var missing := Nack.CheckNack(Pid(rsnd[i][p]), nacks);
        if !missing {
          DropResend(i, p);
        } else {
          p := p + 1;
        }
      }
      KeptDone(rsnd[i], p, nacks);
    }

    /** Visits segment `i` of the waiting list; the segments behind it stay as they are. */
    method VisitWak(i: nat, fid: nat, gid: nat, nacks: seq<Nack.Range>) returns (code: int, last: bool)
      requires Valid() && i < |wak|
      modifies this
      ensures code == 0 && Valid() && |old(View()).rsnd| == 3 && Low(old(wak)) && |View().rsnd| == 3 && Low(wak)
      ensures Behind(wak, |old(wak)| - i - 1) == old(wak[i + 1..])
      ensures Scan(old(View()), old(wak[i..]), fid, gid, nacks)
           == if last then View() else Scan(View(), Behind(wak, |old(wak)| - i - 1), fid, gid, nacks)
    {
      hide Inv, Slots, SettleGroup, Low, Without, Scan;
      ghost var now := View();
      SenderRun.InvShape(now);
      var seg := wak[i];
      ScanStep(now, i, fid, gid, nacks);
      SuffixOfSum(wak, wak[..i + 1], wak[i + 1..]);
      last := Fid(seg) == fid && seg.gid == gid;
      code := 0;
      if AtOrBefore(Fid(seg), fid) && seg.gidEnd {
        code := HandleSendWakNack(i, nacks);
        if code < 0 {
          assert false;
          return code * 16 - 3, last;
        }
        SuffixOfSum(wak, Without(now.wak[..i + 1], seg.grp), now.wak[i + 1..]);
        SenderRun.InvShape(View());
      }
    }

    /** The walk over the waiting list: settles finished groups up to the reported segment. */
    method ScanWak(fid: nat, gid: nat, nacks: seq<Nack.Range>) returns (code: int)
      requires Valid()
      modifies this
      ensures code == 0 && Valid()
      ensures |old(View()).rsnd| == 3 && Low(old(wak)) && View() == Scan(old(View()), old(wak), fid, gid, nacks)
    {
      hide Inv, Slots, SettleGroup, Low, Without, Scan;
      ghost var s := View();
      SenderRun.InvShape(s);
      var left := |wak|;
      assert Behind(wak, left) == wak;
      while left > 0
        invariant 0 <= left <= |wak| && Valid() && |s.rsnd| == 3 && |rsnd| == 3 && Low(wak) && Low(s.wak)
        invariant Scan(View(), Behind(wak, left), fid, gid, nacks) == Scan(s, s.wak, fid, gid, nacks)
        decreases left
      {
        var last;
        code, last := VisitWak(|wak| - left, fid, gid, nacks);
        left := left - 1;
        if last {
          return 0;
        }
      }
      ScanEnd(View(), fid, gid, nacks);
      code := 0;
    }

    /** The walk over the schedule changes nothing and meets no error. */
    method ScanCur(nacks: seq<Nack.Range>) returns (code: int)
      requires Valid()
      ensures code == 0
    {
      hide Inv, Slots, CompleteFrom, IdsDecide;
      ghost var s := View();
      ScheduleIds(s, cur);
      InvWeak(s);
      ScheduleCounts(s, cur);
      for j := 0 to |cur| {
        var seg := cur[j];
        var missing := Nack.CheckNack(Pid(seg), nacks);
        if seg.wrn != 0 && seg.gid == 0 && !missing {
          ScheduleWalkStart(s, cur, j);
          var ret := HandleSendCurNack(cur, j, nacks);
          if ret < 0 {
            assert false;
            return ret * 16 - 4;
          }
        }
      }
      code := 0;
    }

    /** Handles the ranges of a report. */
    method HandleReport(fid: nat, gid: nat, nacks: seq<Nack.Range>) returns (code: int)
      requires Valid()
      modifies this
      ensures code == 0 && Valid()
      ensures |old(View()).rsnd| == 3 && Low(old(wak)) && View() == SenderReport.Report(old(View()), fid, gid, nacks)
    {
      hide Inv, Slots, Scan, Prune, Low;
      code := ScanWak(fid, gid, nacks);
      if code < 0 {
        assert false;
        return;
      }
      for i := 0 to 3
        invariant Valid() && |old(View()).rsnd| == 3 && Low(old(wak))
        invariant |Scan(old(View()), old(wak), fid, gid, nacks).rsnd| == 3
        invariant View() == PruneFirst(Scan(old(View()), old(wak), fid, gid, nacks), i, nacks)
      {
        InvQueues(View());
        var acked := PruneInv(View(), i, nacks);
        HandleNack(i, nacks);
      }
      PruneThree(Scan(old(View()), old(wak), fid, gid, nacks), nacks);
      code := ScanCur(nacks);
    }

    /** Handles a datagram of 16-bit words, possibly followed by an odd byte. */
    method Input(words: seq<nat>, odd: bool) returns (code: int)
      requires Valid()
      modifies this
      ensures Valid() && (code, View()) == AfterInput(old(View()), cid, words, odd)
    {
      hide Inv, Slots, SenderReport.Report;
      if words == [] {
        return -1;
      }
      var hdr := words[0];
      var fid, gid := hdr / 16 % ID_SPACE, hdr / 4 % 4;
      if cid != hdr / 2 % 2 {
        return 0;
      }
      if hdr % 2 != 0 {
        return -2;
      }
      if |words| == 1 && !odd {
        if fid == 0 && gid == 3 {
          SenderRun.EstablishInv(View());
          established := true;
          return 0;
        }
        return -5;
      }
      if !established {
        return 0;
      }
      var ok, nacks := Nack.ParseNacks(words[1..]);
      if !ok {
        return -4;
      }
      assert nacks == Ranges(words[1..]);
      code := HandleReport(fid, gid, nacks);
    }
  }

  /** The ranges in a report. */
  function Ranges(words: seq<nat>): (nacks: seq<Nack.Range>)
    ensures |nacks| == |words| && forall i :: 0 <= i < |words| ==> nacks[i] == Nack.ParsedRange(words, i)
  {
    seq(|words|, i requires 0 <= i < |words| => Nack.ParsedRange(words, i))
  }

  /** What a datagram does: errors and foreign datagrams change nothing. */
  ghost function AfterInput(s: State, cid: nat, words: seq<nat>, odd: bool): (r: (int, State))
    requires Inv(s)
    ensures r.0 < 0 ==> r.1 == s
  {
    if words == [] then (-1, s)
    else
      var hdr := words[0];
      if hdr / 2 % 2 != cid then (0, s)
      else if hdr % 2 != 0 then (-2, s)
      else if |words| == 1 && !odd then
        if hdr / 16 % ID_SPACE == 0 && hdr / 4 % 4 == 3 then (0, SenderRun.Step(s, SenderRun.Establish)) else (-5, s)
      else if s.established && |words| - 1 > Nack.MAX_RANGES then (-4, s)
      else (0, SenderRun.Step(s, SenderRun.Report(hdr / 16 % ID_SPACE, hdr / 4 % 4, Ranges(words[1..]))))
  }

  /** The first `n` resend lists pruned. */
  ghost function PruneFirst(s: State, n: nat, nacks: seq<Nack.Range>): (s': State)
    requires |s.rsnd| == 3 && n <= 3
    ensures |s'.rsnd| == 3
  {
    if n == 0 then s else Prune(PruneFirst(s, n - 1, nacks), n - 1, nacks)
  }

  lemma PruneThree(s: State, nacks: seq<Nack.Range>)
    requires |s.rsnd| == 3
    ensures PruneFirst(s, 3, nacks) == Prune(Prune(Prune(s, 0, nacks), 1, nacks), 2, nacks)
  {
    hide Prune;
    assert PruneFirst(s, 1, nacks) == Prune(s, 0, nacks);
    assert PruneFirst(s, 2, nacks) == Prune(PruneFirst(s, 1, nacks), 1, nacks);
  }

  lemma InvWeak(s: State)
    requires Inv(s)
    ensures WeakOk(s)
  {
  }

  lemma InvQueues(s: State)
    requires Inv(s)
    ensures |s.rsnd| == 3 && forall i :: 0 <= i < 3 ==> NoRecovery(s.rsnd[i])
  {
  }

  ghost function PlacePair(s: State, x0: Seg, x1: Seg): (s': State) {
    Place(Place(s, x0, 0), x1, s.interval + FirstFree(s.cur, 0))
  }

  ghost function PairDisplacement(s: State, x0: Seg): (d: nat) {
    var at0 := FirstFree(s.cur, 0);
    at0 + (FirstFree(Place(s, x0, 0).cur, s.interval + at0) - (s.interval + at0))
  }

  lemma PairIs(s0: State, s1: State, s2: State, x0: Seg, x1: Seg, at0: nat, d: nat)
    requires s1 == Place(s0, x0, 0) && at0 == FirstFree(s0.cur, 0)
    requires s2 == Place(s1, x1, s0.interval + at0)
    requires d == FirstFree(s1.cur, s0.interval + at0) - (s0.interval + at0)
    ensures at0 + d == PairDisplacement(s0, x0) && s2 == PlacePair(s0, x0, x1) && s2 == s0.(cur := s2.cur)
  {
    hide Place, FirstFree;
    PlaceFrame(s0, x0, 0);
    PlaceFrame(s1, x1, s0.interval + at0);
  }

  /** The group of two packets and a recovery segment, one placement after the other. */
  lemma TwoSteps(s: State, s0: State, x0: Seg, x1: Seg, wsn: nat)
    requires |s.rsnd| == 3 && |Pending(s)| >= 2 && |PopPending(s).rsnd| == 3 && Pending(PopPending(s)) != []
    requires s0 == PopPending(PopPending(s)).(nextGrp := s.nextGrp + 1) && s0.interval == s.interval
    requires x0 == Pending(s)[0].(grp := s.nextGrp, fty := Fec23, gid := 0, wsn := 0)
    requires x1 == Pending(s)[1].(grp := s.nextGrp, fty := Fec23, gid := 1, wsn := 0)
    requires wsn == PairDisplacement(s0, x0)
    ensures ScheduleTwo(s) ==
            Place(PlacePair(s0, x0, x1), Recovery(s.nextGrp), 2 * s.interval + wsn)
            .(segs := s.segs + 1, bufs := s.bufs + 1)
  {
    hide FirstFree, InsertSorted, PopPending, Pending, Place;
  }

  /** What sending the head does to the delta-coded schedule. */
  lemma SentView(s: State, cur: seq<Seg>)
    requires s.cur == Slots(cur) && cur != [] && Increasing(s.cur)
    ensures var x := cur[0];
            Sender.Send(s) == s.(wak := s.wak + [x.(weak := x.weak || x.recovery)], cur := Slots(cur[1..]),
                                 bufs := s.bufs - (if x.recovery && !x.weak then 1 else 0))
  {
    hide Slots, Shift;
    PopShifts(cur);
    SlotsHead(cur);
  }

  // ----- Queues in order -----

  lemma PendingHead(s: State, queue: nat)
    requires |s.rsnd| == 3 && queue <= 3 && QueueAt(s, queue) != []
    requires EmptyUpTo(s, 0, queue)
    ensures Pending(s) != [] && Pending(s)[0] == QueueAt(s, queue)[0]
    ensures PopPending(s) == if queue < 3 then s.(rsnd := s.rsnd[2 - queue := s.rsnd[2 - queue][1..]])
                             else s.(snd := s.snd[1..])
  {
    assert queue > 0 ==> QueueAt(s, 0) == [];
    assert queue > 1 ==> QueueAt(s, 1) == [];
    assert queue > 2 ==> QueueAt(s, 2) == [];
  }

  lemma PendingQueues(s: State, queue: nat)
    requires |s.rsnd| == 3 && queue <= 4 && EmptyUpTo(s, 0, queue)
    requires queue < 4 ==> QueueAt(s, queue) != []
    ensures Pending(s) == [] <==> queue == 4
    ensures s.rsnd[2] != [] <==> queue == 0
  {
    assert queue > 0 ==> QueueAt(s, 0) == [];
    assert queue > 1 ==> QueueAt(s, 1) == [];
    assert queue > 2 ==> QueueAt(s, 2) == [];
    assert queue > 3 ==> QueueAt(s, 3) == [];
  }

  /** With two packets in `rsnd[2]`, the second pending packet is the second of them. */
  lemma SecondPending(s: State)
    requires |s.rsnd| == 3 && s.rsnd[2] != []
    ensures |PopPending(s).rsnd| == 3 && Pending(s) != [] && EmptyUpTo(PopPending(s), 0, 0)
    ensures |s.rsnd[2]| >= 2 ==> |Pending(s)| >= 2 && QueueAt(PopPending(s), 0) != []
  {
  }

  /** With one packet in `rsnd[2]`, the second pending packet heads the next non-empty queue. */
  lemma SecondQueue(s: State, queue1: nat)
    requires |s.rsnd| == 3 && |s.rsnd[2]| == 1 && 1 <= queue1 <= 4
    requires EmptyUpTo(s, 1, queue1)
    requires queue1 < 4 ==> QueueAt(s, queue1) != []
    ensures |Pending(s)| >= 2 <==> queue1 < 4
    ensures EmptyUpTo(PopPending(s), 0, queue1)
    ensures queue1 < 4 ==> QueueAt(PopPending(s), queue1) != []
  {
    assert queue1 > 1 ==> QueueAt(s, 1) == [];
    assert queue1 > 2 ==> QueueAt(s, 2) == [];
    assert queue1 > 3 ==> QueueAt(s, 3) == [];
  }

  lemma SlotsHead(cur: seq<Seg>)
    ensures cur != [] ==> Slots(cur)[0] == Entry(cur[0].wsn, cur[0].(wsn := 0))
  {
  }

  lemma ScanStep(s: State, i: nat, fid: nat, gid: nat, nacks: seq<Nack.Range>)
    requires |s.rsnd| == 3 && Low(s.wak) && i < |s.wak|
    ensures var x := s.wak[i];
            var s1 := if AtOrBefore(Fid(x), fid) && x.gidEnd then SettleGroup(s, x.grp, nacks) else s;
            && Low(s1.wak)
            && Scan(s, s.wak[i..], fid, gid, nacks)
               == if Fid(x) == fid && x.gid == gid then s1 else Scan(s1, s.wak[i + 1..], fid, gid, nacks)
  {
    hide SettleGroup;
    SettleLow(s, s.wak[i].grp, nacks);
    assert s.wak[i..][1..] == s.wak[i + 1..];
  }

  lemma ScanEnd(s: State, fid: nat, gid: nat, nacks: seq<Nack.Range>)
    requires |s.rsnd| == 3 && Low(s.wak)
    ensures Scan(s, Behind(s.wak, 0), fid, gid, nacks) == s
  {
  }

  /** Looking back for the group id leads the walk to the previous member. */
  lemma WalksBack(w: seq<Seg>, i: nat, q: nat, p: int, now: State, goal: State, nacks: seq<Nack.Range>)
    requires Complete(w, i) && IdsDecide(w) && q <= i && w[q].grp == w[i].grp && w[q].gid > 0
    requires Walked(w, w[i].grp, q, now, goal, nacks) && q <= |now.wak|
    requires -1 <= p < q && (p >= 0 ==> Fid(now.wak[p]) == Fid(w[i]))
    requires forall j :: p < j < q ==> Fid(now.wak[j]) != Fid(w[i])
    ensures p >= 0 && w[p].grp == w[i].grp && Walked(w, w[i].grp, p + 1, now, goal, nacks)
    ensures |Members(w[..q], w[i].grp)| == |Members(w[..p], w[i].grp)| + 1
  {
    var k := w[i].grp;
    hide Complete, Walked, Members, IdsDecide;
    WalkPrefix(w, k, q, now, goal, nacks);
    PreviousIsMember(w, i, q, p);
    forall j | p < j < q ensures w[j].grp != k {
      assert Fid(now.wak[j]) != Fid(w[i]);
    }
    WalkSkips(w, k, q, p + 1, now, goal, nacks);
    SplitAt(w, p);
    LastOfAppend(w[..p], w[p]);
  }

  /** The last `n` segments of a list. */
  function Behind(w: seq<Seg>, n: int): (b: seq<Seg>) {
    if 0 <= n <= |w| then w[|w| - n..] else []
  }

  lemma SuffixOfSum(w: seq<Seg>, a: seq<Seg>, b: seq<Seg>)
    requires w == a + b
    ensures |b| <= |w| && Behind(w, |b|) == b
  {
  }

  ghost predicate NoRecovery(w: seq<Seg>) {
    forall i :: 0 <= i < |w| ==> !w[i].recovery
  }

  /** The state with some packets of resend list `i` freed. */
  ghost function WithResend(s: State, i: nat, v: seq<Seg>): (s': State)
    requires i < |s.rsnd|
  {
    var n := |s.rsnd[i]| - |v|;
    s.(rsnd := s.rsnd[i := v], nSnd := s.nSnd - n, segs := s.segs - n)
  }

  lemma KeptAll(w: seq<Seg>, nacks: seq<Nack.Range>)
    ensures w[..0] + Kept(w[0..], nacks) == Kept(w, nacks)
  {
    assert w[0..] == w && w[..0] == [];
  }

  lemma KeptDone(w: seq<Seg>, p: nat, nacks: seq<Nack.Range>)
    requires p == |w|
    ensures w[..p] + Kept(w[p..], nacks) == w
  {
    assert w[p..] == [] && w[..p] == w;
  }

  lemma KeptStep(w: seq<Seg>, p: nat, nacks: seq<Nack.Range>)
    requires p < |w| && NoRecovery(w)
    ensures Nack.Nacked(Pid(w[p]), nacks) ==>
              w[..p + 1] + Kept(w[p + 1..], nacks) == w[..p] + Kept(w[p..], nacks)
    ensures !Nack.Nacked(Pid(w[p]), nacks) ==> Kept(w[p + 1..], nacks) == Kept(w[p..], nacks)
    ensures (w[..p] + w[p + 1..])[..p] == w[..p] && (w[..p] + w[p + 1..])[p..] == w[p + 1..]
    ensures !w[p].recovery && NoRecovery(w[..p] + w[p + 1..])
  {
    assert w[p..][0] == w[p] && w[p..][1..] == w[p + 1..];
    assert w[..p + 1] == w[..p] + [w[p]];
  }
}
