/** The walks over the waiting list and the schedule that look for the members of a group by its 12-bit id. */
module SenderWalk {
  import opened Schedule
  import opened Groups
  import opened Sender
  import opened SenderReport
  import Nack

  /** Equal group ids mean equal groups. */
  ghost predicate IdsDecide(w: seq<Seg>) {
    forall i, j :: 0 <= i < |w| && 0 <= j < |w| && Fid(w[i]) == Fid(w[j]) ==> w[i].grp == w[j].grp
  }

  /** The list ending at position `i` holds the complete group of its last segment. */
  ghost predicate Complete(w: seq<Seg>, i: nat) {
    i < |w| && FullGroup(Members(w[..i + 1], w[i].grp)) && Members(w[i + 1..], w[i].grp) == []
  }

  lemma SplitAt(w: seq<Seg>, i: nat)
    requires i < |w|
    ensures w == w[..i] + [w[i]] + w[i + 1..] && w[..i + 1] == w[..i] + [w[i]]
    ensures w == w[..i + 1] + w[i + 1..]
  {
  }

  lemma {:induction false} FullCores(m: seq<Seg>)
    ensures FullGroup(Cores(m)) <==> FullGroup(m)
  {
    forall i | 0 <= i < |m| ensures Cores(m)[i] == Core(m[i]) {
      CoresAt(m, i);
    }
  }

  lemma WakIds(s: State)
    requires IdsOk(InFlight(s), s.nextGrp)
    ensures IdsDecide(s.wak)
  {
    CoresIds(s.wak, s.nextGrp);
  }

  /** The invariant gives the walk what it needs. */
  lemma WalkStart(s: State, i: nat)
    requires Inv(s) && i < |s.wak| && s.wak[i].gidEnd
    ensures Complete(s.wak, i) && IdsDecide(s.wak) && WakFlags(s.wak) && |s.rsnd| == 3 && Low(s.wak)
  {
    hide Members, InFlight, CountsOk, SlotsOk, FullGroup;
    var w := s.wak;
    SplitAt(w, i);
    GroupInWak(s, w[..i], w[i], w[i + 1..]);
    FullCores(Members(w, w[i].grp));
    WakIds(s);
  }

  /** Going back from the end of a complete group, each member carries the position expected of it. */
  lemma MemberAt(w: seq<Seg>, i: nat, q: nat)
    requires Complete(w, i) && q <= i && w[q].grp == w[i].grp
    ensures var k := w[i].grp;
            var m := Members(w[..q], k);
            && Members(w[..q + 1], k) == m + [w[q]] && w[q].gid == |m|
            && w[q].fty == w[i].fty && (w[i].fty == Fec11 || w[i].fty == Fec23)
            && |Members(w[..i + 1], k)| == GroupSize(w[i].fty)
  {
    hide FullGroup;
    var k := w[i].grp;
    var m, g := Members(w[..q], k), Members(w[..i + 1], k);
    SplitAt(w, q);
    LastOfAppend(w[..q], w[q]);
    assert w[..i + 1] == w[..q + 1] + w[q + 1..i + 1];
    MembersAppend(w[..q + 1], w[q + 1..i + 1], k);
    assert g[|m|] == w[q];
    SplitAt(w, i);
    LastOfAppend(w[..i], w[i]);
    assert g[|g| - 1] == w[i];
    FullAt(g, |m|);
    FullAt(g, |g| - 1);
  }

  lemma FullAt(g: seq<Seg>, i: nat)
    requires FullGroup(g) && i < |g|
    ensures g[i].gid == i && g[i].fty == g[0].fty && |g| == GroupSize(g[0].fty)
    ensures g[0].fty == Fec11 || g[0].fty == Fec23
    ensures g[i].recovery <==> i >= OriginalCount(g[0].fty)
    ensures g[i].gidEnd <==> i == |g| - 1
  {
  }

  /** Skipping segments of other groups loses no member. */
  lemma NoneBetween(w: seq<Seg>, p: nat, q: nat, k: nat)
    requires p <= q <= |w| && forall j :: p <= j < q ==> w[j].grp != k
    ensures Members(w[..q], k) == Members(w[..p], k)
  {
    assert w[..q] == w[..p] + w[p..q];
    MembersAppend(w[..p], w[p..q], k);
    NoMembers(w[p..q], k);
  }

  /** Unlinking a member of group `k` leaves the other segments alone. */
  lemma UnlinkMember(w: seq<Seg>, q: nat, k: nat)
    requires q < |w| && w[q].grp == k
    ensures Without(w[..q] + w[q + 1..], k) == Without(w, k)
    ensures (w[..q] + w[q + 1..])[..q] == w[..q] && (w[..q] + w[q + 1..])[q..] == w[q + 1..]
  {
    SplitAt(w, q);
    WithoutAppend(w[..q], w[q + 1..], k);
    WithoutAppend(w[..q + 1], w[q + 1..], k);
    WithoutAppend(w[..q], [w[q]], k);
    assert Without([w[q]], k) == [];
  }

  /** The nearest segment before position `q` with the given group id, or -1 at the head of the list. */
  method FindPrevious(w: seq<Seg>, q: nat, fid: nat) returns (p: int)
    requires q <= |w|
    ensures -1 <= p < q && (p >= 0 ==> Fid(w[p]) == fid)
    ensures forall j :: p < j < q ==> Fid(w[j]) != fid
  {
    p := q - 1;
    while p >= 0 && Fid(w[p]) != fid
      invariant -1 <= p < q && forall j :: p < j < q ==> Fid(w[j]) != fid
    {
      p := p - 1;
    }
  }

  /** Looking for the previous member by group id finds it: the walk never reaches the head of the list. */
  lemma PreviousIsMember(w: seq<Seg>, i: nat, q: nat, p: int)
    requires Complete(w, i) && IdsDecide(w) && q <= i && w[q].grp == w[i].grp && w[q].gid > 0
    requires -1 <= p < q && (p >= 0 ==> Fid(w[p]) == Fid(w[i]))
    requires forall j :: p < j < q ==> Fid(w[j]) != Fid(w[i])
    ensures p >= 0 && w[p].grp == w[i].grp && Members(w[..p + 1], w[i].grp) == Members(w[..q], w[i].grp)
  {
    CompleteIn(w, i);
    hide Complete, Members;
    var k := w[i].grp;
    MemberAt(w, i, q);
    forall j | p < j < q ensures w[j].grp != k {
      assert Fid(w[j]) != Fid(w[i]);
    }
    NoneBetween(w, p + 1, q, k);
    NoMembers([], k);
    assert w[..0] == [];
  }

  lemma CompleteIn(w: seq<Seg>, i: nat)
    requires Complete(w, i)
    ensures i < |w|
  {
  }

  /**
   The walk has settled the members of group `k` from position `n` of the list `w` on; settling those
   before it leads to `goal`.
   */
  ghost predicate Walked(w: seq<Seg>, k: nat, n: nat, now: State, goal: State, nacks: seq<Nack.Range>) {
    && n <= |w| && n <= |now.wak| && |now.rsnd| == 3 && now.wak[..n] == w[..n]
    && Without(now.wak, k) == Without(w, k) && Members(now.wak[n..], k) == []
    && Low(Members(w[..n], k)) && SettleAll(now.(wak := Without(w, k)), Members(w[..n], k), nacks) == goal
  }

  /** The walk starts behind the end of the group. */
  lemma WalkBegins(s: State, i: nat, nacks: seq<Nack.Range>)
    requires |s.rsnd| == 3 && Low(s.wak) && Complete(s.wak, i)
    ensures Walked(s.wak, s.wak[i].grp, i + 1, s, SettleGroup(s, s.wak[i].grp, nacks), nacks)
  {
    hide SettleAll, Without, FullGroup;
    var w, k := s.wak, s.wak[i].grp;
    MembersLow(w, k);
    SplitAt(w, i);
    MembersAppend(w[..i + 1], w[i + 1..], k);
    EmptyPlus(Members(w[..i + 1], k), w[i]);
  }

  /** Segments of other groups are skipped. */
  lemma WalkSkips(w: seq<Seg>, k: nat, n: nat, n': nat, now: State, goal: State, nacks: seq<Nack.Range>)
    requires Walked(w, k, n, now, goal, nacks) && n' <= n && forall j :: n' <= j < n ==> w[j].grp != k
    ensures Walked(w, k, n', now, goal, nacks)
  {
    hide SettleAll, Without, Members;
    NoneBetween(w, n', n, k);
    assert now.wak[n'..] == now.wak[n'..n] + now.wak[n..];
    forall j | n' <= j < n ensures now.wak[j] == w[j] {
      assert now.wak[..n][j] == w[..n][j];
    }
    MembersAppend(now.wak[n'..n], now.wak[n..], k);
    NoMembers(now.wak[n'..n], k);
    assert now.wak[..n'] == now.wak[..n][..n'] == w[..n][..n'] == w[..n'];
  }

  lemma SettleFirst(s: State, a: seq<Seg>, b: seq<Seg>, m: seq<Seg>, x: Seg, nacks: seq<Nack.Range>)
    requires |s.rsnd| == 3 && Low(m + [x])
    ensures Low(m) && x.wrn <= 3
    ensures |Settle(s.(wak := a), x, nacks).rsnd| == 3 && Settle(s.(wak := a), x, nacks).wak == a
    ensures SettleAll(s.(wak := b), m + [x], nacks) == SettleAll(Settle(s.(wak := a), x, nacks).(wak := b), m, nacks)
  {
    assert (m + [x])[|m|] == x && (m + [x])[..|m|] == m;
    assert Low(m) by {
      forall i | 0 <= i < |m| ensures m[i].wrn <= 3 {
        assert (m + [x])[i] == m[i];
      }
    }
    assert Settle(s.(wak := a), x, nacks).(wak := b) == Settle(s.(wak := b), x, nacks);
  }

  /** A member is unlinked and settled. */
  lemma WalkSettles(w: seq<Seg>, k: nat, q: nat, now: State, goal: State, nacks: seq<Nack.Range>)
    requires q < |w| && w[q].grp == k && Walked(w, k, q + 1, now, goal, nacks)
    ensures |now.rsnd| == 3 && |now.wak| > q && now.wak[q] == w[q] && w[q].wrn <= 3
    ensures Walked(w, k, q, Settle(now.(wak := now.wak[..q] + now.wak[q + 1..]), w[q], nacks), goal, nacks)
  {
    hide SettleAll, Without, Members, Settle, Low;
    assert now.wak[q] == now.wak[..q + 1][q] == w[..q + 1][q] == w[q];
    var wak' := now.wak[..q] + now.wak[q + 1..];
    SplitAt(w, q);
    LastOfAppend(w[..q], w[q]);
    SettleFirst(now, wak', Without(w, k), Members(w[..q], k), w[q], nacks);
    UnlinkMember(now.wak, q, k);
    assert now.wak[..q] == now.wak[..q + 1][..q] == w[..q + 1][..q] == w[..q];
  }

  lemma WalkPrefix(w: seq<Seg>, k: nat, q: nat, now: State, goal: State, nacks: seq<Nack.Range>)
    requires Walked(w, k, q, now, goal, nacks)
    ensures q <= |w| && q <= |now.wak| && forall j :: 0 <= j < q ==> now.wak[j] == w[j]
  {
    hide Without, Members, SettleAll;
    forall j | 0 <= j < q ensures now.wak[j] == w[j] {
      assert now.wak[..q][j] == w[..q][j];
    }
  }

  /** Without members before it, the walk has reached its goal. */
  lemma WalkEnds(w: seq<Seg>, k: nat, q: nat, now: State, goal: State, nacks: seq<Nack.Range>)
    requires Walked(w, k, q, now, goal, nacks) && Members(w[..q], k) == []
    ensures now == goal && now.wak == Without(w, k)
  {
    hide Without, Members;
    assert now.wak == now.wak[..q] + now.wak[q..];
    MembersAppend(now.wak[..q], now.wak[q..], k);
    WithoutNone(now.wak, k);
  }

  // ----- The schedule -----

  lemma {:induction false} SlotsCores(cur: seq<Seg>)
    ensures CurCores(Slots(cur)) == Cores(cur)
  {
    hide Slots, SlotOf;
    forall i | 0 <= i < |cur| ensures CurCores(Slots(cur))[i] == Cores(cur)[i] {
      CurCoresAt(Slots(cur), i);
      CoresAt(cur, i);
    }
  }

  /** The group whose first member is at position `j` of the schedule lies entirely in the schedule, in order. */
  ghost predicate CompleteFrom(cur: seq<Seg>, j: nat) {
    j < |cur| && cur[j].gid == 0 && FullGroup(Members(cur[j..], cur[j].grp))
  }

  lemma SplitLater(a: seq<Seg>, b: seq<Seg>, j: nat)
    requires j < |b|
    ensures a + b == (a + b[..j]) + ([b[j]] + b[j + 1..]) && b[j..] == [b[j]] + b[j + 1..]
  {
  }

  /** A segment that opens its group has no member of the group before it. */
  lemma FirstOpens(w: seq<Seg>, before: seq<Seg>, x: Seg, after: seq<Seg>)
    requires w == before + ([x] + after) && FullGroup(Members(w, x.grp)) && x.gid == 0
    ensures FullGroup(Members([x] + after, x.grp))
  {
    hide FullGroup;
    var g := Members(w, x.grp);
    MembersAppend(before, [x] + after, x.grp);
    assert ([x] + after)[0] == x;
    assert g[|Members(before, x.grp)|] == x;
    FullAt(g, |Members(before, x.grp)|);
    assert Members(before, x.grp) == [];
    assert g == Members([x] + after, x.grp);
  }

  lemma ScheduleWalkStart(s: State, cur: seq<Seg>, j: nat)
    requires Inv(s) && s.cur == Slots(cur) && j < |cur| && cur[j].gid == 0
    ensures CompleteFrom(cur, j)
  {
    hide Members, InFlight, CountsOk, SlotsOk, FullGroup, WeakOk, QueuesOk, Slots;
    var w, k := s.wak + cur, cur[j].grp;
    WholeFlight(s, cur);
    MembersCores(w, k);
    assert FullGroup(Members(InFlight(s), k));
    FullCores(Members(w, k));
    SplitLater(s.wak, cur, j);
    FirstOpens(w, s.wak + cur[..j], cur[j], cur[j + 1..]);
  }

  lemma WholeFlight(s: State, cur: seq<Seg>)
    requires s.cur == Slots(cur)
    ensures InFlight(s) == Cores(s.wak + cur)
  {
    SlotsCores(cur);
    CoresAppend(s.wak, cur);
  }

  lemma {:induction false} CoresHas(w: seq<Seg>, i: nat)
    requires i < |w|
    ensures Core(w[i]) in Cores(w) && Fid(Core(w[i])) == Fid(w[i]) && Core(w[i]).grp == w[i].grp
  {
    CoresAt(w, i);
  }

  lemma CoresIds(w: seq<Seg>, n: nat)
    requires IdsOk(Cores(w), n)
    ensures IdsDecide(w)
  {
    hide Cores, Core, Fid;
    forall i, j | 0 <= i < |w| && 0 <= j < |w| && Fid(w[i]) == Fid(w[j]) ensures w[i].grp == w[j].grp {
      CoresHas(w, i);
      CoresHas(w, j);
    }
  }

  lemma ScheduleIds(s: State, cur: seq<Seg>)
    requires Inv(s) && s.cur == Slots(cur)
    ensures IdsDecide(cur)
  {
    hide CountsOk, SlotsOk, GroupsOk, QueuesOk, WeakOk, Slots, InFlight, IdsOk, Fid;
    WholeFlight(s, cur);
    CoresIds(s.wak + cur, s.nextGrp);
    SuffixIds(s.wak, cur);
  }

  lemma SuffixIds(a: seq<Seg>, b: seq<Seg>)
    requires IdsDecide(a + b)
    ensures IdsDecide(b)
  {
    hide Fid;
    forall i, j | 0 <= i < |b| && 0 <= j < |b| && Fid(b[i]) == Fid(b[j]) ensures b[i].grp == b[j].grp {
      assert (a + b)[|a| + i] == b[i] && (a + b)[|a| + j] == b[j];
    }
  }

  lemma ScheduleCounts(s: State, cur: seq<Seg>)
    requires WeakOk(s) && s.cur == Slots(cur)
    ensures forall i :: 0 <= i < |cur| && cur[i].recovery ==> cur[i].wrn == 0
  {
    hide SlotOf;
    forall i | 0 <= i < |cur| && cur[i].recovery ensures cur[i].wrn == 0 {
      assert s.cur[i].seg == cur[i].(wsn := 0);
    }
  }

  /** Going forward from the first member, each further member carries the position expected of it. */
  lemma MemberAhead(cur: seq<Seg>, j: nat, p: nat)
    requires CompleteFrom(cur, j) && j < p < |cur| && cur[p].grp == cur[j].grp
    ensures var k := cur[j].grp;
            var m := Members(cur[j..p], k);
            && Members(cur[j..p + 1], k) == m + [cur[p]] && cur[p].gid == |m| && cur[p].fty == cur[j].fty
            && (cur[p].recovery <==> |m| >= OriginalCount(cur[j].fty))
            && (cur[p].gidEnd <==> |m| == GroupSize(cur[j].fty) - 1) && |m| < GroupSize(cur[j].fty)
            && (cur[j].fty == Fec11 || cur[j].fty == Fec23)
  {
    hide FullGroup;
    var k := cur[j].grp;
    var m, g := Members(cur[j..p], k), Members(cur[j..], k);
    assert cur[j..p + 1] == cur[j..p] + [cur[p]];
    LastOfAppend(cur[j..p], cur[p]);
    assert cur[j..] == cur[j..p + 1] + cur[p + 1..];
    MembersAppend(cur[j..p + 1], cur[p + 1..], k);
    assert g[|m|] == cur[p];
    assert g[0] == cur[j];
    FullAt(g, |m|);
  }

  lemma WholeGroupAhead(cur: seq<Seg>, j: nat)
    requires CompleteFrom(cur, j)
    ensures |Members(cur[j..], cur[j].grp)| == GroupSize(cur[j].fty) && (cur[j].fty == Fec11 || cur[j].fty == Fec23)
  {
    hide FullGroup;
    FullAt(Members(cur[j..], cur[j].grp), 0);
  }

  lemma {:induction false} OtherAhead(cur: seq<Seg>, j: nat, p: nat)
    requires j <= p < |cur|
    ensures cur[p].grp != cur[j].grp ==> Members(cur[j..p + 1], cur[j].grp) == Members(cur[j..p], cur[j].grp)
  {
    var k := cur[j].grp;
    assert cur[j..p + 1] == cur[j..p] + [cur[p]];
    MembersAppend(cur[j..p], [cur[p]], k);
    assert [cur[p]][1..] == [];
  }

  /**
   The walk over the schedule that would cancel a group whose packets have all arrived. It never finds a
   group out of order, and with the group types in use it never cancels one: a recovery segment has no
   resend count, so a group of three is kept, and a group of one ends the walk at the end of the list.
   */
  method HandleSendCurNack(cur: seq<Seg>, j: nat, nacks: seq<Nack.Range>) returns (ret: int)
    requires j < |cur| && CompleteFrom(cur, j) && IdsDecide(cur)
    requires forall i :: 0 <= i < |cur| && cur[i].recovery ==> cur[i].wrn == 0
    ensures ret == if cur[j].fty == Fec11 then 2 else 1
  {
    hide CompleteFrom, Members;
    var fty, fid := cur[j].fty, Fid(cur[j]);
    var count, p := 1, j + 1;
    WholeGroupAhead(cur, j);
    OneMember(cur, j);
    while p < |cur|
      invariant j < p <= |cur| && count == |Members(cur[j..p], cur[j].grp)| && count <= OriginalCount(fty)
    {
      var seg := cur[p];
      if Fid(seg) == fid {
        MemberAhead(cur, j, p);
        if seg.fty != fty {
          assert false;
          return -2;
        }
        var missing := Nack.CheckNack(Pid(seg), nacks);
        if seg.wrn == 0 || (!seg.recovery && missing) {
          return 1;
        }
        if seg.gid != count {
          assert false;
          return -1;
        }
        count := count + 1;
        if seg.gidEnd {
          assert false;
          return 0;
        }
      } else {
        OtherAhead(cur, j, p);
      }
      p := p + 1;
    }
    assert cur[j..p] == cur[j..];
    return 2;
  }

  lemma OneMember(cur: seq<Seg>, j: nat)
    requires j < |cur|
    ensures |Members(cur[j..j + 1], cur[j].grp)| == 1
  {
    assert cur[j..j + 1] == [cur[j]];
    assert [cur[j]][1..] == [];
  }
}
