/** Handling a receiver report: which groups it settles, which packets it acknowledges, what is sent again. */
module SenderReport {
  import opened Schedule
  import opened Groups
  import opened Sender
  import Nack

  const HALF: nat := 2048

  /** The group id test `!((fid - seg.fid) & (1 << 11))`. */
  predicate AtOrBefore(segFid: nat, fid: nat) {
    (fid - segFid) % ID_SPACE < HALF
  }

  /** For group numbers less than half the id space apart, the test compares the numbers. */
  lemma AtOrBeforeMeaning(seg: nat, reported: nat)
    requires seg < reported + HALF && reported < seg + HALF
    ensures AtOrBefore(seg % ID_SPACE, reported % ID_SPACE) <==> seg <= reported
  {
    assert (reported % ID_SPACE - seg % ID_SPACE - (reported - seg)) % ID_SPACE == 0;
  }

  /** The packet id of a segment is among the reported ranges. */
  predicate Missing(x: Seg, nacks: seq<Nack.Range>) {
    Nack.Nacked(Pid(x), nacks)
  }

  /** A packet reported missing, ready to be queued again. */
  function Again(x: Seg): (y: Seg) {
    x.(gidEnd := false, wrn := if x.wrn < 3 then x.wrn + 1 else x.wrn)
  }

  /** One member of a settled group: a recovery segment and an arrived packet are freed, others queued again. */
  function Settle(s: State, x: Seg, nacks: seq<Nack.Range>): (s': State)
    requires |s.rsnd| == 3 && x.wrn <= 3
    ensures |s'.rsnd| == 3
  {
    if x.recovery then s.(segs := s.segs - 1)
    else if !Missing(x, nacks) then s.(nSnd := s.nSnd - 1, segs := s.segs - 1)
    else
      var y := Again(x);
      s.(rsnd := s.rsnd[y.wrn - 1 := s.rsnd[y.wrn - 1] + [y]])
  }

  /** Settles members from the last to the first. */
  function SettleAll(s: State, m: seq<Seg>, nacks: seq<Nack.Range>): (s': State)
    requires |s.rsnd| == 3 && forall i :: 0 <= i < |m| ==> m[i].wrn <= 3
    ensures |s'.rsnd| == 3
    decreases |m|
  {
    if m == [] then s else SettleAll(Settle(s, m[|m| - 1], nacks), m[..|m| - 1], nacks)
  }

  ghost predicate Low(w: seq<Seg>) {
    forall i :: 0 <= i < |w| ==> w[i].wrn <= 3
  }

  lemma {:induction false} MembersLow(w: seq<Seg>, k: nat)
    requires Low(w)
    ensures Low(Members(w, k)) && Low(Without(w, k))
  {
    if w != [] {
      MembersLow(w[1..], k);
    }
  }

  /** Settles group `k`: its members leave `wak`. */
  function SettleGroup(s: State, k: nat, nacks: seq<Nack.Range>): (s': State)
    requires |s.rsnd| == 3 && Low(s.wak)
    ensures |s'.rsnd| == 3
  {
    MembersLow(s.wak, k);
    SettleAll(s.(wak := Without(s.wak, k)), Members(s.wak, k), nacks)
  }

  // ----- Conservation -----

  /** Packets among `m` that the report acknowledges. */
  function Acked(m: seq<Seg>, nacks: seq<Nack.Range>): (a: multiset<nat>) {
    if m == [] then multiset{}
    else
      var x := m[|m| - 1];
      if x.recovery || Missing(x, nacks) then Acked(m[..|m| - 1], nacks)
      else multiset{x.num} + Acked(m[..|m| - 1], nacks)
  }

  lemma {:induction false} AckedNotMissing(m: seq<Seg>, nacks: seq<Nack.Range>, n: nat)
    requires n in Acked(m, nacks)
    ensures !Nack.Nacked(n % ID_SPACE, nacks)
  {
    if m != [] {
      if n in Acked(m[..|m| - 1], nacks) {
        AckedNotMissing(m[..|m| - 1], nacks, n);
      }
    }
  }

  lemma NumsOne(x: Seg)
    ensures Nums([x]) == if x.recovery then multiset{} else multiset{x.num}
  {
    assert [x][1..] == [];
  }

  lemma Combine(a: multiset<nat>, b: multiset<nat>, c: multiset<nat>, d: multiset<nat>,
                e: multiset<nat>, f: multiset<nat>, g: multiset<nat>)
    requires a + b == c + d && c + e == f + g
    ensures a + (e + b) == f + (d + g)
    ensures e == multiset{} ==> e + b == b
  {
    assert a + (e + b) == (a + b) + e == (c + e) + d;
  }

  lemma NumsNone()
    ensures Nums([]) == multiset{}
  {
  }

  lemma SettleFrame(s: State, x: Seg, nacks: seq<Nack.Range>)
    requires |s.rsnd| == 3 && x.wrn <= 3
    ensures var s' := Settle(s, x, nacks);
            s' == s.(rsnd := s'.rsnd, nSnd := s'.nSnd, segs := s'.segs)
  {
  }

  /** The number of segments waiting in the queues. */
  function QueueLength(s: State): (n: nat)
    requires |s.rsnd| == 3
  {
    |s.snd| + |s.rsnd[0]| + |s.rsnd[1]| + |s.rsnd[2]|
  }

  /** A packet reported missing again goes to the end of a resend list. */
  lemma ResendOne(s: State, y: Seg)
    requires QueuesOk(s) && 1 <= y.wrn <= 3 && !y.recovery && !y.weak && !y.gidEnd
    ensures var s' := s.(rsnd := s.rsnd[y.wrn - 1 := s.rsnd[y.wrn - 1] + [y]]);
            QueuesOk(s') && Live(s') == Live(s) + multiset{y.num} && QueueLength(s') == QueueLength(s) + 1
  {
    var i := y.wrn - 1;
    var q := s.rsnd[i];
    var s' := s.(rsnd := s.rsnd[i := q + [y]]);
    hide InFlight, Nums, QueueOk, QueuesOk, Live, QueueLength;
    QueueOfList(s, i);
    QueueSnoc(q, y);
    SameInFlight(s, s');
    ListGrows(s, i, q + [y]);
    LiveGrows(s, i, q + [y], multiset{y.num});
  }

  lemma ListGrows(s: State, i: nat, q: seq<Seg>)
    requires QueuesOk(s) && i < 3 && QueueOk(q, i + 1)
    ensures QueuesOk(s.(rsnd := s.rsnd[i := q]))
    ensures QueueLength(s.(rsnd := s.rsnd[i := q])) == QueueLength(s) - |s.rsnd[i]| + |q|
  {
    hide QueueOk;
  }

  lemma LiveGrows(s: State, i: nat, q: seq<Seg>, m: multiset<nat>)
    requires |s.rsnd| == 3 && i < 3 && Nums(q) == m + Nums(s.rsnd[i])
    ensures Live(s.(rsnd := s.rsnd[i := q])) == Live(s) + m
  {
    hide Nums, InFlight, Sum5;
    TakeOne(Nums(s.snd), Nums(s.rsnd[0]), Nums(s.rsnd[1]), Nums(s.rsnd[2]), Nums(InFlight(s)), m);
    SameInFlight(s, s.(rsnd := s.rsnd[i := q]));
  }

  lemma QueueOfList(s: State, i: nat)
    requires QueuesOk(s) && i < 3
    ensures |s.rsnd| == 3 && QueueOk(s.rsnd[i], i + 1)
  {
    hide QueueOk;
  }

  lemma QueueSnoc(q: seq<Seg>, y: Seg)
    requires QueueOk(q, y.wrn) && !y.recovery && !y.weak && !y.gidEnd
    ensures QueueOk(q + [y], y.wrn) && Nums(q + [y]) == multiset{y.num} + Nums(q)
  {
    NumsAppend(q, [y]);
    NumsOne(y);
    Commute(Nums(q), multiset{y.num});
  }

  lemma SettleOne(s: State, x: Seg, nacks: seq<Nack.Range>)
    requires QueuesOk(s) && x.wrn <= 3 && (!x.recovery ==> !x.weak)
    ensures var s' := Settle(s, x, nacks);
            var acked := if x.recovery || Missing(x, nacks) then multiset{} else multiset{x.num};
            && QueuesOk(s')
            && Live(s') + acked == Live(s) + Nums([x])
            && s'.nSnd == s.nSnd - |acked|
            && s'.segs - QueueLength(s') == s.segs - QueueLength(s) - 1
  {
    hide InFlight, Nums, QueueOk, Live;
    NumsOne(x);
    if !x.recovery && Missing(x, nacks) {
      ResendOne(s, Again(x));
    } else {
      SameLive(s, Settle(s, x, nacks));
    }
  }

  lemma {:induction false} SettleAllFacts(s: State, m: seq<Seg>, nacks: seq<Nack.Range>)
    requires |s.rsnd| == 3 && QueuesOk(s)
    requires forall i :: 0 <= i < |m| ==> m[i].wrn <= 3 && (!m[i].recovery ==> !m[i].weak)
    ensures var s' := SettleAll(s, m, nacks);
            && s' == s.(rsnd := s'.rsnd, nSnd := s'.nSnd, segs := s'.segs)
            && QueuesOk(s')
            && Live(s') + Acked(m, nacks) == Live(s) + Nums(m)
            && s'.nSnd == s.nSnd - |Acked(m, nacks)|
            && s'.segs - QueueLength(s') == s.segs - QueueLength(s) - |m|
    decreases |m|
  {
    hide Live, QueuesOk, Settle, Nums, QueueLength, Missing;
    if m == [] {
      NumsNone();
    } else {
      var n := |m| - 1;
      var x, init := m[n], m[..n];
      var s1 := Settle(s, x, nacks);
      SettleOne(s, x, nacks);
      SettleFrame(s, x, nacks);
      SettleAllFacts(s1, init, nacks);
      NumsAppend(init, [x]);
      assert init + [x] == m;
      var acked := if x.recovery || Missing(x, nacks) then multiset{} else multiset{x.num};
      Combine(Live(SettleAll(s, m, nacks)), Acked(init, nacks), Live(s1), Nums(init), acked, Live(s), Nums([x]));
    }
  }

  // ----- A settled group is complete -----

  lemma {:induction false} MembersCores(w: seq<Seg>, k: nat)
    ensures Members(Cores(w), k) == Cores(Members(w, k))
    ensures Without(Cores(w), k) == Cores(Without(w, k))
  {
    if w != [] {
      MembersCores(w[1..], k);
    }
  }

  lemma {:induction false} NumsSplit(w: seq<Seg>, k: nat)
    ensures Nums(w) == Nums(Members(w, k)) + Nums(Without(w, k))
  {
    if w != [] {
      NumsSplit(w[1..], k);
    }
  }

  ghost predicate WakFlags(w: seq<Seg>) {
    forall i :: 0 <= i < |w| ==> w[i].wrn <= 3 && (w[i].weak <==> w[i].recovery)
  }

  lemma {:induction false} MembersFlags(w: seq<Seg>, k: nat)
    requires WakFlags(w)
    ensures WakFlags(Members(w, k)) && WakFlags(Without(w, k))
  {
    if w != [] {
      MembersFlags(w[1..], k);
    }
  }

  lemma LastOfAppend(a: seq<Seg>, x: Seg)
    ensures Members(a + [x], x.grp) == Members(a, x.grp) + [x]
  {
    MembersAppend(a, [x], x.grp);
    assert [x][1..] == [];
  }

  /** The end mark of a group is its last member: nothing of the group follows it. */
  lemma EndIsLast(pre: seq<Seg>, x: Seg, post: seq<Seg>)
    requires x.gidEnd && FullGroup(Members(pre + [x] + post, x.grp))
    ensures Members(post, x.grp) == []
  {
    LastOfAppend(pre, x);
    MembersAppend(pre + [x], post, x.grp);
    var a, b := Members(pre, x.grp), Members(post, x.grp);
    var m := a + [x] + b;
    assert m[|a|] == x;
  }

  /** A segment in `wak` with the end mark has its whole group before it, and none of it in the schedule. */
  lemma GroupInWak(s: State, done: seq<Seg>, x: Seg, rest: seq<Seg>)
    requires GroupsOk(InFlight(s)) && s.wak == done + [x] + rest && x.gidEnd
    ensures Members(rest, x.grp) == [] && Members(CurCores(s.cur), x.grp) == []
    ensures FullGroup(Cores(Members(s.wak, x.grp)))
    ensures Members(s.wak, x.grp) == Members(done + [x], x.grp)
  {
    hide Members, Cores, CurCores, FullGroup;
    var k := x.grp;
    CoresAppend(done + [x], rest);
    CoresAppend(done, [x]);
    CoresOne(x);
    Assoc(Cores(done) + [Core(x)], Cores(rest), CurCores(s.cur));
    assert FullGroup(Members(InFlight(s), k));
    EndIsLast(Cores(done), Core(x), Cores(rest) + CurCores(s.cur));
    MembersAppend(Cores(rest), CurCores(s.cur), k);
    MembersCores(rest, k);
    CoresEmpty(Members(rest, k));
    MembersAppend(done + [x], rest, k);
    MembersAppend(Cores(s.wak), CurCores(s.cur), k);
    MembersCores(s.wak, k);
    EmptyPlus(Members(done + [x], k), x);
    EmptyPlus(Cores(Members(s.wak, k)), x);
  }

  lemma CoresOne(x: Seg)
    ensures Cores([x]) == [Core(x)]
  {
    assert [x][1..] == [];
  }

  lemma CoresEmpty(w: seq<Seg>)
    ensures Cores(w) == [] ==> w == []
  {
  }

  lemma SettleAllFrame(s: State, k: nat, nacks: seq<Nack.Range>)
    requires QueuesOk(s) && WakFlags(s.wak) && |s.rsnd| == 3
    ensures Low(s.wak)
    ensures var s' := SettleGroup(s, k, nacks);
            && s' == s.(wak := Without(s.wak, k), rsnd := s'.rsnd, nSnd := s'.nSnd, segs := s'.segs)
            && QueuesOk(s')
            && Live(s') + Acked(Members(s.wak, k), nacks)
               == Live(s.(wak := Without(s.wak, k))) + Nums(Members(s.wak, k))
            && s'.nSnd == s.nSnd - |Acked(Members(s.wak, k), nacks)|
            && s'.segs - QueueLength(s') == s.segs - QueueLength(s) - |Members(s.wak, k)|
  {
    hide Live, Nums, Acked, SettleAll, Members, Without, QueueOk;
    MembersFlags(s.wak, k);
    SettleAllFacts(s.(wak := Without(s.wak, k)), Members(s.wak, k), nacks);
  }

  /** Taking a group out of `wak` takes exactly its packets out of the live ones. */
  lemma RemoveLive(s: State, k: nat)
    requires |s.rsnd| == 3
    ensures Live(s) == Live(s.(wak := Without(s.wak, k))) + Nums(Members(s.wak, k))
  {
    var s1 := s.(wak := Without(s.wak, k));
    NumsAppend(Cores(s.wak), CurCores(s.cur));
    NumsAppend(Cores(s1.wak), CurCores(s.cur));
    NumsCores(s.wak);
    NumsCores(s1.wak);
    NumsSplit(s.wak, k);
    hide Nums, Cores, CurCores, Members, Without;
  }

  lemma RemoveInFlight(s: State, k: nat)
    requires Members(CurCores(s.cur), k) == []
    ensures InFlight(s.(wak := Without(s.wak, k))) == Without(InFlight(s), k)
  {
    hide Members, Cores, CurCores, Without;
    WithoutAppend(Cores(s.wak), CurCores(s.cur), k);
    MembersCores(s.wak, k);
    WithoutNone(CurCores(s.cur), k);
  }

  lemma {:induction false} WithoutIn(w: seq<Seg>, k: nat, x: Seg)
    requires x in Without(w, k)
    ensures x in w
  {
    if w != [] {
      if x in Without(w[1..], k) {
        WithoutIn(w[1..], k, x);
      }
    }
  }

  /** Settling a complete group keeps the invariant; only packets not reported missing are dropped. */
  lemma SettleGroupInv(s: State, done: seq<Seg>, x: Seg, rest: seq<Seg>, nacks: seq<Nack.Range>)
    requires Inv(s) && s.wak == done + [x] + rest && x.gidEnd
    ensures Low(s.wak)
    ensures var s' := SettleGroup(s, x.grp, nacks);
            && Inv(s') && s'.wak == Without(done + [x], x.grp) + rest && s'.cur == s.cur
            && Live(s) == Live(s') + Acked(Members(s.wak, x.grp), nacks)
  {
    var k := x.grp;
    hide Live, Nums, Acked, Members, Without, InFlight, Cores, CurCores, FullGroup, QueueOk, SettleGroup, Recoveries;
    GroupInWak(s, done, x, rest);
    assert WakFlags(s.wak);
    SettleAllFrame(s, k, nacks);
    var s' := SettleGroup(s, k, nacks);
    var s1 := s.(wak := Without(s.wak, k));
    RemoveLive(s, k);
    Cancel(Live(s), Live(s1), Nums(Members(s.wak, k)), Live(s'), Acked(Members(s.wak, k), nacks));
    RemoveInFlight(s, k);
    SameInFlight(s1, s');
    RemoveGroupOk(InFlight(s), k);
    WithoutAppend(done + [x], rest, k);
    WithoutNone(rest, k);
    WithoutLength(s.wak, k);
    forall y | y in InFlight(s') ensures y in InFlight(s) {
      WithoutIn(InFlight(s), k, y);
    }
    MembersFlags(s.wak, k);
    SubMultiset(Live(s), Live(s'), Acked(Members(s.wak, k), nacks));
    assert CountsOk(s');
    assert WeakOk(s') && SlotsOk(s');
  }

  lemma Cancel(a: multiset<nat>, b: multiset<nat>, c: multiset<nat>, d: multiset<nat>, e: multiset<nat>)
    requires a == b + c && d + e == b + c
    ensures a == d + e
  {
  }

  lemma SubMultiset(a: multiset<nat>, b: multiset<nat>, c: multiset<nat>)
    requires a == b + c
    ensures |a| == |b| + |c| && (forall x :: b[x] <= a[x]) && (forall x :: x in b ==> x in a)
  {
  }

  // ----- The whole report -----

  /** Walks over the waiting segments `todo`, settling finished groups, up to the reported segment. */
  function Scan(s: State, todo: seq<Seg>, fid: nat, gid: nat, nacks: seq<Nack.Range>): (s': State)
    requires |s.rsnd| == 3 && Low(s.wak)
    decreases |todo|
  {
    if todo == [] then s
    else
      var x := todo[0];
      var settle := AtOrBefore(Fid(x), fid) && x.gidEnd;
      var s1 := if settle then SettleGroup(s, x.grp, nacks) else s;
      SettleLow(s, x.grp, nacks);
      if Fid(x) == fid && x.gid == gid then s1 else Scan(s1, todo[1..], fid, gid, nacks)
  }

  /** Everything but `wak`, the resend lists and the counters is the same. */
  ghost predicate SameRest(s: State, s': State) {
    s' == s.(wak := s'.wak, rsnd := s'.rsnd, nSnd := s'.nSnd, segs := s'.segs)
  }

  lemma {:induction false} SettleAllKeeps(s: State, m: seq<Seg>, nacks: seq<Nack.Range>)
    requires |s.rsnd| == 3 && forall i :: 0 <= i < |m| ==> m[i].wrn <= 3
    ensures SettleAll(s, m, nacks).wak == s.wak && SameRest(s, SettleAll(s, m, nacks))
    decreases |m|
  {
    if m != [] {
      hide Settle;
      SettleFrame(s, m[|m| - 1], nacks);
      SettleAllKeeps(Settle(s, m[|m| - 1], nacks), m[..|m| - 1], nacks);
    }
  }

  lemma SettleLow(s: State, k: nat, nacks: seq<Nack.Range>)
    requires |s.rsnd| == 3 && Low(s.wak)
    ensures Low(SettleGroup(s, k, nacks).wak) && SameRest(s, SettleGroup(s, k, nacks))
  {
    MembersLow(s.wak, k);
    SettleAllKeeps(s.(wak := Without(s.wak, k)), Members(s.wak, k), nacks);
  }

  /** Packets of a resend list that are still reported missing. */
  function Kept(w: seq<Seg>, nacks: seq<Nack.Range>): (r: seq<Seg>)
    ensures |r| <= |w|
  {
    if w == [] then []
    else if Missing(w[0], nacks) then [w[0]] + Kept(w[1..], nacks)
    else Kept(w[1..], nacks)
  }

  /** Frees the packets of resend list `i` that are no longer reported missing. */
  function Prune(s: State, i: nat, nacks: seq<Nack.Range>): (s': State)
    requires i < |s.rsnd| == 3
    ensures |s'.rsnd| == 3
  {
    var n := |s.rsnd[i]| - |Kept(s.rsnd[i], nacks)|;
    s.(rsnd := s.rsnd[i := Kept(s.rsnd[i], nacks)], nSnd := s.nSnd - n, segs := s.segs - n)
  }

  /** A report: finished groups are settled, then the resend lists are pruned. The schedule is left alone. */
  function Report(s: State, fid: nat, gid: nat, nacks: seq<Nack.Range>): (s': State)
    requires |s.rsnd| == 3 && Low(s.wak)
  {
    ScanShape(s, s.wak, fid, gid, nacks);
    Prune(Prune(Prune(Scan(s, s.wak, fid, gid, nacks), 0, nacks), 1, nacks), 2, nacks)
  }

  lemma {:induction false} ScanShape(s: State, todo: seq<Seg>, fid: nat, gid: nat, nacks: seq<Nack.Range>)
    requires |s.rsnd| == 3 && Low(s.wak)
    ensures |Scan(s, todo, fid, gid, nacks).rsnd| == 3 && SameRest(s, Scan(s, todo, fid, gid, nacks))
    decreases |todo|
  {
    if todo != [] {
      hide SettleGroup, Low;
      var x := todo[0];
      var s1 := if AtOrBefore(Fid(x), fid) && x.gidEnd then SettleGroup(s, x.grp, nacks) else s;
      SettleLow(s, x.grp, nacks);
      ScanShape(s1, todo[1..], fid, gid, nacks);
    }
  }

  /** Only packets outside the reported ranges. */
  ghost predicate NoneMissing(acked: multiset<nat>, nacks: seq<Nack.Range>) {
    forall n :: n in acked ==> !Nack.Nacked(n % ID_SPACE, nacks)
  }

  lemma AckedNoneMissing(m: seq<Seg>, nacks: seq<Nack.Range>)
    ensures NoneMissing(Acked(m, nacks), nacks)
  {
    forall n | n in Acked(m, nacks) ensures !Nack.Nacked(n % ID_SPACE, nacks) {
      AckedNotMissing(m, nacks, n);
    }
  }

  lemma NoneMissingUnion(a: multiset<nat>, b: multiset<nat>, nacks: seq<Nack.Range>)
    requires NoneMissing(a, nacks) && NoneMissing(b, nacks)
    ensures NoneMissing(a + b, nacks)
  {
  }

  lemma Chain(a: multiset<nat>, b: multiset<nat>, c: multiset<nat>, d: multiset<nat>, e: multiset<nat>)
    requires a == b + c && b == d + e
    ensures a == d + (e + c)
  {
  }

  lemma NothingAcked(a: multiset<nat>)
    ensures a == a + multiset{}
  {
  }

  lemma InvLow(s: State)
    requires Inv(s)
    ensures |s.rsnd| == 3 && Low(s.wak)
  {
  }

  /** One step of the walk: the segment is skipped, or its whole group is settled. */
  lemma VisitInv(s: State, done: seq<Seg>, x: Seg, rest: seq<Seg>, settle: bool, nacks: seq<Nack.Range>)
    returns (done1: seq<Seg>, acked: multiset<nat>)
    requires Inv(s) && s.wak == done + ([x] + rest) && (settle ==> x.gidEnd)
    ensures |s.rsnd| == 3 && Low(s.wak)
    ensures var s1 := if settle then SettleGroup(s, x.grp, nacks) else s;
            Inv(s1) && s1.wak == done1 + rest && Live(s) == Live(s1) + acked && NoneMissing(acked, nacks)
  {
    hide Live, SettleGroup, Inv, Acked, Without, Members, Missing, Low;
    InvLow(s);
    Assoc(done, [x], rest);
    if settle {
      SettleGroupInv(s, done, x, rest, nacks);
      done1, acked := Without(done + [x], x.grp), Acked(Members(s.wak, x.grp), nacks);
      AckedNoneMissing(Members(s.wak, x.grp), nacks);
    } else {
      done1, acked := done + [x], multiset{};
      NothingAcked(Live(s));
    }
  }

  /** The walk keeps the invariant at every step and drops only packets that arrived. */
  lemma {:induction false} ScanInv(s: State, done: seq<Seg>, todo: seq<Seg>, fid: nat, gid: nat, nacks: seq<Nack.Range>)
    returns (acked: multiset<nat>)
    requires Inv(s) && s.wak == done + todo
    ensures |s.rsnd| == 3 && Low(s.wak) && Inv(Scan(s, todo, fid, gid, nacks))
    ensures Live(s) == Live(Scan(s, todo, fid, gid, nacks)) + acked && NoneMissing(acked, nacks)
    decreases |todo|
  {
    hide Live, SettleGroup, Inv, NoneMissing, Low;
    InvLow(s);
    if todo == [] {
      NothingAcked(Live(s));
      acked := multiset{};
      assert NoneMissing(acked, nacks) by {
        AckedNoneMissing([], nacks);
      }
    } else {
      var x, rest := todo[0], todo[1..];
      assert todo == [x] + rest;
      var settle := AtOrBefore(Fid(x), fid) && x.gidEnd;
      var done1, acked1 := VisitInv(s, done, x, rest, settle, nacks);
      var s1 := if settle then SettleGroup(s, x.grp, nacks) else s;
      InvLow(s1);
      hide AtOrBefore;
      if Fid(x) == fid && x.gid == gid {
        acked := acked1;
      } else {
        var acked2 := ScanInv(s1, done1, rest, fid, gid, nacks);
        acked := acked2 + acked1;
        NoneMissingUnion(acked2, acked1, nacks);
        ScanShape(s1, rest, fid, gid, nacks);
        Chain(Live(s), Live(s1), acked1, Live(Scan(s1, rest, fid, gid, nacks)), acked2);
      }
    }
  }

  // ----- Pruning -----

  lemma QueueTail(w: seq<Seg>, wrn: nat)
    requires QueueOk(w, wrn) && w != []
    ensures QueueOk(w[1..], wrn) && Nums(w) == multiset{w[0].num} + Nums(w[1..])
  {
  }

  lemma QueueCons(w: seq<Seg>, wrn: nat, rest: seq<Seg>)
    requires QueueOk(w, wrn) && w != [] && QueueOk(rest, wrn)
    ensures QueueOk([w[0]] + rest, wrn) && Nums([w[0]] + rest) == multiset{w[0].num} + Nums(rest)
  {
    assert ([w[0]] + rest)[1..] == rest;
  }

  lemma Regroup(x: multiset<nat>, kept: multiset<nat>, acked: multiset<nat>)
    ensures x + (kept + acked) == (x + kept) + acked == kept + (x + acked)
    ensures |x + acked| == |x| + |acked|
  {
  }

  lemma AckOne(n: nat, acked: multiset<nat>, nacks: seq<Nack.Range>)
    requires NoneMissing(acked, nacks) && !Nack.Nacked(n % ID_SPACE, nacks)
    ensures NoneMissing(multiset{n} + acked, nacks)
  {
  }

  lemma {:induction false} KeptFacts(w: seq<Seg>, wrn: nat, nacks: seq<Nack.Range>) returns (acked: multiset<nat>)
    requires QueueOk(w, wrn)
    ensures QueueOk(Kept(w, nacks), wrn) && Nums(w) == Nums(Kept(w, nacks)) + acked
    ensures NoneMissing(acked, nacks) && |acked| == |w| - |Kept(w, nacks)|
  {
    if w == [] {
      acked := multiset{};
    } else {
      hide QueueOk, Nums, NoneMissing;
      QueueTail(w, wrn);
      var acked1 := KeptFacts(w[1..], wrn, nacks);
      Regroup(multiset{w[0].num}, Nums(Kept(w[1..], nacks)), acked1);
      if Missing(w[0], nacks) {
        acked := acked1;
        QueueCons(w, wrn, Kept(w[1..], nacks));
      } else {
        acked := multiset{w[0].num} + acked1;
        AckOne(w[0].num, acked1, nacks);
      }
    }
  }

  lemma PruneLive(s: State, i: nat, nacks: seq<Nack.Range>) returns (acked: multiset<nat>)
    requires QueuesOk(s) && i < 3
    ensures QueuesOk(Prune(s, i, nacks)) && Live(s) == Live(Prune(s, i, nacks)) + acked
    ensures NoneMissing(acked, nacks) && |acked| == |s.rsnd[i]| - |Kept(s.rsnd[i], nacks)|
  {
    hide Nums, InFlight, QueueOk, Kept, NoneMissing, Sum5;
    acked := KeptFacts(s.rsnd[i], i + 1, nacks);
    var s' := Prune(s, i, nacks);
    SameInFlight(s, s');
    TakeOne(Nums(s'.snd), Nums(s'.rsnd[0]), Nums(s'.rsnd[1]), Nums(s'.rsnd[2]), Nums(InFlight(s)), acked);
    Commute(Nums(s'.rsnd[i]), acked);
  }

  lemma Commute(a: multiset<nat>, b: multiset<nat>)
    ensures a + b == b + a
  {
  }

  lemma PruneInv(s: State, i: nat, nacks: seq<Nack.Range>) returns (acked: multiset<nat>)
    requires Inv(s) && i < 3
    ensures Inv(Prune(s, i, nacks)) && Live(s) == Live(Prune(s, i, nacks)) + acked && NoneMissing(acked, nacks)
  {
    hide InFlight, GroupsOk, IdsOk, QueueOk, WeakOk, SlotsOk, Kept, NoneMissing, CurCores, Recoveries, Live;
    acked := PruneLive(s, i, nacks);
    var s' := Prune(s, i, nacks);
    SameInFlight(s, s');
    SameChecks(s, s');
    SubMultiset(Live(s), Live(s'), acked);
    hide QueuesOk;
    PruneCounts(s, i, nacks, acked);
  }

  lemma PruneCounts(s: State, i: nat, nacks: seq<Nack.Range>, acked: multiset<nat>)
    requires |s.rsnd| == 3 && i < 3 && CountsOk(s)
    requires var s' := Prune(s, i, nacks);
             && |Live(s)| == |Live(s')| + |acked| && (forall x :: Live(s')[x] <= Live(s)[x])
             && (forall x :: x in Live(s') ==> x in Live(s))
    requires |acked| == |s.rsnd[i]| - |Kept(s.rsnd[i], nacks)|
    ensures CountsOk(Prune(s, i, nacks))
  {
    hide Live, Kept, CurCores, Recoveries;
  }

  /**
   A report keeps the invariant, and every packet the sender no longer holds lies outside all reported
   ranges: no packet reported missing is ever lost.
   */
  lemma ReportInv(s: State, fid: nat, gid: nat, nacks: seq<Nack.Range>) returns (acked: multiset<nat>)
    requires Inv(s)
    ensures |s.rsnd| == 3 && Low(s.wak) && Inv(Report(s, fid, gid, nacks))
    ensures Live(s) == Live(Report(s, fid, gid, nacks)) + acked && NoneMissing(acked, nacks)
    ensures SameRest(s, Report(s, fid, gid, nacks))
  {
    assert s.wak == [] + s.wak;
    InvLow(s);
    hide Live, Scan, Inv, NoneMissing, Low;
    var a0 := ScanInv(s, [], s.wak, fid, gid, nacks);
    ScanShape(s, s.wak, fid, gid, nacks);
    var s1 := Scan(s, s.wak, fid, gid, nacks);
    var a1 := PruneInv(s1, 0, nacks);
    var s2 := Prune(s1, 0, nacks);
    var a2 := PruneInv(s2, 1, nacks);
    var s3 := Prune(s2, 1, nacks);
    var a3 := PruneInv(s3, 2, nacks);
    var s4 := Prune(s3, 2, nacks);
    hide Prune;
    Chain(Live(s), Live(s1), a0, Live(s2), a1);
    Chain(Live(s), Live(s2), a1 + a0, Live(s3), a2);
    Chain(Live(s), Live(s3), a2 + (a1 + a0), Live(s4), a3);
    NoneMissingUnion(a1, a0, nacks);
    NoneMissingUnion(a2, a1 + a0, nacks);
    NoneMissingUnion(a3, a2 + (a1 + a0), nacks);
    acked := a3 + (a2 + (a1 + a0));
  }

  // ----- Exactly which groups and packets a report affects -----

  /** The groups that end in `todo` up to the reported segment, at or before the reported group. */
  function Settled(todo: seq<Seg>, fid: nat, gid: nat): (groups: set<nat>) {
    if todo == [] then {}
    else
      var x := todo[0];
      (if AtOrBefore(Fid(x), fid) && x.gidEnd then {x.grp} else {})
      + (if Fid(x) == fid && x.gid == gid then {} else Settled(todo[1..], fid, gid))
  }

  /** The list without the given groups. */
  function WithoutAll(w: seq<Seg>, groups: set<nat>): (r: seq<Seg>) {
    if w == [] then []
    else if w[0].grp in groups then WithoutAll(w[1..], groups)
    else [w[0]] + WithoutAll(w[1..], groups)
  }

  lemma {:induction false} WithoutAllNone(w: seq<Seg>)
    ensures WithoutAll(w, {}) == w
  {
    if w != [] {
      WithoutAllNone(w[1..]);
    }
  }

  lemma {:induction false} WithoutMore(w: seq<Seg>, k: nat, groups: set<nat>)
    ensures WithoutAll(Without(w, k), groups) == WithoutAll(w, {k} + groups)
  {
    if w != [] {
      WithoutMore(w[1..], k, groups);
      assert w[0].grp != k ==> Without(w, k)[1..] == Without(w[1..], k);
    }
  }

  /** The waiting list loses exactly the settled groups; everything else stays in its order. */
  lemma {:induction false} ScanSettles(s: State, todo: seq<Seg>, fid: nat, gid: nat, nacks: seq<Nack.Range>)
    requires |s.rsnd| == 3 && Low(s.wak)
    ensures Scan(s, todo, fid, gid, nacks).wak == WithoutAll(s.wak, Settled(todo, fid, gid))
    decreases |todo|
  {
    hide WithoutAll, AtOrBefore, Low;
    WithoutAllNone(s.wak);
    if todo != [] {
      var x, rest := todo[0], todo[1..];
      var settle := AtOrBefore(Fid(x), fid) && x.gidEnd;
      var stop := Fid(x) == fid && x.gid == gid;
      var s1 := if settle then SettleGroup(s, x.grp, nacks) else s;
      SettleLow(s, x.grp, nacks);
      SettleGroupWak(s, x.grp, nacks);
      hide SettleGroup;
      var later := if stop then {} else Settled(rest, fid, gid);
      WithoutAllNone(s1.wak);
      ScanSettles(s1, rest, fid, gid, nacks);
      WithoutMore(s.wak, x.grp, later);
      assert Settled(todo, fid, gid) == (if settle then {x.grp} else {}) + later;
      NoExtra(later);
    }
  }

  lemma NoExtra(a: set<nat>)
    ensures {} + a == a
  {
  }

  lemma SettleGroupWak(s: State, k: nat, nacks: seq<Nack.Range>)
    requires |s.rsnd| == 3 && Low(s.wak)
    ensures SettleGroup(s, k, nacks).wak == Without(s.wak, k)
  {
    MembersLow(s.wak, k);
    SettleAllKeeps(s.(wak := Without(s.wak, k)), Members(s.wak, k), nacks);
  }

  lemma {:induction false} KeptMissing(w: seq<Seg>, nacks: seq<Nack.Range>)
    ensures AllMissing(Kept(w, nacks), nacks)
  {
    if w != [] {
      KeptMissing(w[1..], nacks);
    }
  }

  ghost predicate AllMissing(w: seq<Seg>, nacks: seq<Nack.Range>) {
    forall i :: 0 <= i < |w| ==> Missing(w[i], nacks)
  }

  /**
   After a report the resend lists hold only packets the report names, the waiting list has lost exactly
   the settled groups, and new packets and the schedule are as before. Together with `ReportInv`: a packet
   is released if and only if it was in a settled group or waiting to be sent again, and is not named.
   */
  lemma ReportExactly(s: State, fid: nat, gid: nat, nacks: seq<Nack.Range>)
    requires |s.rsnd| == 3 && Low(s.wak)
    ensures var s' := Report(s, fid, gid, nacks);
            && |s'.rsnd| == 3 && (forall i :: 0 <= i < 3 ==> AllMissing(s'.rsnd[i], nacks))
            && s'.wak == WithoutAll(s.wak, Settled(s.wak, fid, gid))
            && s'.snd == s.snd && s'.cur == s.cur
  {
    hide Scan, Kept, WithoutAll, Settled, AllMissing, Low;
    ScanShape(s, s.wak, fid, gid, nacks);
    ScanSettles(s, s.wak, fid, gid, nacks);
    var s1 := Scan(s, s.wak, fid, gid, nacks);
    KeptMissing(s1.rsnd[0], nacks);
    KeptMissing(s1.rsnd[1], nacks);
    KeptMissing(s1.rsnd[2], nacks);
  }
}
