/**
 Segments of the Reliable Stream sender and its delta-coded send schedule.

 The list `snd_cur` stores with each segment the number of send slots to let pass after the previous
 one. It stands for segments at absolute, strictly increasing slots.
 */
module Schedule {

  datatype FecType = Fec11 | Fec12 | Fec13 | Fec23

  /** Number of original and recovery segments in a group. */
  function OriginalCount(t: FecType): (n: nat) {
    match t case Fec11 => 1 case Fec12 => 1 case Fec13 => 1 case Fec23 => 2
  }

  function RecoveryCount(t: FecType): (n: nat) {
    match t case Fec11 => 0 case Fec12 => 1 case Fec13 => 2 case Fec23 => 1
  }

  function GroupSize(t: FecType): (n: nat) {
    OriginalCount(t) + RecoveryCount(t)
  }

  /**
   A segment. `num` and `grp` are the unbounded packet and group numbers whose low 12 bits are the
   packet id and the group id on the wire; `wsn` is the delta-coded slot.
   */
  datatype Seg = Seg(num: nat, grp: nat, wsn: nat, wrn: nat, fty: FecType, gid: nat,
                     recovery: bool, weak: bool, gidEnd: bool, audio: bool)

  const ID_SPACE: nat := 4096

  function Pid(s: Seg): (p: nat)
    ensures p < ID_SPACE
  {
    s.num % ID_SPACE
  }

  function Fid(s: Seg): (f: nat)
    ensures f < ID_SPACE
  {
    s.grp % ID_SPACE
  }

  // ----- Absolute slots -----

  /** A segment at an absolute slot; the slot replaces the delta. */
  datatype Entry = Entry(at: nat, seg: Seg)

  /** First slot after the first `p` segments. */
  function Base(cur: seq<Seg>, p: nat): (b: nat)
    requires p <= |cur|
  {
    if p == 0 then 0 else Base(cur, p - 1) + cur[p - 1].wsn + 1
  }

  function SlotOf(cur: seq<Seg>, i: nat): (s: nat)
    requires i < |cur|
  {
    Base(cur, i) + cur[i].wsn
  }

  /** The schedule a delta-coded list stands for. */
  function Slots(cur: seq<Seg>): (a: seq<Entry>)
    ensures |a| == |cur|
    ensures forall i :: 0 <= i < |cur| ==> a[i] == Entry(SlotOf(cur, i), cur[i].(wsn := 0))
  {
    seq(|cur|, i requires 0 <= i < |cur| => Entry(SlotOf(cur, i), cur[i].(wsn := 0)))
  }

  ghost predicate Increasing(a: seq<Entry>) {
    forall i, j :: 0 <= i < j < |a| ==> a[i].at < a[j].at
  }

  lemma {:induction false} BaseBelow(cur: seq<Seg>, i: nat, j: nat)
    requires i < j <= |cur|
    ensures SlotOf(cur, i) < Base(cur, j)
  {
    if i < j - 1 {
      BaseBelow(cur, i, j - 1);
    }
  }

  /** Delta-coded slots are strictly increasing. */
  lemma SlotsIncreasing(cur: seq<Seg>)
    ensures Increasing(Slots(cur))
  {
    forall i, j | 0 <= i < j < |cur| ensures Slots(cur)[i].at < Slots(cur)[j].at {
      BaseBelow(cur, i, j);
    }
  }

  lemma {:induction false} BaseShared(cur: seq<Seg>, cur': seq<Seg>, p: nat)
    requires p <= |cur| && p <= |cur'| && forall i :: 0 <= i < p ==> cur[i].wsn == cur'[i].wsn
    ensures Base(cur, p) == Base(cur', p)
  {
    if p != 0 {
      BaseShared(cur, cur', p - 1);
    }
  }

  /** Two lists whose bases meet at some point and which agree afterwards stay together. */
  lemma {:induction false} BaseTail(cur: seq<Seg>, cur': seq<Seg>, p: nat, p': nat, k: nat)
    requires p + k <= |cur| && p' + k <= |cur'| && Base(cur, p) == Base(cur', p')
    requires cur[p..] == cur'[p'..]
    ensures Base(cur, p + k) == Base(cur', p' + k)
  {
    if k != 0 {
      BaseTail(cur, cur', p, p', k - 1);
      assert cur[p + k - 1] == cur[p..][k - 1] == cur'[p'..][k - 1] == cur'[p' + k - 1];
    }
  }

  // ----- The specification of insertion -----

  /** Least free slot at or after `w`, for strictly increasing slots. */
  function FirstFree(a: seq<Entry>, w: nat): (s: nat)
    ensures w <= s <= w + |a|
  {
    if a == [] then w
    else if a[0].at < w then FirstFree(a[1..], w)
    else if a[0].at == w then FirstFree(a[1..], w + 1)
    else w
  }

  function InsertSorted(a: seq<Entry>, e: Entry): (r: seq<Entry>)
    ensures |r| == |a| + 1
  {
    if a == [] then [e]
    else if a[0].at < e.at then [a[0]] + InsertSorted(a[1..], e)
    else [e] + a
  }

  predicate Taken(a: seq<Entry>, t: nat) {
    exists i :: 0 <= i < |a| && a[i].at == t
  }

  /** `FirstFree` is free, and everything from the request up to it is taken. */
  lemma {:induction false} FirstFreeIsLeast(a: seq<Entry>, w: nat)
    requires Increasing(a)
    ensures !Taken(a, FirstFree(a, w))
    ensures forall t :: w <= t < FirstFree(a, w) ==> Taken(a, t)
  {
    if a != [] {
      var rest := a[1..];
      assert forall i :: 0 < i < |a| ==> a[i] == rest[i - 1];
      if a[0].at < w {
        FirstFreeIsLeast(rest, w);
        TakenTail(a, w, FirstFree(rest, w));
      } else if a[0].at == w {
        FirstFreeIsLeast(rest, w + 1);
        TakenTail(a, w + 1, FirstFree(rest, w + 1));
        assert Taken(a, w);
      }
    }
  }

  lemma TakenTail(a: seq<Entry>, lo: nat, hi: nat)
    requires a != [] && forall t :: lo <= t < hi ==> Taken(a[1..], t)
    ensures forall t :: lo <= t < hi ==> Taken(a, t)
  {
    forall t | lo <= t < hi ensures Taken(a, t) {
      assert Taken(a[1..], t);
      var i :| 0 <= i < |a[1..]| && a[1..][i].at == t;
      assert a[i + 1].at == t;
    }
  }

  /** The least free slot is the only one with these two properties. */
  lemma FirstFreeUnique(a: seq<Entry>, w: nat, s: nat)
    requires Increasing(a) && w <= s && !Taken(a, s) && forall t :: w <= t < s ==> Taken(a, t)
    ensures FirstFree(a, w) == s
  {
    FirstFreeIsLeast(a, w);
  }

  lemma {:induction false} InsertSortedAt(a: seq<Entry>, e: Entry, p: nat)
    requires p <= |a| && (forall i :: 0 <= i < p ==> a[i].at < e.at)
    requires forall i :: p <= i < |a| ==> a[i].at > e.at
    ensures InsertSorted(a, e) == a[..p] + [e] + a[p..]
  {
    if p == 0 {
    } else {
      InsertSortedAt(a[1..], e, p - 1);
      assert a[..p] + [e] + a[p..] == [a[0]] + (a[1..][..p - 1] + [e] + a[1..][p - 1..]);
    }
  }

  // ----- Insertion and removal in the delta-coded list -----

  /** The list after linking `s` with delta `w` before position `p`. */
  function LinkBefore(cur: seq<Seg>, p: nat, s: Seg, w: nat): (cur': seq<Seg>)
    requires p <= |cur| && (p < |cur| ==> cur[p].wsn > w)
    ensures |cur'| == |cur| + 1
  {
    if p == |cur| then cur + [s.(wsn := w)]
    else cur[..p] + [s.(wsn := w), cur[p].(wsn := cur[p].wsn - w - 1)] + cur[p + 1..]
  }

  /** Inserting before position `p` and taking the used slots off the next segment moves no other segment. */
  lemma {:induction false} LinkKeepsSlots(cur: seq<Seg>, p: nat, s: Seg, w: nat)
    requires p <= |cur| && (p < |cur| ==> cur[p].wsn > w)
    ensures Slots(LinkBefore(cur, p, s, w))
         == Slots(cur)[..p] + [Entry(Base(cur, p) + w, s.(wsn := 0))] + Slots(cur)[p..]
  {
    hide Base, SlotOf, LinkBefore, Slots;
    var a, a' := Slots(cur), Slots(LinkBefore(cur, p, s, w));
    forall i | 0 <= i < |a'| ensures a'[i] == InsertedAt(a, p, Entry(Base(cur, p) + w, s.(wsn := 0)), i) {
      LinkedSlot(cur, p, s, w, i);
    }
    assert |a'| == |a| + 1;
    InsertedSeq(a, a', p, Entry(Base(cur, p) + w, s.(wsn := 0)));
  }

  /** Element `i` of a sequence with `e` inserted at position `p`. */
  function InsertedAt(a: seq<Entry>, p: nat, e: Entry, i: nat): (x: Entry)
    requires p <= |a| && i <= |a|
  {
    if i < p then a[i] else if i == p then e else a[i - 1]
  }

  lemma InsertedSeq(a: seq<Entry>, a': seq<Entry>, p: nat, e: Entry)
    requires p <= |a| && |a'| == |a| + 1 && forall i :: 0 <= i < |a'| ==> a'[i] == InsertedAt(a, p, e, i)
    ensures a' == a[..p] + [e] + a[p..]
  {
  }

  lemma {:induction false} LinkedSlot(cur: seq<Seg>, p: nat, s: Seg, w: nat, i: nat)
    requires p <= |cur| && (p < |cur| ==> cur[p].wsn > w) && i < |cur| + 1
    ensures var cur' := LinkBefore(cur, p, s, w);
            && |cur'| == |cur| + 1
            && Entry(SlotOf(cur', i), cur'[i].(wsn := 0)) ==
               if i < p then Entry(SlotOf(cur, i), cur[i].(wsn := 0))
               else if i == p then Entry(Base(cur, p) + w, s.(wsn := 0))
               else Entry(SlotOf(cur, i - 1), cur[i - 1].(wsn := 0))
  {
    var cur' := LinkBefore(cur, p, s, w);
    assert |cur'| == |cur| + 1 && forall j :: 0 <= j < p ==> cur'[j] == cur[j];
    assert cur'[p] == s.(wsn := w);
    if i <= p {
      BaseShared(cur, cur', i);
    } else {
      BaseShared(cur, cur', p);
      LinkedAfter(cur, p, w, cur', i);
    }
  }

  lemma LinkedAfter(cur: seq<Seg>, p: nat, w: nat, cur': seq<Seg>, i: nat)
    requires p < |cur| && p < i <= |cur| && |cur'| == |cur| + 1 && cur[p].wsn > w
    requires Base(cur', p) == Base(cur, p) && cur'[p].wsn == w
    requires cur'[p + 1] == cur[p].(wsn := cur[p].wsn - w - 1) && cur'[p + 2..] == cur[p + 1..]
    ensures SlotOf(cur', i) == SlotOf(cur, i - 1) && cur'[i].(wsn := 0) == cur[i - 1].(wsn := 0)
  {
    assert Base(cur', p + 1) == Base(cur, p) + w + 1;
    if i > p + 1 {
      assert Base(cur', p + 2) == Base(cur, p + 1);
      BaseTail(cur, cur', p + 1, p + 2, i - p - 2);
      assert cur'[i] == cur'[p + 2..][i - p - 2] == cur[p + 1..][i - p - 2] == cur[i - 1];
    }
  }

  /** A slot between two neighbours is free and splits the schedule. */
  lemma Separated(cur: seq<Seg>, p: nat, s: nat)
    requires p <= |cur| && Base(cur, p) <= s && (p < |cur| ==> s < SlotOf(cur, p))
    ensures forall i :: 0 <= i < p ==> Slots(cur)[i].at < s
    ensures forall i :: p <= i < |cur| ==> Slots(cur)[i].at > s
    ensures !Taken(Slots(cur), s)
  {
    hide Base;
    SlotsIncreasing(cur);
    forall i | 0 <= i < p ensures Slots(cur)[i].at < s {
      BaseBelow(cur, i, p);
    }
    forall i | p <= i < |cur| ensures Slots(cur)[i].at > s {
      assert Slots(cur)[p].at > s;
    }
  }

  /** Skips segments in earlier slots; `w` becomes the request relative to the position reached. */
  method SkipEarlier(cur: seq<Seg>, slot: nat) returns (p: nat, w: nat)
    ensures p <= |cur| && Base(cur, p) + w == slot
    ensures p < |cur| ==> cur[p].wsn >= w
  {
    p, w := 0, slot;
    while p < |cur| && cur[p].wsn < w
      invariant p <= |cur| && Base(cur, p) + w == slot
    {
      w := w - cur[p].wsn - 1;
      p := p + 1;
    }
  }

  /** The requested slot is taken: moves past the run of taken slots that starts at position `first`. */
  method SkipRun(cur: seq<Seg>, first: nat, slot: nat) returns (p: nat, ret: nat)
    requires first < |cur| && SlotOf(cur, first) == slot
    ensures first < p <= |cur| && ret == p - first && Base(cur, p) == slot + ret
    ensures p < |cur| ==> cur[p].wsn > 0
    ensures forall t :: slot <= t < slot + ret ==> Taken(Slots(cur), t)
  {
    p, ret := first + 1, 1;
    while p < |cur| && cur[p].wsn == 0
      invariant first < p <= |cur| && ret == p - first && Base(cur, p) == slot + ret
      invariant forall k :: first <= k < p ==> SlotOf(cur, k) == slot + (k - first)
    {
      assert SlotOf(cur, p) == slot + (p - first);
      p, ret := p + 1, ret + 1;
    }
    RunTaken(cur, first, p, slot);
  }

  lemma RunTaken(cur: seq<Seg>, first: nat, p: nat, slot: nat)
    requires first <= p <= |cur| && forall k :: first <= k < p ==> SlotOf(cur, k) == slot + (k - first)
    ensures forall t :: slot <= t < slot + (p - first) ==> Taken(Slots(cur), t)
  {
    forall t | slot <= t < slot + (p - first) ensures Taken(Slots(cur), t) {
      assert Slots(cur)[first + (t - slot)].at == t;
    }
  }

  /**
   Inserts a segment whose `wsn` holds the requested slot. The segment goes to the least free slot at or
   after the request, the result is how far it was displaced, and no other segment moves.
   */
  method InsertStandalone(cur0: seq<Seg>, seg: Seg) returns (cur: seq<Seg>, ret: nat)
    ensures ret == FirstFree(Slots(cur0), seg.wsn) - seg.wsn
    ensures Slots(cur) == InsertSorted(Slots(cur0), Entry(seg.wsn + ret, seg.(wsn := 0)))
  {
    hide Base, Slots;
    var p, w := SkipEarlier(cur0, seg.wsn);
    ret := 0;
    if p < |cur0| && cur0[p].wsn == w {
      p, ret := SkipRun(cur0, p, seg.wsn);
      w := 0;
    }
    cur := LinkBefore(cur0, p, seg, w);
    LinkKeepsSlots(cur0, p, seg, w);
    Separated(cur0, p, seg.wsn + ret);
    SlotsIncreasing(cur0);
    FirstFreeUnique(Slots(cur0), seg.wsn, seg.wsn + ret);
    InsertSortedAt(Slots(cur0), Entry(seg.wsn + ret, seg.(wsn := 0)), p);
  }

  /** Unlinks position `p`, giving its slots to the next segment. */
  function Unlink(cur: seq<Seg>, p: nat): (cur': seq<Seg>)
    requires p < |cur|
  {
    if p + 1 == |cur| then cur[..p]
    else cur[..p] + [cur[p + 1].(wsn := cur[p + 1].wsn + cur[p].wsn + 1)] + cur[p + 2..]
  }

  /** Mid-list removal leaves every other segment at its slot. */
  lemma UnlinkKeepsSlots(cur: seq<Seg>, p: nat)
    requires p < |cur|
    ensures Slots(Unlink(cur, p)) == Slots(cur)[..p] + Slots(cur)[p + 1..]
  {
    var cur' := Unlink(cur, p);
    var b := Slots(cur)[..p] + Slots(cur)[p + 1..];
    assert |b| == |cur'|;
    forall i | 0 <= i < |cur'| ensures Slots(cur')[i] == b[i] {
      UnlinkedSlot(cur, p, i);
    }
  }

  lemma UnlinkedSlot(cur: seq<Seg>, p: nat, i: nat)
    requires p < |cur| && i < |cur| - 1
    ensures var cur' := Unlink(cur, p);
            && |cur'| == |cur| - 1
            && Entry(SlotOf(cur', i), cur'[i].(wsn := 0)) ==
               if i < p then Entry(SlotOf(cur, i), cur[i].(wsn := 0))
               else Entry(SlotOf(cur, i + 1), cur[i + 1].(wsn := 0))
  {
    var cur' := Unlink(cur, p);
    BaseShared(cur, cur', if i <= p then i else p);
    if i > p {
      assert Base(cur', p + 1) == Base(cur, p + 2);
      assert cur[p + 2..] == cur'[p + 1..];
      BaseTail(cur, cur', p + 2, p + 1, i - p - 1);
    }
  }

  function Shift(a: seq<Entry>, d: nat): (a': seq<Entry>)
    requires forall i :: 0 <= i < |a| ==> a[i].at >= d
    ensures |a'| == |a| && forall i :: 0 <= i < |a| ==> a'[i] == a[i].(at := a[i].at - d)
  {
    seq(|a|, i requires 0 <= i < |a| => a[i].(at := a[i].at - d))
  }

  /** Sending the head lets its slots pass: every other slot moves forward by the same amount. */
  lemma PopShifts(cur: seq<Seg>)
    requires cur != []
    ensures forall i :: 0 <= i < |cur| - 1 ==> Slots(cur)[1..][i].at >= cur[0].wsn + 1
    ensures Slots(cur[1..]) == Shift(Slots(cur)[1..], cur[0].wsn + 1)
  {
    forall i | 0 <= i < |cur| - 1
      ensures Slots(cur)[1..][i].at >= cur[0].wsn + 1
      ensures Slots(cur[1..])[i] == Slots(cur)[1..][i].(at := Slots(cur)[1..][i].at - (cur[0].wsn + 1))
    {
      PopBase(cur, i);
    }
  }

  lemma {:induction false} PopBase(cur: seq<Seg>, i: nat)
    requires cur != [] && i <= |cur| - 1
    ensures Base(cur, i + 1) == Base(cur[1..], i) + cur[0].wsn + 1
  {
    if i != 0 {
      PopBase(cur, i - 1);
    }
  }
}
