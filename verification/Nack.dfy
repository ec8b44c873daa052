/** Negative acknowledgements: ranges of 12-bit packet ids and the test whether an id was reported missing. */
module Nack {

  const ID_SPACE: nat := 4096
  const QUARTER: nat := 1024

  /** Covers `start`, ..., `start + count` modulo the id space. */
  datatype Range = Range(start: nat, count: nat)

  function Distance(pid: nat, start: nat): (d: nat)
    ensures d < ID_SPACE
  {
    (pid - start) % ID_SPACE
  }

  /** The outcome of the scan over the ranges, with its early exit for ids just below a range. */
  function Nacked(pid: nat, nacks: seq<Range>): (r: bool) {
    if nacks == [] then false
    else if Distance(pid, nacks[0].start) >= ID_SPACE - QUARTER then false
    else Distance(pid, nacks[0].start) <= nacks[0].count || Nacked(pid, nacks[1..])
  }

  method CheckNack(pid: nat, nacks: seq<Range>) returns (r: bool)
    ensures r == Nacked(pid, nacks)
  {
    var i := 0;
    while i < |nacks|
      invariant 0 <= i <= |nacks| && Nacked(pid, nacks) == Nacked(pid, nacks[i..])
    {
      assert nacks[i..][1..] == nacks[i + 1..];
      var diff := Distance(pid, nacks[i].start);
      if diff >= ID_SPACE - QUARTER {
        return false;
      }
      if diff <= nacks[i].count {
        return true;
      }
      i := i + 1;
    }
    r := false;
  }

  /** A range of unbounded packet numbers. */
  datatype NumRange = NumRange(lo: nat, count: nat)

  ghost predicate Member(num: nat, ranges: seq<NumRange>) {
    exists i :: 0 <= i < |ranges| && ranges[i].lo <= num <= ranges[i].lo + ranges[i].count
  }

  /** What is sent on the wire for a range of packet numbers. */
  function OnWire(ranges: seq<NumRange>): (nacks: seq<Range>)
    ensures |nacks| == |ranges|
    ensures forall i :: 0 <= i < |ranges| ==> nacks[i] == Range(ranges[i].lo % ID_SPACE, ranges[i].count)
  {
    seq(|ranges|, i requires 0 <= i < |ranges| => Range(ranges[i].lo % ID_SPACE, ranges[i].count))
  }

  /** Ranges are sorted, each covers at most a quarter of the id space, and all lie near the packet. */
  ghost predicate NearAndSorted(num: nat, ranges: seq<NumRange>) {
    && (forall i, j :: 0 <= i < j < |ranges| ==> ranges[i].lo <= ranges[j].lo)
    && (forall i :: 0 <= i < |ranges| ==>
          ranges[i].count < QUARTER && num < ranges[i].lo + 3 * QUARTER && ranges[i].lo < num + 3 * QUARTER)
  }

  lemma DistanceNear(num: nat, lo: nat)
    requires num < lo + 3 * QUARTER && lo < num + 3 * QUARTER
    ensures Distance(num % ID_SPACE, lo % ID_SPACE) == if num >= lo then num - lo else num - lo + ID_SPACE
  {
    var d := num % ID_SPACE - lo % ID_SPACE;
    assert (d - (num - lo)) % ID_SPACE == 0;
  }

  /** The early exit never changes the answer: the scan decides membership in the reported ranges. */
  lemma {:induction false} NackedIsMember(num: nat, ranges: seq<NumRange>)
    requires NearAndSorted(num, ranges)
    ensures Nacked(num % ID_SPACE, OnWire(ranges)) <==> Member(num, ranges)
  {
    if ranges != [] {
      var rest := ranges[1..];
      assert OnWire(ranges)[1..] == OnWire(rest);
      assert forall i :: 0 < i < |ranges| ==> ranges[i] == rest[i - 1];
      NackedIsMember(num, rest);
      DistanceNear(num, ranges[0].lo);
      if num >= ranges[0].lo {
        MemberSplit(num, ranges);
      } else {
        assert !Member(num, ranges);
        MemberSplit(num, ranges);
      }
    }
  }

  lemma MemberSplit(num: nat, ranges: seq<NumRange>)
    requires ranges != []
    ensures Member(num, ranges) <==>
              (ranges[0].lo <= num <= ranges[0].lo + ranges[0].count || Member(num, ranges[1..]))
  {
    if Member(num, ranges[1..]) {
      var i :| 0 <= i < |ranges[1..]| && ranges[1..][i].lo <= num <= ranges[1..][i].lo + ranges[1..][i].count;
      assert ranges[i + 1] == ranges[1..][i];
    }
    if Member(num, ranges) {
      var i :| 0 <= i < |ranges| && ranges[i].lo <= num <= ranges[i].lo + ranges[i].count;
      assert i > 0 ==> ranges[1..][i - 1] == ranges[i];
    }
  }

  const MAX_RANGES: nat := 453

  /** The ranges in a report: 12 bits of start and 4 bits of count, the last one open to a quarter of the id space. */
  function ParsedRange(words: seq<nat>, i: nat): (r: Range)
    requires i < |words|
  {
    Range(words[i] / 16 % ID_SPACE, if i == |words| - 1 then QUARTER - 1 else words[i] % 16)
  }

  /** Parses a report of 16-bit words; more ranges than there is room for is an error. */
  method ParseNacks(words: seq<nat>) returns (ok: bool, nacks: seq<Range>)
    ensures ok <==> |words| <= MAX_RANGES
    ensures ok ==> |nacks| == |words| && forall i :: 0 <= i < |words| ==> nacks[i] == ParsedRange(words, i)
    ensures ok ==> forall i :: 0 <= i < |nacks| ==> nacks[i].start < ID_SPACE && nacks[i].count < QUARTER
  {
    nacks := [];
    var size := |words|;
    while size > 0
      invariant 0 <= size <= |words| && |nacks| == |words| - size <= MAX_RANGES
      invariant forall i :: 0 <= i < |nacks| ==> nacks[i] == ParsedRange(words, i)
    {
      var val := words[|words| - size];
      var start := val / 16 % ID_SPACE;
      var count := if size == 1 then QUARTER - 1 else val % 16;
      if |nacks| >= MAX_RANGES {
        return false, nacks;
      }
      nacks := nacks + [Range(start, count)];
      size := size - 1;
    }
    ok := true;
  }

  // ----- What a report means -----

  /** The words of a report: the start of each range in the upper twelve bits, the rest of it in the lower four. */
  function Words(ranges: seq<NumRange>): (words: seq<nat>)
    ensures |words| == |ranges|
    ensures forall i :: 0 <= i < |ranges| ==> words[i] == ranges[i].lo % ID_SPACE * 16 + ranges[i].count
  {
    seq(|ranges|, i requires 0 <= i < |ranges| => ranges[i].lo % ID_SPACE * 16 + ranges[i].count)
  }

  /** The last range of a report stands for everything behind its start, up to a quarter of the id space. */
  function Opened(ranges: seq<NumRange>): (r: seq<NumRange>)
    ensures |r| == |ranges|
    ensures forall i :: 0 <= i < |ranges| ==>
              r[i] == if i == |ranges| - 1 then NumRange(ranges[i].lo, QUARTER - 1) else ranges[i]
  {
    seq(|ranges|, i requires 0 <= i < |ranges| =>
      if i == |ranges| - 1 then NumRange(ranges[i].lo, QUARTER - 1) else ranges[i])
  }

  lemma WordParts(lo: nat, count: nat)
    requires lo < ID_SPACE && count < 16
    ensures (lo * 16 + count) / 16 == lo && (lo * 16 + count) % 16 == count
  {
  }

  /** Parsing the words of a report gives back its ranges, the last one opened. */
  lemma ParsedWords(ranges: seq<NumRange>, i: nat)
    requires i < |ranges| && forall j :: 0 <= j < |ranges| ==> ranges[j].count < 16
    ensures ParsedRange(Words(ranges), i) == OnWire(Opened(ranges))[i]
  {
    WordParts(ranges[i].lo % ID_SPACE, ranges[i].count);
  }

  /** A packet is missing by a parsed report exactly if it lies in one of the ranges that were reported. */
  lemma ReportMeans(num: nat, ranges: seq<NumRange>, nacks: seq<Range>)
    requires |nacks| == |ranges| && forall i :: 0 <= i < |nacks| ==> nacks[i] == ParsedRange(Words(ranges), i)
    requires (forall i :: 0 <= i < |ranges| ==> ranges[i].count < 16) && NearAndSorted(num, ranges)
    ensures Nacked(num % ID_SPACE, nacks) <==> Member(num, Opened(ranges))
  {
    hide Nacked, Member;
    forall i | 0 <= i < |nacks| ensures nacks[i] == OnWire(Opened(ranges))[i] {
      ParsedWords(ranges, i);
    }
    assert nacks == OnWire(Opened(ranges));
    NackedIsMember(num, Opened(ranges));
  }
}
