/** An encoder thread's output: bytes collected in packets of fixed size, and the blocks stored into them. */
module WorkerDst {
  import opened Bits
  import opened BitWriter
  import opened BlockCoder
  import opened PrefixCode
  import CanonicalCode

  /** The local buffers for a block and for the last bytes of a scan. */
  const LOCAL_SIZE: nat := 512
  const TAIL_SIZE: nat := 16

  /** No block takes more bytes than this. */
  const BLOCK_BYTES: nat := 444

  // ----- Packets -----

  function Concat(packets: seq<seq<Byte>>): (s: seq<Byte>) {
    if packets == [] then [] else Concat(packets[..|packets| - 1]) + packets[|packets| - 1]
  }

  lemma ConcatSnoc(packets: seq<seq<Byte>>, p: seq<Byte>)
    ensures Concat(packets + [p]) == Concat(packets) + p
  {
    assert (packets + [p])[..|packets|] == packets;
  }

  lemma AssocBytes(a: seq<Byte>, b: seq<Byte>, c: seq<Byte>)
    ensures a + (b + c) == a + b + c
  {
  }

  /** Packets of `cap` bytes; `used` counts the bytes in the buffer of the packet in progress. */
  class Dst {
    const cap: nat
    const buffer: array<Byte>
    var used: nat
    var packets: seq<seq<Byte>>

    ghost predicate Valid()
      reads this
    {
      && 0 < cap == buffer.Length && used <= cap
      && forall i :: 0 <= i < |packets| ==> |packets[i]| == cap
    }

    /** All bytes written: those in packets and those in the buffer. */
    ghost function Stream(): (s: seq<Byte>)
      requires Valid()
      reads this, buffer
    {
      Concat(packets) + buffer[..used]
    }

    function Free(): (n: nat)
      requires Valid()
      reads this
    {
      cap - used
    }

    constructor (cap: nat)
      requires cap > 0
      ensures Valid() && Stream() == [] && this.cap == cap && fresh(buffer)
    {
      this.cap := cap;
      buffer := new Byte[cap](_ => 0);
      used, packets := 0, [];
    }

    /** Hands over a full packet. */
    method Flush()
      requires Valid() && used == cap
      modifies this
      ensures Valid() && used == 0 && Stream() == old(Stream())
    {
      ConcatSnoc(packets, buffer[..]);
      assert buffer[..used] == buffer[..];
      packets := packets + [buffer[..]];
      used := 0;
    }

    /** Copies bytes to the end of the buffer. */
    method CopyIn(bytes: seq<Byte>)
      requires Valid() && |bytes| <= Free()
      modifies this`used, buffer
      ensures Valid() && used == old(used) + |bytes| && Stream() == old(Stream()) + bytes
    {
      for i := 0 to |bytes|
        invariant used == old(used) && buffer[..used] == old(buffer[..used])
        invariant buffer[used..used + i] == bytes[..i]
      {
        buffer[used + i] := bytes[i];
      }
      AssocBytes(Concat(packets), buffer[..used], bytes);
      assert buffer[..used + |bytes|] == buffer[..used] + buffer[used..used + |bytes|];
      used := used + |bytes|;
    }

    method WriteByte(b: Byte)
      requires Valid()
      modifies this, buffer
      ensures Valid() && Stream() == old(Stream()) + [b]
    {
      if used == cap {
        Flush();
      }
      CopyIn([b]);
    }

    /** Writes bytes, which may fill up the packet in progress and start the next one. */
    method WriteBytes(bytes: seq<Byte>)
      requires Valid() && |bytes| <= cap
      modifies this, buffer
      ensures Valid() && Stream() == old(Stream()) + bytes
    {
      var src := bytes;
      if Free() > 0 {
        if Free() < |src| {
          ghost var before := Stream();
          var n := Free();
          CopyIn(src[..n]);
          AssocBytes(before, src[..n], src[n..]);
          assert src[..n] + src[n..] == bytes;
          src := src[n..];
          Flush();
        }
      } else {
        Flush();
      }
      CopyIn(src);
    }

    /** Takes over bytes that were written directly behind the used part of the buffer. */
    method AdvanceTo(end: nat)
      requires Valid() && used <= end <= cap
      modifies this`used
      ensures Valid() && Stream() == old(Stream()) + buffer[old(used)..end]
    {
      AssocBytes(Concat(packets), buffer[..used], buffer[used..end]);
      assert buffer[..end] == buffer[..used] + buffer[used..end];
      used := end;
    }

    /**
     Stores bytes: through a local buffer when fewer bytes are free than it has, directly into the packet
     otherwise. Both ways add the same bytes to the stream.
     */
    method StoreBlock(bytes: seq<Byte>, local: nat)
      requires Valid() && |bytes| <= local <= cap
      modifies this, buffer
      ensures Valid() && Stream() == old(Stream()) + bytes
    {
      if Free() < local {
        WriteBytes(bytes);
      } else {
        var end := used;
        for i := 0 to |bytes|
          invariant end == used + i && used == old(used) && packets == old(packets)
          invariant buffer[..used] == old(buffer[..used]) && buffer[used..end] == bytes[..i]
        {
          buffer[end] := bytes[i];
          end := end + 1;
        }
        AdvanceTo(end);
      }
    }

    /** Hands over the last packet: everything written is in the packets, and all but the last are full. */
    method Term() returns (all: seq<seq<Byte>>)
      requires Valid()
      ensures Concat(all) == Stream() && |all| > 0 && |all[|all| - 1]| <= cap
      ensures forall i :: 0 <= i < |all| - 1 ==> |all[i]| == cap
    {
      ConcatSnoc(packets, buffer[..used]);
      all := packets + [buffer[..used]];
    }
  }

  // ----- The size of a block -----

  /** No code word is longer than 16 bits. */
  ghost predicate ShortCodes(code: Code) {
    forall s :: s in code ==> |code[s]| <= 16
  }

  ghost predicate SmallValues(cs: seq<int>) {
    forall i :: 0 <= i < |cs| ==> NBits(Abs(cs[i])) <= 11
  }

  /** The bits of the run-length code: at most 27 for each coefficient, one for each pending zero, and an end mark. */
  lemma {:induction false} AcLength(code: Code, cs: seq<int>, run: nat)
    requires ShortCodes(code) && Covered(code, cs, run) && SmallValues(cs)
    ensures |AcBits(code, cs, run)| <= 27 * |cs| + run + 16
    decreases |cs|, run
  {
    hide NBits, ToBits, Pow2;
    if cs == [] {
    } else if cs[0] == 0 {
      AcLength(code, cs[1..], run + 1);
    } else if run >= 16 {
      AcLength(code, cs, run - 16);
    } else {
      AcLength(code, cs[1..], 0);
    }
  }

  /** A block takes at most 1744 bits. */
  lemma BlockLength(dc: Code, ac: Code, z: Block, last: int)
    requires ShortCodes(dc) && ShortCodes(ac) && BlockCovered(dc, ac, z, last)
    requires SmallValues(z[1..]) && NBits(Abs(z[0] - last)) <= 11
    ensures |BlockBits(dc, ac, z, last)| <= 27 + 27 * 63 + 16
  {
    hide NBits, ToBits, Pow2, AcBits, Covered;
    assert |z[1..]| == 63;
    AcLength(ac, z[1..], 0);
  }

  lemma {:induction false} StuffLength(a: seq<Byte>, b: seq<Byte>)
    ensures Stuff(a) <= Stuff(a + b) && |Stuff(a + b)| <= |Stuff(a)| + 2 * |b|
    decreases |b|
  {
    if b == [] {
      assert a + b == a;
    } else {
      var init := b[..|b| - 1];
      assert a + b == (a + init) + [b[|b| - 1]];
      StuffSnoc(a + init, b[|b| - 1]);
      StuffLength(a, init);
    }
  }

  lemma ShortTable(t: DerivedTbl)
    requires TableOk(t)
    ensures ShortCodes(CanonicalCode.TableCode(t))
  {
    hide Pow2, ToBits;
  }

  /** The bytes written when at most `k` whole bytes of bits have gone through the word: at most two for each. */
  lemma NewBytes(raw: seq<Byte>, raw': seq<Byte>, k: nat)
    requires raw <= raw' && |raw'| <= |raw| + k
    ensures Stuff(raw) <= Stuff(raw') && |Stuff(raw')| <= |Stuff(raw)| + 2 * k
  {
    hide Stuff;
    var b := raw'[|raw|..];
    assert raw' == raw + b;
    StuffLength(raw, b);
  }

  lemma OutGrows(out: seq<Byte>, raw: seq<Byte>, out': seq<Byte>, raw': seq<Byte>, noEscape: bool, k: nat)
    requires Carries(out, raw, noEscape) && Carries(out', raw', noEscape)
    requires raw <= raw' && |BytesToBits(raw')| < |BytesToBits(raw)| + 8 * k + 8
    ensures out <= out' && |out'| <= |out| + 2 * k
  {
    hide Stuff, BytesToBits;
    NewBytes(raw, raw', k);
  }

  /** A block whose values have at most 11 bits. */
  ghost predicate SmallBlock(block: Block, last: int) {
    SmallValues(ToZigZag(block)[1..]) && NBits(Abs(ToZigZag(block)[0] - last)) <= 11
  }

  /**
   Whatever is pending in the word, one block writes at most 444 bytes. The zero that goes one place behind
   every byte written stays below index 445, so the local buffer of 512 bytes never overflows.
   */
  method EncodeWithinLocal(w: Writer, block: Block, last: int, dc: DerivedTbl, ac: DerivedTbl) returns (b0: int)
    requires w.Valid() && TableOk(dc) && TableOk(ac) && SmallBlock(block, last)
    requires BlockCovered(CanonicalCode.TableCode(dc), CanonicalCode.TableCode(ac), ToZigZag(block), last)
    modifies w
    ensures w.Valid() && old(w.out) <= w.out && |w.out| <= |old(w.out)| + BLOCK_BYTES && BLOCK_BYTES + 1 <= LOCAL_SIZE
    ensures b0 == block[0]
    ensures w.Stream() == old(w.Stream())
                          + BlockBits(CanonicalCode.TableCode(dc), CanonicalCode.TableCode(ac), ToZigZag(block), last)
  {
    hide ToZigZag, NBits, ToBits, BytesToBits, Stuff, BlockBits, BlockCovered;
    ghost var raw, out := w.raw, w.out;
    ShortTable(dc);
    ShortTable(ac);
    BlockLength(CanonicalCode.TableCode(dc), CanonicalCode.TableCode(ac), ToZigZag(block), last);
    b0 := EncodeOneBlock(w, block, last, dc, ac);
    OutGrows(out, raw, w.out, w.raw, w.noEscape, 222);
  }

  // ----- A scan in packets -----

  /** Encodes a block and stores its bytes. */
  method StoreEncoded(w: Writer, d: Dst, block: Block, last: int, dc: DerivedTbl, ac: DerivedTbl) returns (b0: int)
    requires w.Valid() && TableOk(dc) && TableOk(ac) && SmallBlock(block, last)
    requires BlockCovered(CanonicalCode.TableCode(dc), CanonicalCode.TableCode(ac), ToZigZag(block), last)
    requires d.Valid() && d.cap >= LOCAL_SIZE && d.Stream() == w.out
    modifies w, d, d.buffer
    ensures w.Valid() && d.Valid() && d.Stream() == w.out && b0 == block[0]
    ensures w.Stream() == old(w.Stream())
                          + BlockBits(CanonicalCode.TableCode(dc), CanonicalCode.TableCode(ac), ToZigZag(block), last)
  {
    hide ToZigZag, ToBits, BytesToBits, Stuff, BlockBits, BlockCovered, TableOk, SmallBlock, Concat;
    ghost var out := w.out;
    var n := |w.out|;
    b0 := EncodeWithinLocal(w, block, last, dc, ac);
    assert w.out == out + w.out[n..];
    d.StoreBlock(w.out[n..], LOCAL_SIZE);
  }

  /** Flushes the word and stores the last bytes. */
  method StoreTail(w: Writer, d: Dst)
    requires w.Valid() && d.Valid() && d.cap >= LOCAL_SIZE && d.Stream() == w.out
    modifies w, d, d.buffer
    ensures w.Valid() && d.Valid() && d.Stream() == w.out
    ensures w.free == old(w.free) && BytesToBits(w.raw) == old(w.Stream()) + Ones(w.free % 8)
  {
    hide ToBits, BytesToBits, Stuff, Concat;
    ghost var out, raw := w.out, w.raw;
    var n := |w.out|;
    w.FlushTail();
    OutGrows(out, raw, w.out, w.raw, w.noEscape, 4);
    assert w.out == out + w.out[n..];
    d.StoreBlock(w.out[n..], TAIL_SIZE);
  }

  /** All blocks of a scan have values of at most 11 bits. */
  ghost predicate ScanSmall(jobs: seq<Job>, last: seq<int>) {
    jobs != [] ==>
      && jobs[0].comp < |last| && SmallBlock(jobs[0].block, last[jobs[0].comp])
      && ScanSmall(jobs[1..], last[jobs[0].comp := jobs[0].block[0]])
  }

  lemma NextSmall(jobs: seq<Job>, i: nat, last: seq<int>)
    requires i < |jobs| && ScanSmall(jobs[i..], last)
    ensures jobs[i].comp < |last| && SmallBlock(jobs[i].block, last[jobs[i].comp])
    ensures ScanSmall(jobs[i + 1..], last[jobs[i].comp := jobs[i].block[0]])
  {
    hide SmallBlock;
    assert jobs[i..][1..] == jobs[i + 1..];
  }

  /** The blocks of a scan from job `i` on are still to be encoded, and everything written is in the packets. */
  ghost predicate ScanOpen(w: Writer, d: Dst, tabs: seq<Tables>, jobs: seq<Job>, i: nat, last: seq<int>, all: seq<bool>)
    reads w, d, d.buffer
  {
    && w.Valid() && d.Valid() && d.cap >= LOCAL_SIZE && d.Stream() == w.out
    && i <= |jobs| && AllCovered(tabs, jobs[i..], last) && ScanSmall(jobs[i..], last)
    && w.Stream() + ScanBits(tabs, jobs[i..], last) == all
  }

  /** Encodes and stores the block of job `i`; returns the new predictions. */
  method StoreJob(w: Writer, d: Dst, pairs: seq<DerivedPair>, jobs: seq<Job>, i: nat, last0: seq<int>,
                  ghost all: seq<bool>)
    returns (last: seq<int>)
    requires (forall c :: 0 <= c < |pairs| ==> PairOk(pairs[c])) && i < |jobs|
    requires ScanOpen(w, d, CodesOf(pairs), jobs, i, last0, all)
    modifies w, d, d.buffer
    ensures ScanOpen(w, d, CodesOf(pairs), jobs, i + 1, last, all)
  {
    hide BlockBits, BlockCovered, ToZigZag, PrefixFree, TableOk, SmallBlock, ScanSmall, ScanBits, AllCovered;
    hide BytesToBits, ToBits, Stuff, Concat;
    var c := jobs[i].comp;
    NextJob(CodesOf(pairs), jobs, last0, i, w.Stream());
    NextSmall(jobs, i, last0);
    var b0 := StoreEncoded(w, d, jobs[i].block, last0[c], pairs[c].dc, pairs[c].ac);
    last := last0[c := b0];
  }

  /**
   Encodes a scan into packets. The decoder, given the bytes of all packets in order, recovers exactly the
   blocks; all packets but the last are full.
   */
  method EncodeToPackets(pairs: seq<DerivedPair>, jobs: seq<Job>, last0: seq<int>, noEscape: bool, cap: nat)
    returns (packets: seq<seq<Byte>>, pad: nat)
    requires (forall c :: 0 <= c < |pairs| ==> PairOk(pairs[c])) && cap >= LOCAL_SIZE
    requires AllCovered(CodesOf(pairs), jobs, last0) && ScanSmall(jobs, last0)
    ensures |packets| > 0 && |packets[|packets| - 1]| <= cap
    ensures forall i :: 0 <= i < |packets| - 1 ==> |packets[i]| == cap
    ensures forall i :: 0 <= i < |jobs| ==> Comps(jobs)[i] < |pairs|
    ensures pad < 8
    ensures DecodeScan(CodesOf(pairs), Comps(jobs), BytesToBits(Received(Concat(packets), noEscape)), last0)
         == Some((Blocks(jobs), Ones(pad)))
  {
    hide ToBits, BytesToBits, Stuff, Unstuff, BlockBits, BlockCovered, ToZigZag, PrefixFree, DecodeScan, TableOk, Ones;
    hide Concat, SmallBlock, ScanSmall, ScanBits, AllCovered;
    ghost var tabs := CodesOf(pairs);
    var w := new Writer(noEscape);
    var d := new Dst(cap);
    var last := last0;
    assert jobs[0..] == jobs;
    NoBits(ScanBits(tabs, jobs, last0));
    for i := 0 to |jobs|
      invariant ScanOpen(w, d, tabs, jobs, i, last, ScanBits(tabs, jobs, last0))
      invariant w.noEscape == noEscape && d.cap == cap && fresh(w) && fresh(d) && fresh(d.buffer)
    {
      last := StoreJob(w, d, pairs, jobs, i, last, ScanBits(tabs, jobs, last0));
    }
    ScanClosed(tabs, jobs, last, w.Stream());
    pad := w.free % 8;
    StoreTail(w, d);
    ReceivedIsCarried(w.out, w.raw, noEscape);
    ScanRoundTrip(tabs, jobs, last0, Ones(pad));
    packets := d.Term();
  }
}
