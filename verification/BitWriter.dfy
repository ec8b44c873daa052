/**
 The 32-bit bit buffer with byte stuffing (section F.1.2.3 of ITU-T T.81).

 Bits are collected in the low end of a 32-bit word whose high end keeps stale bits of earlier codes.
 Words are natural numbers below 2^32; shifts and truncations are written out arithmetically.
 */
module BitWriter {
  import opened Bits

  const WORD: nat := 0x1_0000_0000

  type Byte = x: nat | x < 256

  // ----- Bytes, bits and stuffing -----

  function BytesToBits(bs: seq<Byte>): (bits: seq<bool>)
    ensures |bits| == 8 * |bs|
  {
    if bs == [] then [] else BytesToBits(bs[..|bs| - 1]) + ToBits(bs[|bs| - 1], 8)
  }

  /** A zero byte follows every 0xFF byte. */
  function Stuff(bs: seq<Byte>): (s: seq<Byte>) {
    if bs == [] then []
    else Stuff(bs[..|bs| - 1]) + (if bs[|bs| - 1] == 255 then [255, 0] else [bs[|bs| - 1]])
  }

  /** The decoder's view: a zero byte after 0xFF is dropped. */
  function Unstuff(s: seq<Byte>): (bs: seq<Byte>) {
    if s == [] then []
    else if |s| >= 2 && s[|s| - 1] == 0 && s[|s| - 2] == 255 then Unstuff(s[..|s| - 2]) + [255]
    else Unstuff(s[..|s| - 1]) + [s[|s| - 1]]
  }

  lemma {:induction false} StuffTail(bs: seq<Byte>)
    ensures |Stuff(bs)| > 0 ==> Stuff(bs)[|Stuff(bs)| - 1] != 255
  {
  }

  lemma StuffSnoc(bs: seq<Byte>, b: Byte)
    ensures Stuff(bs + [b]) == Stuff(bs) + (if b == 255 then [255, 0] else [b])
  {
    assert (bs + [b])[..|bs|] == bs;
  }

  lemma UnstuffMarked(s: seq<Byte>)
    ensures Unstuff(s + [255, 0]) == Unstuff(s) + [255]
  {
    assert (s + [255, 0])[..|s|] == s;
  }

  lemma UnstuffPlain(s: seq<Byte>, b: Byte)
    requires |s| > 0 ==> s[|s| - 1] != 255
    ensures Unstuff(s + [b]) == Unstuff(s) + [b]
  {
    assert (s + [b])[..|s|] == s;
  }

  /** Unstuffing recovers exactly the bytes that were stuffed. */
  lemma {:induction false} UnstuffStuff(bs: seq<Byte>)
    ensures Unstuff(Stuff(bs)) == bs
  {
    if bs != [] {
      hide Stuff, Unstuff;
      var init, b := bs[..|bs| - 1], bs[|bs| - 1];
      assert init + [b] == bs;
      UnstuffStuff(init);
      StuffSnoc(init, b);
      if b == 255 {
        UnstuffMarked(Stuff(init));
      } else {
        StuffTail(init);
        UnstuffPlain(Stuff(init), b);
      }
    }
  }

  lemma BytesToBitsSnoc(bs: seq<Byte>, b: Byte)
    ensures BytesToBits(bs + [b]) == BytesToBits(bs) + ToBits(b, 8)
  {
    assert (bs + [b])[..|bs|] == bs;
  }

  // ----- Words -----

  /** The byte of a word that starts at bit `8 * k`. */
  function ByteAt(w: nat, k: nat): (b: Byte)
    requires k < 4
  {
    (w / [1, 0x100, 0x1_0000, 0x100_0000][k]) % 256
  }

  lemma WordBytes(w: nat)
    requires w < WORD
    ensures w == ByteAt(w, 3) * 0x100_0000 + ByteAt(w, 2) * 0x1_0000 + ByteAt(w, 1) * 0x100 + ByteAt(w, 0)
  {
    hide ByteAt;
    BytesAre(w);
    var a := w / 0x100;
    var b := a / 0x100;
    assert b == w / 0x1_0000;
    assert b / 0x100 == w / 0x100_0000;
    assert w == a * 0x100 + w % 0x100;
    assert a == b * 0x100 + a % 0x100;
    assert b == (b / 0x100) * 0x100 + b % 0x100;
  }

  /**
   The word-level 0xFF test `c & 0x80808080 & !(c + 0x01010101)`: some byte has its top bit set, and
   loses it when one is added to every byte of the word.
   */
  predicate MayHoldFF(c: nat) {
    var d := (c + 0x0101_0101) % WORD;
    exists k :: 0 <= k < 4 && ByteAt(c, k) >= 128 && ByteAt(d, k) < 128
  }

  lemma ByteSplit(b3: nat, b2: nat, b1: nat, b0: nat)
    requires b3 < 256 && b2 < 256 && b1 < 256 && b0 < 256
    ensures var w := Word(b3, b2, b1, b0);
            ByteAt(w, 3) == b3 && ByteAt(w, 2) == b2 && ByteAt(w, 1) == b1 && ByteAt(w, 0) == b0
  {
    hide Word, ByteAt;
    WordShifts(b3, b2, b1, b0);
    BytesAre(Word(b3, b2, b1, b0));
  }

  lemma BytesAre(w: nat)
    ensures ByteAt(w, 0) == w % 256 && ByteAt(w, 1) == (w / 0x100) % 256
    ensures ByteAt(w, 2) == (w / 0x1_0000) % 256 && ByteAt(w, 3) == (w / 0x100_0000) % 256
  {
  }

  lemma WordShifts(b3: nat, b2: nat, b1: nat, b0: nat)
    requires b3 < 256 && b2 < 256 && b1 < 256 && b0 < 256
    ensures var w := Word(b3, b2, b1, b0);
            && w % 256 == b0 && (w / 0x100) % 256 == b1 && (w / 0x1_0000) % 256 == b2 && (w / 0x100_0000) % 256 == b3
  {
    var w := Word(b3, b2, b1, b0);
    assert w / 0x100 == b3 * 0x1_0000 + b2 * 0x100 + b1;
    assert w / 0x1_0000 == b3 * 0x100 + b2;
    assert w / 0x100_0000 == b3;
  }

  function Word(b3: nat, b2: nat, b1: nat, b0: nat): (w: nat) {
    b3 * 0x100_0000 + b2 * 0x1_0000 + b1 * 0x100 + b0
  }

  // Adding one to every byte carries only out of a byte that is 0xFF, so the lowest 0xFF becomes zero.

  lemma LowestIsByte0(b3: nat, b2: nat, b1: nat)
    requires b3 < 256 && b2 < 256 && b1 < 256
    ensures MayHoldFF(Word(b3, b2, b1, 255))
  {
    var x := b3 * 0x1_0000 + b2 * 0x100 + b1 + 0x1_0102;
    var d := x % 0x100_0000 * 0x100;
    assert Word(b3, b2, b1, 255) + 0x0101_0101 == x * 0x100;
    CarryIntoLow(x);
    LowByteZero(x % 0x100_0000);
    ByteSplit(b3, b2, b1, 255);
    hide Word, ByteAt;
  }

  lemma CarryIntoLow(x: nat)
    ensures x * 0x100 % WORD == x % 0x100_0000 * 0x100
  {
  }

  lemma LowByteZero(e: nat)
    ensures ByteAt(e * 0x100, 0) == 0
  {
  }

  lemma CarryIntoHalf(x: nat, low: nat)
    requires x < 0x2_0000 && low < 0x1_0000
    ensures (x * 0x1_0000 + low) % WORD == (x % 0x1_0000) * 0x1_0000 + low
  {
  }

  lemma LowestIsByte1(b3: nat, b2: nat, b0: nat)
    requires b3 < 256 && b2 < 256 && b0 < 255
    ensures MayHoldFF(Word(b3, b2, 255, b0))
  {
    var d := (Word(b3, b2, 255, b0) + 0x0101_0101) % WORD;
    var x := b3 * 0x100 + b2 + 0x102;
    var e := x % 0x1_0000;
    CarryIntoHalf(x, b0 + 1);
    assert d == Word(e / 0x100, e % 0x100, 0, b0 + 1);
    ByteSplit(b3, b2, 255, b0);
    ByteSplit(e / 0x100, e % 0x100, 0, b0 + 1);
    assert ByteAt(d, 1) == 0;
  }

  lemma LowestIsByte2(b3: nat, b1: nat, b0: nat)
    requires b3 < 256 && b1 < 255 && b0 < 255
    ensures MayHoldFF(Word(b3, 255, b1, b0))
  {
    var d := (Word(b3, 255, b1, b0) + 0x0101_0101) % WORD;
    var e := (b3 + 2) % 0x100;
    assert d == Word(e, 0, b1 + 1, b0 + 1);
    ByteSplit(b3, 255, b1, b0);
    ByteSplit(e, 0, b1 + 1, b0 + 1);
    assert ByteAt(d, 2) == 0;
  }

  lemma LowestIsByte3(b2: nat, b1: nat, b0: nat)
    requires b2 < 255 && b1 < 255 && b0 < 255
    ensures MayHoldFF(Word(255, b2, b1, b0))
  {
    var d := (Word(255, b2, b1, b0) + 0x0101_0101) % WORD;
    assert d == Word(0, b2 + 1, b1 + 1, b0 + 1);
    ByteSplit(255, b2, b1, b0);
    ByteSplit(0, b2 + 1, b1 + 1, b0 + 1);
    assert ByteAt(d, 3) == 0;
  }

  /** When the test is negative, no byte of the word is 0xFF: the fast path never skips a stuffing byte. */
  lemma FastPathSafe(c: nat)
    requires c < WORD && !MayHoldFF(c)
    ensures forall k :: 0 <= k < 4 ==> ByteAt(c, k) != 255
  {
    var b3, b2, b1, b0 := ByteAt(c, 3), ByteAt(c, 2), ByteAt(c, 1), ByteAt(c, 0);
    WordBytes(c);
    assert c == Word(b3, b2, b1, b0);
    if b0 == 255 {
      LowestIsByte0(b3, b2, b1);
    } else if b1 == 255 {
      LowestIsByte1(b3, b2, b0);
    } else if b2 == 255 {
      LowestIsByte2(b3, b1, b0);
    } else if b3 == 255 {
      LowestIsByte3(b2, b1, b0);
    }
  }

  lemma Pow2Consts()
    ensures Pow2(8) == 256 && Pow2(16) == 0x1_0000 && Pow2(32) == WORD
  {
    assert Pow2(8) == 256;
    Pow2Add(8, 8);
    Pow2Add(16, 16);
  }

  /** Appending a byte to a number appends its eight bits. */
  lemma AppendByte(v: nat, n: nat, b: Byte)
    ensures ToBits(v * 256 + b, n + 8) == ToBits(v, n) + ToBits(b, 8)
  {
    Pow2Consts();
    ToBitsAppend(v, n, b, 8);
  }

  /** The bits of a word are the bits of its four bytes, most significant byte first. */
  lemma {:induction false} WordBits(w: nat)
    requires w < WORD
    ensures ToBits(w, 32) ==
            ToBits(ByteAt(w, 3), 8) + ToBits(ByteAt(w, 2), 8) + ToBits(ByteAt(w, 1), 8) + ToBits(ByteAt(w, 0), 8)
  {
    hide ByteAt, ToBits;
    WordBytes(w);
    var b3: nat, b2, b1, b0 := ByteAt(w, 3), ByteAt(w, 2), ByteAt(w, 1), ByteAt(w, 0);
    var hi: nat := b3 * 256 + b2;
    var mid: nat := hi * 256 + b1;
    assert w == mid * 256 + b0;
    AppendByte(b3, 8, b2);
    AppendByte(hi, 16, b1);
    AppendByte(mid, 24, b0);
  }

  /** Dropping multiples of the word size does not change the low bits. */
  lemma {:induction false} ToBitsMod(x: nat, n: nat)
    requires n <= 32
    ensures ToBits(x % WORD, n) == ToBits(x, n)
  {
    Pow2Consts();
    Pow2Add(32 - n, n);
    DivMod(x, WORD);
    ScaledLow(x % WORD, n, x / WORD, Pow2(32 - n));
  }

  lemma {:induction false} ScaledLow(v: nat, n: nat, h: nat, k: nat)
    ensures ToBits(h * (k * Pow2(n)) + v, n) == ToBits(v, n)
  {
    ToBitsLow(v, n, h * k);
    MulAssoc(h, k, Pow2(n));
  }

  lemma MulAssoc(a: nat, b: nat, c: nat)
    ensures a * (b * c) == (a * b) * c
  {
  }

  /** Right shift. */
  function Shr(x: nat, k: nat): (y: nat) {
    if k == 0 then x else Shr(x / 2, k - 1)
  }

  /** Left shift, before truncation to a machine width. */
  function Shl(x: nat, k: nat): (y: nat) {
    if k == 0 then x else 2 * Shl(x, k - 1)
  }

  lemma {:induction false} ShlBits(v: nat, n: nat, w: nat, k: nat)
    requires w < Pow2(k)
    ensures ToBits(Shl(v, k) + w, n + k) == ToBits(v, n) + ToBits(w, k)
  {
    if k == 0 {
      assert ToBits(v, n) + [] == ToBits(v, n);
    } else {
      var x := Shl(v, k) + w;
      assert x / 2 == Shl(v, k - 1) + w / 2 && x % 2 == w % 2;
      ShlBits(v, n, w / 2, k - 1);
      assert ToBits(v, n) + ToBits(w, k) == (ToBits(v, n) + ToBits(w / 2, k - 1)) + [w % 2 == 1];
    }
  }

  lemma {:induction false} ShrBits(c: nat, n: nat, k: nat)
    ensures ToBits(c, n + k) == ToBits(Shr(c, k), n) + ToBits(c, k)
  {
    if k == 0 {
      assert ToBits(c, n) + [] == ToBits(c, n);
    } else {
      ShrBits(c / 2, n, k - 1);
      assert ToBits(Shr(c, k), n) + ToBits(c, k)
          == (ToBits(Shr(c / 2, k - 1), n) + ToBits(c / 2, k - 1)) + [c % 2 == 1];
    }
  }

  lemma {:induction false} ShrBelow(c: nat, n: nat, k: nat)
    requires c < Pow2(n + k)
    ensures Shr(c, k) < Pow2(n)
  {
    if k != 0 {
      ShrBelow(c / 2, n, k - 1);
    }
  }

  /** Shifting a word left by `s` and filling in a code appends the code to its low bits. */
  lemma ShiftIn(c: nat, m: nat, code: nat, s: nat)
    requires m + s <= 32 && code < Pow2(s)
    ensures ToBits((Shl(c, s) + code) % WORD, m + s) == ToBits(c, m) + ToBits(code, s)
  {
    ToBitsMod(Shl(c, s) + code, m + s);
    ShlBits(c, m, code, s);
  }

  lemma ToBitsByte(v: nat)
    ensures ToBits(v % 256, 8) == ToBits(v, 8)
  {
    Pow2Consts();
    ToBitsLow(v % 256, 8, v / 256);
  }

  function Ones(n: nat): (s: seq<bool>)
    ensures |s| == n
  {
    seq(n, _ => true)
  }

  lemma {:induction false} OnesBits(n: nat)
    ensures ToBits(Pow2(n) - 1, n) == Ones(n)
  {
    if n != 0 {
      OnesBits(n - 1);
      assert (Pow2(n) - 1) / 2 == Pow2(n - 1) - 1;
      assert Ones(n) == Ones(n - 1) + [true];
    }
  }

  // ----- The writer -----

  /** A code that overflows the word fills it up; the rest of the code stays for the next word. */
  lemma Overflow(pre: seq<bool>, c: nat, free: nat, code: nat, over: nat)
    requires free + over <= 31 && code < Pow2(free + over)
    ensures pre + ToBits(c, 32 - free) + ToBits(code, free + over)
         == pre + ToBits((Shl(c, free) + Shr(code, over)) % WORD, 32) + ToBits(code, over)
  {
    ShrBelow(code, free, over);
    ShiftIn(c, 32 - free, Shr(code, over), free);
    ShrBits(code, free, over);
    var a, b, d := ToBits(c, 32 - free), ToBits(Shr(code, over), free), ToBits(code, over);
    Assoc(pre + a, b, d);
    Assoc(pre, a, b);
  }

  lemma NoOverflow(pre: seq<bool>, c: nat, m: nat, code: nat, size: nat)
    requires m + size <= 32 && code < Pow2(size)
    ensures pre + ToBits(c, m) + ToBits(code, size) == pre + ToBits((Shl(c, size) + code) % WORD, m + size)
  {
    ShiftIn(c, m, code, size);
    Assoc(pre, ToBits(c, m), ToBits(code, size));
  }

  lemma {:induction false} JoinedFits(code: nat, size: nat, low: nat, nbits: nat)
    requires code < Pow2(size) && low < Pow2(nbits)
    ensures Shl(code, nbits) + low < Pow2(size + nbits)
  {
    if nbits != 0 {
      JoinedFits(code, size, low / 2, nbits - 1);
    }
  }

  lemma CodeFits(code: nat, size: nat)
    requires size <= 31 && code < Pow2(size)
    ensures code < WORD
  {
    Pow2Mono(size, 32);
    Pow2Consts();
  }

  /** Taking one whole byte off the waiting bits. */
  lemma NextByte(raw: seq<Byte>, c: nat, put: nat)
    ensures BytesToBits(raw + [Shr(c, put) % 256]) + ToBits(c, put) == BytesToBits(raw) + ToBits(c, 8 + put)
  {
    ShrBits(c, 8, put);
    ToBitsByte(Shr(c, put));
    BytesToBitsSnoc(raw, Shr(c, put) % 256);
    Assoc(BytesToBits(raw), ToBits(Shr(c, put), 8), ToBits(c, put));
  }

  lemma {:induction false} PaddedBits(c: nat, put: nat, k: nat)
    ensures ToBits(Shl(c, k) + (Pow2(k) - 1), put + k) == ToBits(c, put) + Ones(k)
  {
    ShlBits(c, put, Pow2(k) - 1, k);
    OnesBits(k);
  }

  /** The last partial byte is filled up with ones. */
  lemma LastByte(raw: seq<Byte>, c: nat, put: nat, k: nat)
    requires put + k == 8
    ensures BytesToBits(raw + [(Shl(c, k) + (Pow2(k) - 1)) % 256]) == BytesToBits(raw) + ToBits(c, put) + Ones(k)
  {
    var x := Shl(c, k) + (Pow2(k) - 1);
    PaddedBits(c, put, k);
    ToBitsByte(x);
    BytesToBitsSnoc(raw, x % 256);
    Assoc(BytesToBits(raw), ToBits(c, put), Ones(k));
  }

  lemma PadCount(free: nat, put: nat, n: nat)
    requires put < 8 && put + 8 * n == 32 - free
    ensures free % 8 == if put == 0 then 0 else 8 - put
  {
  }

  /** The low `n` bits of a signed value in two's complement. */
  function LowBits(v: int, n: nat): (b: nat)
    ensures b < Pow2(n)
  {
    v % Pow2(n)
  }

  /** What the receiver recovers from the output bytes. */
  function Received(out: seq<Byte>, noEscape: bool): (bs: seq<Byte>) {
    if noEscape then out else Unstuff(out)
  }

  /** `out` carries the bytes `raw`, stuffed unless escaping is off. */
  ghost predicate Carries(out: seq<Byte>, raw: seq<Byte>, noEscape: bool) {
    out == if noEscape then raw else Stuff(raw)
  }

  /** The receiver recovers exactly the bytes carried. */
  lemma ReceivedIsCarried(out: seq<Byte>, raw: seq<Byte>, noEscape: bool)
    requires Carries(out, raw, noEscape)
    ensures Received(out, noEscape) == raw
  {
    UnstuffStuff(raw);
  }

  class Writer {
    var c: nat
    var free: int
    var out: seq<Byte>
    ghost var raw: seq<Byte>
    const noEscape: bool

    ghost predicate Valid()
      reads this
    {
      c < WORD && 0 <= free <= 32 && Carries(out, raw, noEscape)
    }

    /** All bits put so far: those written out and those waiting in the word. */
    ghost function Stream(): (s: seq<bool>)
      requires Valid()
      reads this
    {
      BytesToBits(raw) + ToBits(c, 32 - free)
    }

    constructor (noEscape: bool)
      ensures Valid() && Stream() == [] && out == [] && this.noEscape == noEscape
    {
      this.noEscape := noEscape;
      c, free, out, raw := 0, 32, [], [];
    }

    method EmitByte(b: Byte)
      requires Carries(out, raw, noEscape)
      modifies this`out, this`raw
      ensures old(raw) <= raw
      ensures Carries(out, raw, noEscape) && raw == old(raw) + [b]
    {
      if noEscape {
        out := out + [b];
      } else {
        StuffSnoc(raw, b);
        if b == 255 {
          out := out + [b, 0];
        } else {
          out := out + [b];
        }
      }
      raw := raw + [b];
    }

    /** Writes the four bytes of a word; the fast path leaves out the stuffing check of each byte. */
    method FlushWord(w: nat)
      requires Carries(out, raw, noEscape) && w < WORD
      modifies this`out, this`raw
      ensures old(raw) <= raw
      ensures Carries(out, raw, noEscape)
      ensures BytesToBits(raw) == BytesToBits(old(raw)) + ToBits(w, 32)
    {
      FourBytes(raw, w);
      if !noEscape && MayHoldFF(w) {
        FlushSlow(w);
      } else {
        if !noEscape {
          FastPathSafe(w);
          PlainFour(raw, w);
        }
        out := out + WordAsBytes(w);
        raw := raw + WordAsBytes(w);
      }
    }

    method FlushSlow(w: nat)
      requires Carries(out, raw, noEscape)
      modifies this`out, this`raw
      ensures old(raw) <= raw
      ensures Carries(out, raw, noEscape) && raw == old(raw) + WordAsBytes(w)
    {
      hide Carries, ByteAt;
      EmitByte(ByteAt(w, 3));
      EmitByte(ByteAt(w, 2));
      EmitByte(ByteAt(w, 1));
      EmitByte(ByteAt(w, 0));
    }

    /** Fills up the word with the first bits of the code, writes it, and keeps the whole code as next word. */
    method PutAndFlush(code: nat, size: nat)
      requires Carries(out, raw, noEscape) && c < WORD && free < 0 <= size + free <= 32
      requires size <= 31 && code < Pow2(size)
      modifies this
      ensures old(raw) <= raw
      ensures Valid()
      ensures Stream() == BytesToBits(old(raw)) + ToBits(old(c), 32 - (size + old(free))) + ToBits(code, size)
    {
      hide ToBits, BytesToBits, Shl, Shr, Pow2, Stuff;
      ghost var fill, over := size + free, -free;
      assert fill + over == size;
      Overflow(BytesToBits(raw), c, fill, code, over);
      FlushWord((Shl(c, size + free) + Shr(code, -free)) % WORD);
      CodeFits(code, size);
      free := free + 32;
      c := code;
      assert 32 - free == over;
    }

    /** Shifts the code into the free bits of the word. */
    method Fill(code: nat, size: nat)
      requires 0 <= free && free + size <= 32 && code < Pow2(size)
      modifies this`c
      ensures c < WORD
      ensures BytesToBits(raw) + ToBits(c, 32 - free)
           == BytesToBits(raw) + ToBits(old(c), 32 - free - size) + ToBits(code, size)
    {
      hide ToBits, BytesToBits, Shl, Shr, Pow2, Stuff;
      NoOverflow(BytesToBits(raw), c, 32 - free - size, code, size);
      c := (Shl(c, size) + code) % WORD;
    }

    method PutBits(code: nat, size: nat)
      requires Valid() && size <= 31 && code < Pow2(size)
      modifies this
      ensures old(raw) <= raw
      ensures Valid() && Stream() == old(Stream()) + ToBits(code, size)
    {
      hide ToBits, BytesToBits, Shl, Shr, Pow2, Stuff;
      free := free - size;
      if free < 0 {
        PutAndFlush(code, size);
      } else {
        Fill(code, size);
      }
    }

    /** Puts a code word followed by the low `nbits` bits of a signed value. */
    method PutCode(code: nat, size: nat, temp: int, nbits: nat)
      requires Valid() && size + nbits <= 31 && code < Pow2(size)
      modifies this
      ensures old(raw) <= raw
      ensures Valid()
      ensures Stream() == old(Stream()) + ToBits(WithLowBits(code, temp, nbits), size + nbits)
    {
      hide ToBits, BytesToBits, Shl, Shr, Pow2, Stuff;
      JoinedBits(code, size, temp, nbits);
      PutBits(WithLowBits(code, temp, nbits), size + nbits);
    }

    /** The final flush: whole bytes, then a partial byte filled up with ones. */
    method FlushTail()
      requires Valid()
      modifies this`out, this`raw
      ensures old(raw) <= raw
      ensures Valid() && BytesToBits(raw) == old(Stream()) + Ones(free % 8)
    {
      hide ToBits, BytesToBits, Shl, Shr, Pow2, Stuff;
      var put, n := EmitWholeBytes(c, 32 - free);
      PadCount(free, put, n);
      if put > 0 {
        EmitPartial(c, put);
      }
    }

    method EmitPartial(buffer: nat, put: nat)
      requires Carries(out, raw, noEscape) && 0 < put < 8
      modifies this`out, this`raw
      ensures old(raw) <= raw
      ensures Carries(out, raw, noEscape)
      ensures BytesToBits(raw) == BytesToBits(old(raw)) + ToBits(buffer, put) + Ones(8 - put)
    {
      hide ToBits, BytesToBits, Shl, Shr, Pow2, Stuff;
      LastByte(raw, buffer, put, 8 - put);
      EmitByte((Shl(buffer, 8 - put) + (Pow2(8 - put) - 1)) % 256);
    }

    method EmitWholeBytes(buffer: nat, size: nat) returns (put: nat, ghost n: nat)
      requires Carries(out, raw, noEscape)
      modifies this`out, this`raw
      ensures old(raw) <= raw
      ensures Carries(out, raw, noEscape) && put < 8 && put + 8 * n == size
      ensures BytesToBits(raw) + ToBits(buffer, put) == BytesToBits(old(raw)) + ToBits(buffer, size)
    {
      hide ToBits, BytesToBits, Shl, Shr, Pow2, Stuff;
      put, n := size, 0;
      while put >= 8
        invariant Carries(out, raw, noEscape) && put + 8 * n == size && old(raw) <= raw
        invariant BytesToBits(raw) + ToBits(buffer, put) == BytesToBits(old(raw)) + ToBits(buffer, size)
      {
        put, n := put - 8, n + 1;
        NextByte(raw, buffer, put);
        EmitByte(Shr(buffer, put) % 256);
      }
    }
  }

  /** A code word with the low bits of a signed value appended. */
  function WithLowBits(code: nat, temp: int, nbits: nat): (v: nat) {
    Shl(code, nbits) + LowBits(temp, nbits)
  }

  lemma JoinedBits(code: nat, size: nat, temp: int, nbits: nat)
    requires code < Pow2(size)
    ensures WithLowBits(code, temp, nbits) < Pow2(size + nbits)
    ensures ToBits(WithLowBits(code, temp, nbits), size + nbits)
         == ToBits(code, size) + ToBits(LowBits(temp, nbits), nbits)
  {
    ShlBits(code, size, LowBits(temp, nbits), nbits);
    JoinedFits(code, size, LowBits(temp, nbits), nbits);
  }

  function WordAsBytes(w: nat): (bs: seq<Byte>) {
    [ByteAt(w, 3), ByteAt(w, 2), ByteAt(w, 1), ByteAt(w, 0)]
  }

  lemma PlainSnoc(raw: seq<Byte>, out: seq<Byte>, b: Byte)
    requires b != 255 && Stuff(raw) == out
    ensures Stuff(raw + [b]) == out + [b]
  {
    hide Stuff;
    StuffSnoc(raw, b);
  }

  lemma PlainFour(raw: seq<Byte>, w: nat)
    requires forall k :: 0 <= k < 4 ==> ByteAt(w, k) != 255
    ensures Stuff(raw + WordAsBytes(w)) == Stuff(raw) + WordAsBytes(w)
  {
    hide Stuff, ByteAt;
    var b3, b2, b1, b0 := ByteAt(w, 3), ByteAt(w, 2), ByteAt(w, 1), ByteAt(w, 0);
    var out := Stuff(raw);
    PlainSnoc(raw, out, b3);
    PlainSnoc(raw + [b3], out + [b3], b2);
    PlainSnoc(raw + [b3] + [b2], out + [b3] + [b2], b1);
    PlainSnoc(raw + [b3] + [b2] + [b1], out + [b3] + [b2] + [b1], b0);
    FourSnocs(raw, b3, b2, b1, b0);
    FourSnocs(out, b3, b2, b1, b0);
  }

  lemma FourSnocs(s: seq<Byte>, b3: Byte, b2: Byte, b1: Byte, b0: Byte)
    ensures s + [b3, b2, b1, b0] == s + [b3] + [b2] + [b1] + [b0]
  {
  }

  lemma FourBytes(raw: seq<Byte>, w: nat)
    requires w < WORD
    ensures BytesToBits(raw + WordAsBytes(w)) == BytesToBits(raw) + ToBits(w, 32)
  {
    var b3, b2, b1, b0 := ByteAt(w, 3), ByteAt(w, 2), ByteAt(w, 1), ByteAt(w, 0);
    assert raw + WordAsBytes(w) == raw + [b3] + [b2] + [b1] + [b0];
    TwoBytes(raw, b3, b2);
    TwoBytes(raw + [b3] + [b2], b1, b0);
    WordBits(w);
    var x, y, z := BytesToBits(raw), ToBits(b3, 8) + ToBits(b2, 8), ToBits(b1, 8) + ToBits(b0, 8);
    Assoc(y, ToBits(b1, 8), ToBits(b0, 8));
    Assoc(x, y, z);
  }

  lemma TwoBytes(raw: seq<Byte>, b1: Byte, b0: Byte)
    ensures BytesToBits(raw + [b1] + [b0]) == BytesToBits(raw) + (ToBits(b1, 8) + ToBits(b0, 8))
  {
    BytesToBitsSnoc(raw, b1);
    BytesToBitsSnoc(raw + [b1], b0);
    Assoc(BytesToBits(raw), ToBits(b1, 8), ToBits(b0, 8));
  }

  /** The bits of a list of (code, size) pairs, one after another. */
  function CodeBits(codes: seq<(nat, nat)>): (bits: seq<bool>) {
    if codes == [] then [] else CodeBits(codes[..|codes| - 1]) + ToBits(codes[|codes| - 1].0, codes[|codes| - 1].1)
  }

  /**
   Any sequence of puts followed by the final flush: unstuffing the output gives the codes one after
   another, padded with fewer than eight ones to a whole byte.
   */
  method WriteAll(codes: seq<(nat, nat)>, noEscape: bool) returns (out: seq<Byte>, pad: nat)
    requires forall i :: 0 <= i < |codes| ==> codes[i].1 <= 31 && codes[i].0 < Pow2(codes[i].1)
    ensures pad < 8 && BytesToBits(Received(out, noEscape)) == CodeBits(codes) + Ones(pad)
  {
    hide ToBits, BytesToBits, Stuff, Unstuff;
    var w := new Writer(noEscape);
    for i := 0 to |codes|
      invariant w.Valid() && w.noEscape == noEscape
      invariant w.Stream() == CodeBits(codes[..i])
    {
      w.PutBits(codes[i].0, codes[i].1);
      assert codes[..i + 1][..i] == codes[..i];
    }
    assert codes[..|codes|] == codes;
    pad := w.free % 8;
    w.FlushTail();
    ReceivedIsCarried(w.out, w.raw, noEscape);
    out := w.out;
  }
}
