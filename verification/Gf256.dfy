/**
 The field of 256 elements used by the FEC encoder, modulo the polynomial
 x^8 + x^6 + x^3 + x^2 + 1 (0x14d): bytes as eight bits, addition as exclusive or, multiplication by
 shifting and adding.
 */
module Gf256 {
  import Bits

  /** A byte, least significant bit first. */
  type Byte = b: seq<bool> | |b| == 8 witness [false, false, false, false, false, false, false, false]

  function Zero(): (r: Byte)
    ensures forall i :: 0 <= i < 8 ==> !r[i]
  {
    seq(8, i => false)
  }

  function One(): (r: Byte)
    ensures forall i :: 0 <= i < 8 ==> r[i] == (i == 0)
  {
    seq(8, i => i == 0)
  }

  function Add(a: Byte, b: Byte): (r: Byte)
    ensures forall i :: 0 <= i < 8 ==> r[i] == (a[i] != b[i])
  {
    seq(8, i requires 0 <= i < 8 => a[i] != b[i])
  }

  /** The polynomial without its highest bit. */
  function Poly(): (bits: Byte) {
    [true, false, true, true, false, false, true, false]
  }

  /** Doubling an element: a shift, and the polynomial taken off if a bit leaves the byte. */
  function Double(a: Byte): (r: Byte)
    ensures forall i :: 0 <= i < 8 ==> r[i] == ((i > 0 && a[i - 1]) != (Poly()[i] && a[7]))
  {
    seq(8, i requires 0 <= i < 8 => (i > 0 && a[i - 1]) != (Poly()[i] && a[7]))
  }

  function Part(take: bool, a: Byte): (r: Byte) {
    if take then a else Zero()
  }

  /** The sum of the doublings of `a` selected by the bits. */
  function MulBits(a: Byte, bits: seq<bool>): (r: Byte)
    decreases |bits|
  {
    if bits == [] then Zero() else Add(Part(bits[0], a), MulBits(Double(a), bits[1..]))
  }

  function Mul(a: Byte, b: Byte): (r: Byte) {
    MulBits(a, b)
  }

  // ----- Addition -----

  lemma Same(a: Byte, b: Byte)
    requires forall i :: 0 <= i < 8 ==> a[i] == b[i]
    ensures a == b
  {
  }

  lemma AddAssoc(a: Byte, b: Byte, c: Byte)
    ensures Add(a, Add(b, c)) == Add(Add(a, b), c)
  {
    Same(Add(a, Add(b, c)), Add(Add(a, b), c));
  }

  lemma AddCommutes(a: Byte, b: Byte)
    ensures Add(a, b) == Add(b, a)
  {
    Same(Add(a, b), Add(b, a));
  }

  lemma AddUnits(a: Byte)
    ensures Add(a, Zero()) == a && Add(Zero(), a) == a && Add(a, a) == Zero()
  {
    Same(Add(a, Zero()), a);
    Same(Add(Zero(), a), a);
    Same(Add(a, a), Zero());
  }

  /** Regrouping a sum of four. */
  lemma AddFour(a: Byte, b: Byte, c: Byte, d: Byte)
    ensures Add(Add(a, b), Add(c, d)) == Add(Add(a, c), Add(b, d))
  {
    Same(Add(Add(a, b), Add(c, d)), Add(Add(a, c), Add(b, d)));
  }

  lemma PartAdd(s: bool, t: bool, a: Byte, b: Byte)
    ensures Part(s, Add(a, b)) == Add(Part(s, a), Part(s, b))
    ensures Part(s != t, a) == Add(Part(s, a), Part(t, a))
  {
    AddUnits(Zero());
    AddUnits(a);
    hide Add, Zero;
  }

  lemma DoubleAdd(a: Byte, b: Byte)
    ensures Double(Add(a, b)) == Add(Double(a), Double(b))
  {
    hide Poly;
    Same(Double(Add(a, b)), Add(Double(a), Double(b)));
  }

  lemma DoubleZero()
    ensures Double(Zero()) == Zero()
  {
    hide Poly;
    Same(Double(Zero()), Zero());
  }

  lemma DoublePart(s: bool, a: Byte)
    ensures Part(s, Double(a)) == Double(Part(s, a))
  {
    DoubleZero();
    hide Double, Zero;
  }

  // ----- Multiplication is linear in both factors -----

  function XorBits(x: seq<bool>, y: seq<bool>): (z: seq<bool>)
    requires |x| == |y|
    ensures |z| == |x| && forall i :: 0 <= i < |x| ==> z[i] == (x[i] != y[i])
  {
    seq(|x|, i requires 0 <= i < |x| => x[i] != y[i])
  }

  lemma {:induction false} MulBitsAdd(a: Byte, x: seq<bool>, y: seq<bool>)
    requires |x| == |y|
    ensures MulBits(a, XorBits(x, y)) == Add(MulBits(a, x), MulBits(a, y))
    decreases |x|
  {
    hide Add, Part, Double, Zero;
    if x == [] {
      AddUnits(Zero());
    } else {
      assert XorBits(x, y)[1..] == XorBits(x[1..], y[1..]);
      MulBitsAdd(Double(a), x[1..], y[1..]);
      PartAdd(x[0], y[0], a, a);
      AddFour(Part(x[0], a), Part(y[0], a), MulBits(Double(a), x[1..]), MulBits(Double(a), y[1..]));
    }
  }

  lemma {:induction false} MulBitsAddLeft(a: Byte, b: Byte, bits: seq<bool>)
    ensures MulBits(Add(a, b), bits) == Add(MulBits(a, bits), MulBits(b, bits))
    decreases |bits|
  {
    hide Add, Part, Double, Zero;
    if bits == [] {
      AddUnits(Zero());
    } else {
      DoubleAdd(a, b);
      MulBitsAddLeft(Double(a), Double(b), bits[1..]);
      PartAdd(bits[0], bits[0], a, b);
      AddFour(Part(bits[0], a), Part(bits[0], b), MulBits(Double(a), bits[1..]), MulBits(Double(b), bits[1..]));
    }
  }

  /** Multiplication distributes over addition on both sides. */
  lemma MulAdd(a: Byte, b: Byte, c: Byte)
    ensures Mul(a, Add(b, c)) == Add(Mul(a, b), Mul(a, c))
    ensures Mul(Add(a, b), c) == Add(Mul(a, c), Mul(b, c))
  {
    hide MulBits;
    assert XorBits(b, c) == Add(b, c);
    MulBitsAdd(a, b, c);
    MulBitsAddLeft(a, b, c);
  }

  // ----- Multiplication is associative -----

  lemma {:induction false} MulBitsDouble(a: Byte, bits: seq<bool>)
    ensures MulBits(Double(a), bits) == Double(MulBits(a, bits))
    decreases |bits|
  {
    hide Add, Part, Double, Zero;
    DoublePart(false, a);
    if bits == [] {
      DoubleZero();
    } else {
      MulBitsDouble(Double(a), bits[1..]);
      DoublePart(bits[0], a);
      DoubleAdd(Part(bits[0], a), MulBits(Double(a), bits[1..]));
    }
  }

  /** `n` doublings. */
  function Doubled(a: Byte, n: nat): (r: Byte)
    decreases n
  {
    if n == 0 then a else Doubled(Double(a), n - 1)
  }

  lemma {:induction false} DoubledAdd(a: Byte, b: Byte, n: nat)
    ensures Doubled(Add(a, b), n) == Add(Doubled(a, n), Doubled(b, n))
    decreases n
  {
    hide Add, Double;
    if n != 0 {
      DoubleAdd(a, b);
      DoubledAdd(Double(a), Double(b), n - 1);
    }
  }

  lemma {:induction false} DoubledZero(n: nat)
    ensures Doubled(Zero(), n) == Zero()
  {
    hide Double, Zero;
    if n != 0 {
      DoubleZero();
      DoubledZero(n - 1);
    }
  }

  lemma {:induction false} DoubledDouble(a: Byte, n: nat)
    ensures Doubled(Double(a), n) == Double(Doubled(a, n))
    decreases n
  {
    hide Double;
    if n != 0 {
      DoubledDouble(Double(a), n - 1);
    }
  }

  lemma {:induction false} DoubledMulBits(a: Byte, bits: seq<bool>, n: nat)
    ensures Doubled(MulBits(a, bits), n) == MulBits(Doubled(a, n), bits)
    decreases |bits|
  {
    hide Double, Add, Part, Zero, Doubled;
    DoubledZero(n);
    if bits != [] {
      DoubledAdd(Part(bits[0], a), MulBits(Double(a), bits[1..]), n);
      DoubledMulBits(Double(a), bits[1..], n);
      DoubledDouble(a, n);
      assert Doubled(Part(bits[0], a), n) == Part(bits[0], Doubled(a, n)) by {
        DoubledPart(bits[0], a, n);
      }
    }
  }

  lemma DoubledPart(s: bool, a: Byte, n: nat)
    ensures Doubled(Part(s, a), n) == Part(s, Doubled(a, n))
  {
    hide Doubled;
    DoubledZero(n);
  }

  /** Multiplying by fixed bits passes through a multiplication. */
  lemma {:induction false} PolyMulBits(a: Byte, bits: seq<bool>, p: seq<bool>)
    ensures MulBits(MulBits(a, bits), p) == MulBits(MulBits(a, p), bits)
    decreases |bits|
  {
    hide Double, Add, Zero;
    MulBitsZero(p);
    if bits != [] {
      MulBitsAddLeft(Part(bits[0], a), MulBits(Double(a), bits[1..]), p);
      PolyMulBits(Double(a), bits[1..], p);
      MulBitsDouble(a, p);
    }
  }

  lemma {:induction false} MulBitsZero(bits: seq<bool>)
    ensures MulBits(Zero(), bits) == Zero()
    decreases |bits|
  {
    hide Add, Double, Zero;
    if bits != [] {
      DoubleZero();
      MulBitsZero(bits[1..]);
      AddUnits(Zero());
    }
  }

  lemma {:induction false} MulBitsAppend(a: Byte, x: seq<bool>, y: seq<bool>)
    ensures MulBits(a, x + y) == Add(MulBits(a, x), MulBits(Doubled(a, |x|), y))
    decreases |x|
  {
    hide Add, Double, Zero, Part;
    if x == [] {
      assert x + y == y;
      AddUnits(MulBits(a, y));
    } else {
      assert (x + y)[1..] == x[1..] + y;
      MulBitsAppend(Double(a), x[1..], y);
      AddAssoc(Part(x[0], a), MulBits(Double(a), x[1..]), MulBits(Doubled(a, |x|), y));
    }
  }

  /** The element with one bit. */
  function Unit(k: nat): (r: Byte)
    requires k < 8
    ensures forall i :: 0 <= i < 8 ==> r[i] == (i == k)
  {
    seq(8, i => i == k)
  }

  lemma DoubleUnit(k: nat)
    requires k < 8
    ensures Double(Unit(k)) == if k < 7 then Unit(k + 1) else Poly()
  {
    Same(Double(Unit(k)), if k < 7 then Unit(k + 1) else Poly());
  }

  lemma {:induction false} UnitTimes(k: nat, bits: seq<bool>)
    requires k < 8 && |bits| == 8 - k
    ensures forall i :: 0 <= i < 8 ==> MulBits(Unit(k), bits)[i] == (i >= k && bits[i - k])
    decreases |bits|
  {
    hide Double, Poly;
    DoubleUnit(k);
    if k < 7 {
      UnitTimes(k + 1, bits[1..]);
    }
  }

  lemma {:induction false} UnitDoubled(k: nat)
    requires k < 8
    ensures Doubled(Unit(k), 8 - k) == Poly()
    decreases 8 - k
  {
    hide Double, Poly;
    DoubleUnit(k);
    if k < 7 {
      UnitDoubled(k + 1);
    } else {
      assert Doubled(Unit(k), 1) == Doubled(Double(Unit(k)), 0);
    }
  }

  /** One is neutral and zero absorbs. */
  lemma MulUnits(b: Byte)
    ensures Mul(One(), b) == b && Mul(Zero(), b) == Zero()
  {
    UnitTimes(0, b);
    Same(One(), Unit(0));
    Same(Mul(One(), b), b);
    MulBitsZero(b);
  }

  /** Eight doublings are a multiplication by the low bits of the polynomial. */
  lemma EightDoublings(a: Byte)
    ensures Doubled(a, 8) == MulBits(a, Poly())
  {
    hide MulBits, Doubled, Poly;
    Same(One(), Unit(0));
    MulUnits(a);
    MulUnits(Poly());
    DoubledMulBits(One(), a, 8);
    UnitDoubled(0);
    PolyMulBits(One(), a, Poly());
  }

  lemma {:induction false} NoBits(a: Byte, n: nat)
    ensures MulBits(a, seq(n, i => false)) == Zero()
    decreases n
  {
    hide Double, Add;
    if n != 0 {
      assert seq(n, i => false)[1..] == seq(n - 1, i => false);
      NoBits(Double(a), n - 1);
      AddUnits(Zero());
    }
  }

  /** The product of a shifted factor: the shift, and the polynomial for the bit that left. */
  lemma ShiftedFactor(a: Byte, b: Byte)
    ensures MulBits(a, Double(b)) == Add(MulBits(Double(a), b[..7]), Part(b[7], MulBits(a, Poly())))
  {
    var low, high := b[..7], if b[7] then Poly() else Zero();
    ShiftSplit(b);
    MulBitsAdd(a, [false] + low, high);
    hide Double, Add, Poly, Zero;
    FalseFirst(a, low);
    MulNothing(a);
  }

  lemma DoubledFactor(a: Byte, b: Byte)
    ensures MulBits(Double(a), b) == Add(MulBits(Double(a), b[..7]), Part(b[7], Doubled(a, 8)))
  {
    var low := b[..7];
    hide Double, Add, Part;
    MulBitsAppend(Double(a), low, [b[7]]);
    assert low + [b[7]] == b;
    OneBit(Doubled(Double(a), 7), b[7]);
    assert Doubled(a, 8) == Doubled(Double(a), 7);
  }

  /** A doubled factor doubles the product. */
  lemma MulDouble(a: Byte, b: Byte)
    ensures Mul(a, Double(b)) == Double(Mul(a, b))
  {
    hide Double, Add, Poly, Zero, MulBits, Doubled;
    MulBitsDouble(a, b);
    ShiftedFactor(a, b);
    DoubledFactor(a, b);
    EightDoublings(a);
  }

  lemma ShiftSplit(b: Byte)
    ensures Double(b) == XorBits([false] + b[..7], if b[7] then Poly() else Zero())
  {
  }

  lemma MulNothing(a: Byte)
    ensures MulBits(a, Zero()) == Zero()
  {
    NoBits(a, 8);
    assert Zero() == seq(8, i => false);
  }

  lemma FalseFirst(a: Byte, bits: seq<bool>)
    ensures MulBits(a, [false] + bits) == MulBits(Double(a), bits)
  {
    assert ([false] + bits)[1..] == bits;
    AddUnits(MulBits(Double(a), bits));
  }

  lemma OneBit(a: Byte, bit: bool)
    ensures MulBits(a, [bit]) == Part(bit, a)
  {
    assert [bit][1..] == [];
    AddUnits(Part(bit, a));
  }

  lemma {:induction false} MulBitsAssoc(a: Byte, b: Byte, bits: seq<bool>)
    ensures MulBits(Mul(a, b), bits) == Mul(a, MulBits(b, bits))
    decreases |bits|
  {
    hide Double, Add, Zero, Mul;
    MulByNothing(a);
    if bits != [] {
      MulDouble(a, b);
      MulBitsAssoc(a, Double(b), bits[1..]);
      MulAdd(a, Part(bits[0], b), MulBits(Double(b), bits[1..]));
    }
  }

  lemma MulByNothing(a: Byte)
    ensures Mul(a, Zero()) == Zero()
  {
    MulNothing(a);
  }

  /** Multiplication is associative. */
  lemma MulAssoc(a: Byte, b: Byte, c: Byte)
    ensures Mul(Mul(a, b), c) == Mul(a, Mul(b, c))
  {
    MulBitsAssoc(a, b, c);
  }

  lemma PartMul(s: bool, a: Byte, b: Byte)
    ensures Mul(Part(s, a), b) == Part(s, Mul(a, b)) && Mul(a, Part(s, b)) == Part(s, Mul(a, b))
  {
    hide Mul;
    MulUnits(b);
    MulByNothing(a);
  }

  // ----- Bytes as numbers -----

  function Number(p: seq<bool>): (n: nat) {
    if p == [] then 0 else (if p[0] then 1 else 0) + 2 * Number(p[1..])
  }

  /** The low `k` bits of a number, least significant first. */
  function BitsOf(n: nat, k: nat): (p: seq<bool>)
    ensures |p| == k
    decreases k
  {
    if k == 0 then [] else [n % 2 == 1] + BitsOf(n / 2, k - 1)
  }

  /** A small number as an element. */
  function FromNat(n: nat): (b: Byte) {
    BitsOf(n, 8)
  }

  lemma {:induction false} BitsOfNumber(p: seq<bool>)
    ensures BitsOf(Number(p), |p|) == p
    decreases |p|
  {
    if p != [] {
      BitsOfNumber(p[1..]);
    }
  }

  lemma {:induction false} NumberOfBits(n: nat, k: nat)
    requires n < Bits.Pow2(k)
    ensures Number(BitsOf(n, k)) == n
    decreases k
  {
    if k != 0 {
      NumberOfBits(n / 2, k - 1);
    }
  }

  lemma {:induction false} NumberSmall(p: seq<bool>)
    ensures Number(p) < Bits.Pow2(|p|)
    decreases |p|
  {
    if p != [] {
      NumberSmall(p[1..]);
    }
  }

  lemma Pow2Of8()
    ensures Bits.Pow2(8) == 256
  {
    assert Bits.Pow2(4) == 16;
  }

  /** Bytes and numbers below 256 stand for each other. */
  lemma NumberOfByte(n: nat)
    requires n < 256
    ensures Number(FromNat(n)) == n
  {
    Pow2Of8();
    NumberOfBits(n, 8);
  }

  lemma ByteOfNumber(b: Byte)
    ensures Number(b) < 256 && FromNat(Number(b)) == b
  {
    Pow2Of8();
    NumberSmall(b);
    BitsOfNumber(b);
  }
}
