/** Quantization by a reciprocal: one multiplication and one shift instead of a division. */
module Quantizer {
  import opened Bits

  const TWO16: nat := 65536
  const TWO32: nat := 0x1_0000_0000

  /** Truncation to a signed 16-bit value. */
  function Wrap16(x: int): (y: int)
    ensures -32768 <= y < 32768
  {
    var y := x % TWO16;
    if y < 32768 then y else y - TWO16
  }

  lemma WrapSmall(x: int)
    requires -32768 <= x < 32768
    ensures Wrap16(x) == x
  {
  }

  lemma Stored(v: nat)
    requires v < TWO16
    ensures ToU16(Wrap16(v)) == v && (v < 32768 ==> Wrap16(v) == v)
  {
  }

  /** A signed 16-bit value seen as an unsigned 32-bit one. */
  function ToU32(x: int): (y: nat) {
    x % TWO32
  }

  /** A signed 16-bit value seen as an unsigned 16-bit one. */
  function ToU16(x: int): (y: nat)
    ensures y < TWO16
  {
    x % TWO16
  }

  // ----- Shifts -----

  /** Arithmetic shift to the right. */
  function Asr(x: int, k: nat): (y: int)
    ensures x >= 0 ==> 0 <= y <= x
    decreases k
  {
    if k == 0 then x else Asr(x / 2, k - 1)
  }

  /** Shifting right is division by a power of two, rounded down. */
  lemma {:induction false} AsrIs(x: int, k: nat, q: int)
    requires q * Pow2(k) <= x < (q + 1) * Pow2(k)
    ensures Asr(x, k) == q
    decreases k
  {
    if k != 0 {
      MulDouble(q, Pow2(k - 1));
      MulDouble(q + 1, Pow2(k - 1));
      AsrIs(x / 2, k - 1, q);
    }
  }

  lemma {:induction false} AsrAdd(x: int, a: nat, b: nat)
    ensures Asr(x, a + b) == Asr(Asr(x, a), b)
    decreases a
  {
    if a != 0 {
      AsrAdd(x / 2, a - 1, b);
    }
  }

  // ----- The reciprocal -----

  /** The number of bits of a 16-bit value, by binary search. */
  function Flss(val: nat): (bit: nat)
    requires val < TWO16
    ensures val == 0 ==> bit == 0
    ensures val != 0 ==> 1 <= bit <= 16 && Pow2(bit - 1) <= val < Pow2(bit)
  {
    if val == 0 then 0
    else
      PowersTo16();
      var (bit, v) := if val < 0x100 then (8, val * 0x100) else (16, val);
      var (bit, v) := if v < 0x1000 then (bit - 4, v * 0x10) else (bit, v);
      var (bit, v) := if v < 0x4000 then (bit - 2, v * 4) else (bit, v);
      var bit := if v < 0x8000 then bit - 1 else bit;
      bit
  }

  lemma PowersTo16()
    ensures Pow2(0) == 1 && Pow2(1) == 2 && Pow2(2) == 4 && Pow2(3) == 8 && Pow2(4) == 16 && Pow2(5) == 32
    ensures Pow2(6) == 64 && Pow2(7) == 128 && Pow2(8) == 256 && Pow2(9) == 512 && Pow2(10) == 1024
    ensures Pow2(11) == 2048 && Pow2(12) == 4096 && Pow2(13) == 8192 && Pow2(14) == 16384 && Pow2(15) == 32768
    ensures Pow2(16) == 65536
  {
    assert Pow2(4) == 16;
    assert Pow2(8) == 256;
    assert Pow2(12) == 4096;
  }

  /** Stored as signed 16-bit numbers: reciprocal and correction; and a shift. */
  datatype Divisor = Divisor(recip: int, corr: int, shift: nat)

  /** The power of two `2^(15 + b)` divided by a divisor of `b` bits. */
  function ScaledQuotient(divisor: nat): (q: nat)
    requires 1 <= divisor < TWO16
  {
    hide Flss, Pow2;
    Pow2(16 + Flss(divisor) - 1) / divisor
  }

  function ScaledRemainder(divisor: nat): (r: nat)
    requires 1 <= divisor < TWO16
  {
    hide Flss, Pow2;
    Pow2(16 + Flss(divisor) - 1) % divisor
  }

  function ComputeReciprocal(divisor: nat): (p: Divisor)
    requires 1 <= divisor < TWO16
  {
    if divisor == 1 then Divisor(1, 0, 0)
    else
      var r := 16 + Flss(divisor) - 1;
      var fq := ScaledQuotient(divisor);
      var fr := ScaledRemainder(divisor);
      var c := divisor / 2;
      if fr == 0 then Divisor(Wrap16(fq / 2), Wrap16(c), r - 1)
      else if fr <= divisor / 2 then Divisor(Wrap16(fq), Wrap16(c + 1), r)
      else Divisor(Wrap16(fq + 1), Wrap16(c), r)
  }

  lemma CancelLe(a: int, b: int, d: nat)
    requires d > 0 && a * d <= b * d
    ensures a <= b
  {
    if b + 1 <= a {
      MulMono(b + 1, a, d);
    }
  }

  lemma CancelLt(a: int, b: int, d: nat)
    requires d > 0 && a * d < b * d
    ensures a < b
  {
    if b <= a {
      MulMono(b, a, d);
    }
  }

  /** A reciprocal that is slightly too small, with one added to the dividend. */
  lemma RoundedDown(y: nat, d: nat, q: nat, fq: nat, fr: nat, m: nat)
    requires d > 0 && m == fq * d + fr && q * d < y <= (q + 1) * d && 0 < fr && y * fr <= m
    ensures q * m <= y * fq < (q + 1) * m
  {
    assert y * m == y * fq * d + y * fr;
    RoundedDownLow(y, d, q, y * fq, y * fr, m);
    RoundedDownHigh(y, d, q, y * fq, y * fr, m);
  }

  lemma RoundedDownLow(y: nat, d: nat, q: nat, p: nat, e: nat, m: nat)
    requires d > 0 && y * m == p * d + e && q * d < y && e <= m
    ensures q * m <= p
  {
    MulMono(q * d + 1, y, m);
    assert (q * d + 1) * m == q * m * d + m;
    CancelLe(q * m, p, d);
  }

  lemma RoundedDownHigh(y: nat, d: nat, q: nat, p: nat, e: nat, m: nat)
    requires d > 0 && y * m == p * d + e && y <= (q + 1) * d && 0 < e
    ensures p < (q + 1) * m
  {
    MulMono(y, (q + 1) * d, m);
    assert (q + 1) * d * m == (q + 1) * m * d;
    CancelLt(p, (q + 1) * m, d);
  }

  lemma ScaledUp(y: nat, d: nat, fq: nat, e: int, m: nat)
    requires fq * d == m + e
    ensures y * fq * d == y * m + y * e
  {
    assert y * fq * d == y * (fq * d);
  }

  lemma Swapped(q: nat, m: nat, d: nat)
    ensures q * m * d == q * d * m
  {
  }

  /** A reciprocal that is slightly too large. */
  lemma RoundedUp(y: nat, d: nat, q: nat, fq: nat, e: nat, m: nat)
    requires d > 0 && fq * d == m + e && q * d <= y < (q + 1) * d && y * e < m
    ensures q * m <= y * fq < (q + 1) * m
  {
    ScaledUp(y, d, fq, e, m);
    RoundedUpLow(y, d, q, m, y * e, y * fq);
    RoundedUpHigh(y, d, q + 1, m, y * e, y * fq);
  }

  lemma RoundedUpLow(y: nat, d: nat, q: nat, m: nat, slack: nat, product: nat)
    requires d > 0 && product * d == y * m + slack && q * d <= y
    ensures q * m <= product
  {
    MulMono(q * d, y, m);
    Swapped(q, m, d);
    CancelLe(q * m, product, d);
  }

  lemma RoundedUpHigh(y: nat, d: nat, q: nat, m: nat, slack: nat, product: nat)
    requires d > 0 && product * d == y * m + slack && y < q * d && slack < m
    ensures product < q * m
  {
    MulMono(y + 1, q * d, m);
    Swapped(q, m, d);
    assert (y + 1) * m == y * m + m;
    CancelLt(product, q * m, d);
  }

  /** An odd factor of a power of two is one. */
  lemma {:induction false} OddFactor(f: nat, d: nat, r: nat)
    requires f * d == Pow2(r) && f % 2 == 1
    ensures f == 1
  {
    if r == 0 {
      FactorOfOne(f, d);
    } else {
      assert d % 2 == 0 by {
        if d % 2 == 1 {
          OddProduct(f, d);
        }
      }
      assert f * d == 2 * (f * (d / 2));
      OddFactor(f, d / 2, r - 1);
    }
  }

  lemma OddProduct(a: nat, b: nat)
    requires a % 2 == 1 && b % 2 == 1
    ensures (a * b) % 2 == 1
  {
    var x, y := a / 2, b / 2;
    assert a * b == 2 * (2 * x * y + x + y) + 1;
  }

  lemma FactorOfOne(f: nat, d: nat)
    requires f * d == 1
    ensures f == 1
  {
    if f >= 2 && d >= 1 {
      MulMono(2, f, d);
    }
  }

  /** `d` lies between two powers of two, so the scaled reciprocal has 16 bits. */
  lemma Scaled(d: nat) returns (p: nat)
    requires 2 <= d < TWO16
    ensures var fq, fr, r := ScaledQuotient(d), ScaledRemainder(d), 16 + Flss(d) - 1;
            && r > 0 && Pow2(r) == fq * d + fr == TWO16 * p && fr < d
            && p <= d < 2 * p && p <= 32768
            && (d == 65535 ==> fr > d / 2)
  {
    var b := Flss(d);
    p := Pow2(b - 1);
    PowersTo16();
    Pow2Add(16, b - 1);
    Pow2Mono(b - 1, 15);
    DivMod(Pow2(16 + b - 1), d);
  }

  lemma HalfQuotient(d: nat, fq: nat, r: nat)
    requires 0 < r && fq * d == Pow2(r) && fq > 1
    ensures fq % 2 == 0 && fq / 2 * d == Pow2(r - 1)
  {
    if fq % 2 == 1 {
      OddFactor(fq, d, r);
    }
    var h := fq / 2;
    assert fq == 2 * h;
    assert fq * d == 2 * (h * d);
  }

  lemma Quotient(x: nat, d: nat) returns (q: nat)
    requires d > 0
    ensures q == x / d && q * d <= x < (q + 1) * d
  {
    q := x / d;
    DivMod(x, d);
  }

  lemma QuotientBelow(d: nat, p: nat, fq: nat, fr: nat)
    requires p < d && p <= 32768 && TWO16 * p == fq * d + fr
    ensures fq < TWO16 - 1
  {
    if fq >= 65535 {
      MulMono(65535, fq, d);
    }
  }

  lemma NoRemainder(p: nat, fq: nat, fr: nat)
    requires TWO16 * p == fq * p + fr && fr < p
    ensures fr == 0 && fq == TWO16
  {
    MulDivExact(fq, p, fr);
    MulDivExact(TWO16, p, 0);
  }

  /** Bounds on the quotient and the remainder of the scaled power by the divisor. */
  lemma Parts(d: nat, p: nat, fq: nat, fr: nat)
    requires 2 <= d < TWO16 && p <= d < 2 * p && p <= 32768 && TWO16 * p == fq * d + fr && fr < d
    ensures fr != 0 ==> 2 <= fq < TWO16 - 1
    ensures fr == 0 ==> 2 <= fq <= TWO16
  {
    if d == p {
      NoRemainder(p, fq, fr);
    } else {
      QuotientBelow(d, p, fq, fr);
    }
    if fq < 2 {
      MulMono(fq, 1, d);
    }
  }

  lemma Product32(a: nat, b: nat)
    requires a < TWO16 && b < TWO16
    ensures a * b < TWO32
  {
    MulMono(a, TWO16 - 1, b);
  }

  /** The product of the reciprocal and the corrected magnitude fits in 32 bits and holds the rounded quotient. */
  ghost predicate Exact(x: nat, d: nat, p: Divisor)
    requires d > 0
  {
    && 0 <= p.corr && x + p.corr < TWO16
    && (x + p.corr) * ToU16(p.recip) < TWO32
    && Asr((x + p.corr) * ToU16(p.recip), p.shift) == (x + d / 2) / d
  }

  lemma ReciprocalIs(d: nat)
    requires 2 <= d < TWO16
    ensures var fq, fr, r := ScaledQuotient(d), ScaledRemainder(d), 16 + Flss(d) - 1;
            ComputeReciprocal(d) ==
              if fr == 0 then Divisor(Wrap16(fq / 2), Wrap16(d / 2), r - 1)
              else if fr <= d / 2 then Divisor(Wrap16(fq), Wrap16(d / 2 + 1), r)
              else Divisor(Wrap16(fq + 1), Wrap16(d / 2), r)
  {
    hide Wrap16, Flss, ScaledQuotient, ScaledRemainder;
  }

  /** Multiplying and shifting divides exactly, with rounding to the nearest. */
  lemma ReciprocalExact(x: nat, d: nat)
    requires 1 <= d < TWO16 && d != 65534 && x <= 32767
    ensures Exact(x, d, ComputeReciprocal(d))
  {
    if d == 1 {
      ByOne(x);
    } else {
      var p := Scaled(d);
      ReciprocalIs(d);
      hide Wrap16, Flss, Pow2, Exact, ScaledQuotient, ScaledRemainder, ComputeReciprocal;
      var fq, fr, r := ScaledQuotient(d), ScaledRemainder(d), 16 + Flss(d) - 1;
      Parts(d, p, fq, fr);
      if fr == 0 {
        PowerCase(x, d, fq, r);
      } else if fr <= d / 2 {
        SmallCase(x, d, fq, fr, r, p);
      } else {
        LargeCase(x, d, fq, fr, r, p);
      }
    }
  }

  lemma ByOne(x: nat)
    requires x <= 32767
    ensures Exact(x, 1, ComputeReciprocal(1))
  {
  }

  lemma PowerCase(x: nat, d: nat, fq: nat, r: nat)
    requires 2 <= d < TWO16 && x <= 32767 && 0 < r && fq * d == Pow2(r) && 1 < fq <= TWO16
    ensures Exact(x, d, Divisor(Wrap16(fq / 2), Wrap16(d / 2), r - 1))
  {
    HalfQuotient(d, fq, r);
    var h, y := fq / 2, x + d / 2;
    var q := Quotient(y, d);
    Stored(h);
    Stored(d / 2);
    hide Wrap16, ToU16, Pow2, Asr;
    RoundedUp(y, d, q, h, 0, Pow2(r - 1));
    AsrIs(y * h, r - 1, q);
    Product32(y, h);
  }

  lemma SmallCase(x: nat, d: nat, fq: nat, fr: nat, r: nat, p: nat)
    requires 2 <= d < 65534 && x <= 32767 && Pow2(r) == fq * d + fr == TWO16 * p
    requires 0 < fr <= d / 2 && d < 2 * p && fq < TWO16
    ensures Exact(x, d, Divisor(Wrap16(fq), Wrap16(d / 2 + 1), r))
  {
    var y := x + d / 2 + 1;
    var q := Quotient(x + d / 2, d);
    Stored(fq);
    Stored(d / 2 + 1);
    hide Wrap16, ToU16, Pow2, Asr;
    MulMono(y, TWO16, fr);
    MulMono(fr, p, TWO16);
    RoundedDown(y, d, q, fq, fr, Pow2(r));
    AsrIs(y * fq, r, q);
    Product32(y, fq);
  }

  lemma ErrorBelow(y: nat, e: nat, p: nat)
    requires y <= TWO16 - 1 && e <= p && 0 < p
    ensures y * e < TWO16 * p
  {
    MulMono(y, TWO16 - 1, e);
    MulMono(e, p, TWO16 - 1);
  }

  lemma NextMultiple(fq: nat, d: nat, fr: nat)
    requires fr < d
    ensures (fq + 1) * d == fq * d + fr + (d - fr)
  {
  }

  lemma LargeCase(x: nat, d: nat, fq: nat, fr: nat, r: nat, p: nat)
    requires 2 <= d < TWO16 && x <= 32767 && Pow2(r) == fq * d + fr == TWO16 * p
    requires d / 2 < fr < d && d < 2 * p && fq < TWO16 - 1
    ensures Exact(x, d, Divisor(Wrap16(fq + 1), Wrap16(d / 2), r))
  {
    var y, e := x + d / 2, d - fr;
    var q := Quotient(y, d);
    Stored(fq + 1);
    Stored(d / 2);
    hide Wrap16, ToU16, Pow2, Asr;
    NextMultiple(fq, d, fr);
    ErrorBelow(y, e, p);
    RoundedUp(y, d, q, fq + 1, e, Pow2(r));
    AsrIs(y * (fq + 1), r, q);
    Product32(y, fq + 1);
  }

  // ----- Quantizing one coefficient -----

  /** Exclusive or of a value and a sign mask. */
  function XorSign(v: int, sign: int): (r: int) {
    if sign == -1 then -v - 1 else v
  }

  function SignMask(x: int): (sign: int) {
    if x < 0 then -1 else 0
  }

  /** The magnitude, as the machine computes it. */
  function Magnitude(x: int): (a: int) {
    XorSign(Wrap16(x + SignMask(x)), SignMask(x))
  }

  /** The 32-bit product. */
  function Product(a: int, p: Divisor): (r: nat)
    ensures r < TWO32
  {
    ((ToU32(a) + ToU32(p.corr)) % TWO32 * ToU16(p.recip)) % TWO32
  }

  function RestoreSign(v: nat, sign: int): (q: int) {
    Wrap16(XorSign(Wrap16(v), sign) - sign)
  }

  /** The quantizer, in the arithmetic of the machine; `l` is added to the shift, which must stay below the width. */
  function Quantize(x: int, p: Divisor, l: nat): (q: int)
    requires p.shift + l < 32
  {
    RestoreSign(Asr(Product(Magnitude(x), p), p.shift + l), SignMask(x))
  }

  /** Division by a power of two that drops the fraction. */
  function Truncate(x: int, l: nat): (q: int) {
    if x < 0 then -Asr(-x, l) else Asr(x, l)
  }

  function Abs(x: int): (a: nat) {
    if x < 0 then -x else x
  }

  /** The quotient rounded to the nearest, with the sign of the dividend. */
  function Rounded(x: int, d: nat): (q: int)
    requires d > 0
  {
    if x < 0 then -((-x + d / 2) / d) else (x + d / 2) / d
  }

  lemma RoundedBound(x: nat, d: nat) returns (q: nat)
    requires d > 0 && x <= 32767
    ensures q == (x + d / 2) / d && q <= 32767
  {
    q := Quotient(x + d / 2, d);
    if q >= 32768 {
      MulMono(32768, q, d);
    }
  }

  /**
   Multiply-and-shift quantization is exact: it rounds to the nearest and restores the sign, and a shift
   of `l` more bits truncates that quotient toward zero.
   */
  lemma QuantizeExact(x: int, d: nat, l: nat)
    requires 1 <= d < TWO16 && d != 65534 && -32767 <= x <= 32767 && ComputeReciprocal(d).shift + l < 32
    ensures Quantize(x, ComputeReciprocal(d), l) == Truncate(Rounded(x, d), l)
  {
    hide ComputeReciprocal, Pow2, ToU16, RestoreSign, Product, Magnitude, Asr, Rounded, SignMask;
    var a, p := Abs(x), ComputeReciprocal(d);
    ReciprocalExact(a, d);
    MagnitudeIs(x);
    ProductIs(a, p);
    AsrAdd((a + p.corr) * ToU16(p.recip), p.shift, l);
    var q := RoundedBound(a, d);
    RestoreIs(Asr(q, l), x);
    SignedQuotient(x, d);
  }

  lemma MagnitudeIs(x: int)
    requires -32767 <= x <= 32767
    ensures Magnitude(x) == Abs(x)
  {
  }

  lemma ProductIs(a: nat, p: Divisor)
    requires 0 <= p.corr && a + p.corr < TWO16 && (a + p.corr) * ToU16(p.recip) < TWO32
    ensures Product(a, p) == (a + p.corr) * ToU16(p.recip)
  {
    assert (ToU32(a) + ToU32(p.corr)) % TWO32 == a + p.corr;
  }

  lemma RestoreIs(v: nat, x: int)
    requires v <= 32767
    ensures RestoreSign(v, SignMask(x)) == if x < 0 then 0 - v else v
  {
  }

  lemma SignedQuotient(x: int, d: nat)
    requires d > 0
    ensures Rounded(x, d) == if x < 0 then -((Abs(x) + d / 2) / d) else (Abs(x) + d / 2) / d
    ensures (Abs(x) + d / 2) / d >= 0
  {
    var q := Quotient(Abs(x) + d / 2, d);
  }

  lemma WorstDivisor()
    ensures ComputeReciprocal(65534) == Divisor(Wrap16(32769), -32768, 31)
  {
    PowersTo16();
    Pow2Add(16, 15);
    assert Flss(65534) == 16;
    assert ScaledQuotient(65534) == 32769 && ScaledRemainder(65534) == 2;
    hide Flss, ScaledQuotient, ScaledRemainder, Pow2;
  }

  /** The one divisor for which the stored correction overflows. */
  lemma QuantizeInexact()
    ensures ComputeReciprocal(65534) == Divisor(Wrap16(32769), -32768, 31)
    ensures ComputeReciprocal(65534).shift < 32
    ensures Quantize(0, ComputeReciprocal(65534), 0) == 1 && Rounded(0, 65534) == 0
  {
    hide ComputeReciprocal, Magnitude, SignMask, RestoreSign, Product, Asr, Wrap16;
    WorstDivisor();
    WorstProduct();
    Shifted31();
    ZeroSigns();
  }

  lemma ZeroSigns()
    ensures Magnitude(0) == 0 && SignMask(0) == 0 && RestoreSign(1, 0) == 1
  {
  }

  lemma WorstProduct()
    ensures Product(0, Divisor(Wrap16(32769), -32768, 31)) == 3221192704
  {
    hide Wrap16, ToU16;
    Stored(32769);
    assert ToU32(0) == 0 && ToU32(-32768) == TWO32 - 32768;
  }

  lemma Shifted31()
    ensures Asr(3221192704, 31) == 1
  {
    PowersTo16();
    Pow2Add(16, 15);
    AsrIs(3221192704, 31, 1);
  }

  /** The shift of a reciprocal is 15 more than the number of bits of the divisor at most. */
  lemma ShiftBelowWidth(d: nat)
    requires 1 <= d < TWO16
    ensures ComputeReciprocal(d).shift <= 15 + Flss(d) < 32
  {
    hide Flss, ScaledQuotient, ScaledRemainder, Wrap16;
  }

  /** The quantizer rounds correctly for all magnitudes if and only if the divisor is not 65534. */
  lemma ExactIff(d: nat)
    requires 1 <= d < TWO16
    ensures ComputeReciprocal(d).shift < 32
    ensures d != 65534 <==>
            (forall x :: -32767 <= x <= 32767 ==> Quantize(x, ComputeReciprocal(d), 0) == Rounded(x, d))
  {
    ShiftBelowWidth(d);
    hide ComputeReciprocal;
    if d != 65534 {
      forall x | -32767 <= x <= 32767 ensures Quantize(x, ComputeReciprocal(d), 0) == Rounded(x, d) {
        QuantizeExact(x, d, 0);
      }
    } else {
      QuantizeInexact();
    }
  }

  // ----- The divisors in use -----

  /** Scales a quantization value; `scale` is an entry of the table of scale factors. */
  function Descale(quantVal: nat, scale: nat): (d: nat) {
    (quantVal * scale + 1024) / 2048 % TWO16
  }

  /** No divisor in use exceeds 3925; with the finest quantization values none exceeds 15. */
  lemma DivisorsInUse(quantVal: nat, scale: nat)
    requires 1 <= quantVal <= 255 && 1247 <= scale <= 31521
    ensures 1 <= Descale(quantVal, scale) <= 3925
    ensures quantVal == 1 ==> Descale(quantVal, scale) <= 15
  {
    MulMono(1, quantVal, scale);
    MulMono(quantVal, 255, scale);
  }

  /** Small divisors leave room for a further shift of up to 12 bits. */
  lemma SmallDivisorShift(d: nat)
    requires 1 <= d <= 15
    ensures ComputeReciprocal(d).shift <= 19
  {
    ShiftBelowWidth(d);
    PowersTo16();
    if Flss(d) > 4 {
      Pow2Mono(4, Flss(d) - 1);
    }
  }
}
