/** Multiplication in the field of 256 elements is the carry-less product modulo 0x14d. */
module CarryLess {
  import opened Gf256

  // ----- Carry-less products -----

  /** Bit `k` of a number, least significant first; there is nothing outside its length. */
  function BitOf(p: seq<bool>, k: int): (b: bool) {
    0 <= k < |p| && p[k]
  }

  /** Bit `k` of the carry-less product: the parity of the pairs of bits whose positions add up to `k`. */
  function ProductBit(p: seq<bool>, q: seq<bool>, k: int): (b: bool)
    decreases |q|
  {
    if q == [] then false else (q[0] && BitOf(p, k)) != ProductBit(p, q[1..], k - 1)
  }

  /** The number 0x14d, that is x^8 + x^6 + x^3 + x^2 + 1. */
  const MODULUS: seq<bool> := [true, false, true, true, false, false, true, false, true]

  lemma ModulusIs()
    ensures Number(MODULUS) == 0x14d
  {
    hide Number;
    NextBit(8);
    NextBit(7);
    NextBit(6);
    NextBit(5);
    NextBit(4);
    NextBit(3);
    NextBit(2);
    NextBit(1);
    NextBit(0);
    assert MODULUS[0..] == MODULUS;
  }

  lemma NextBit(k: nat)
    requires k < 9
    ensures Number(MODULUS[k..]) == (if MODULUS[k] then 1 else 0) + 2 * Number(MODULUS[k + 1..])
    ensures Number(MODULUS[9..]) == 0
  {
    assert MODULUS[k..][1..] == MODULUS[k + 1..];
  }

  /** `r` is the remainder of the carry-less product of `a` and `b`, with quotient `q`. */
  ghost predicate Leaves(a: seq<bool>, b: seq<bool>, q: seq<bool>, r: Byte) {
    forall k: int :: ProductBit(a, b, k) == (ProductBit(MODULUS, q, k) != BitOf(r, k))
  }

  // ----- Products are linear -----

  lemma {:induction false} ProductSum(p: seq<bool>, p1: seq<bool>, p2: seq<bool>, s: bool, q: seq<bool>, k: int)
    requires forall i: int :: BitOf(p, i) == (BitOf(p1, i) != (s && BitOf(p2, i)))
    ensures ProductBit(p, q, k) == (ProductBit(p1, q, k) != (s && ProductBit(p2, q, k)))
    decreases |q|
  {
    hide BitOf;
    if q != [] {
      ProductSum(p, p1, p2, s, q[1..], k - 1);
      assert BitOf(p, k) == (BitOf(p1, k) != (s && BitOf(p2, k)));
    }
  }

  lemma {:induction false} ProductXor(p: seq<bool>, x: seq<bool>, y: seq<bool>, k: int)
    requires |x| == |y|
    ensures ProductBit(p, XorBits(x, y), k) == (ProductBit(p, x, k) != ProductBit(p, y, k))
    decreases |x|
  {
    hide BitOf;
    if x != [] {
      assert XorBits(x, y)[1..] == XorBits(x[1..], y[1..]);
      ProductXor(p, x[1..], y[1..], k - 1);
    }
  }

  /** A shift of the first factor shifts the product. */
  lemma {:induction false} ProductShift(p: seq<bool>, q: seq<bool>, k: int)
    ensures ProductBit([false] + p, q, k) == ProductBit(p, q, k - 1)
    decreases |q|
  {
    if q != [] {
      ProductShift(p, q[1..], k - 1);
      ShiftedBit(p, k);
      hide BitOf;
    }
  }

  lemma ShiftedBit(p: seq<bool>, k: int)
    ensures BitOf([false] + p, k) == BitOf(p, k - 1)
  {
  }

  lemma {:induction false} ProductPadded(p: seq<bool>, q: seq<bool>, k: int)
    ensures ProductBit(p, q + [false], k) == ProductBit(p, q, k)
    decreases |q|
  {
    hide BitOf;
    if q == [] {
      assert ([] + [false])[1..] == [];
    } else {
      assert (q + [false])[1..] == q[1..] + [false];
      ProductPadded(p, q[1..], k - 1);
    }
  }

  lemma {:induction false} ProductNothing(p: seq<bool>, n: nat, k: int)
    ensures ProductBit(p, seq(n, _ => false), k) == false
    decreases n
  {
    hide BitOf;
    if n != 0 {
      assert seq(n, _ => false)[1..] == seq(n - 1, _ => false);
      ProductNothing(p, n - 1, k - 1);
    }
  }

  // ----- Multiplication leaves the remainder -----

  /** Doubling is a shift, less the modulus if a bit leaves the byte. */
  lemma DoubleLeaves(a: Byte, k: int)
    ensures BitOf([false] + a, k) == (BitOf(Double(a), k) != (a[7] && BitOf(MODULUS, k)))
  {
    if 0 < k < 8 {
      assert Double(a)[k] == (a[k - 1] != (Poly()[k] && a[7]));
    } else if k == 0 {
      assert Double(a)[0] == (Poly()[0] && a[7]);
    }
  }

  function Taken(take: bool, x: seq<bool>): (y: seq<bool>)
    ensures |y| == |x|
  {
    if take then x else seq(|x|, _ => false)
  }

  lemma TakenProduct(take: bool, x: seq<bool>, k: int)
    ensures ProductBit(MODULUS, Taken(take, x), k) == (take && ProductBit(MODULUS, x, k))
  {
    ProductNothing(MODULUS, |x|, k);
  }

  /** The quotient that the shift-and-add multiplication takes off on its way. */
  ghost function Quotient(a: Byte, bits: seq<bool>): (q: seq<bool>)
    ensures |q| == |bits|
    decreases |bits|
  {
    if bits == [] then []
    else XorBits(Quotient(Double(a), bits[1..]), Taken(a[7], bits[1..])) + [false]
  }

  lemma QuotientBit(a: Byte, bits: seq<bool>, k: int)
    requires bits != []
    ensures ProductBit(MODULUS, Quotient(a, bits), k)
         == (ProductBit(MODULUS, Quotient(Double(a), bits[1..]), k) != (a[7] && ProductBit(MODULUS, bits[1..], k)))
  {
    hide ProductBit, Double;
    var q, t := Quotient(Double(a), bits[1..]), Taken(a[7], bits[1..]);
    ProductPadded(MODULUS, XorBits(q, t), k);
    ProductXor(MODULUS, q, t, k);
    TakenProduct(a[7], bits[1..], k);
  }

  lemma {:induction false} MulBitsLeaves(a: Byte, bits: seq<bool>, k: int)
    ensures ProductBit(a, bits, k) == (ProductBit(MODULUS, Quotient(a, bits), k) != BitOf(MulBits(a, bits), k))
    decreases |bits|
  {
    hide Double, Add, Zero, BitOf, Quotient;
    if bits == [] {
      NoBit(k);
      NoQuotient(a, k);
    } else {
      var rest := bits[1..];
      MulBitsLeaves(Double(a), rest, k);
      QuotientBit(a, bits, k);
      ProductShift(a, rest, k);
      forall i: int ensures BitOf([false] + a, i) == (BitOf(Double(a), i) != (a[7] && BitOf(MODULUS, i))) {
        DoubleLeaves(a, i);
      }
      ProductSum([false] + a, Double(a), MODULUS, a[7], rest, k);
      AddBit(Part(bits[0], a), MulBits(Double(a), rest), k);
      PartBit(bits[0], a, k);
    }
  }

  lemma NoBit(k: int)
    ensures !BitOf(Zero(), k)
  {
  }

  lemma NoQuotient(a: Byte, k: int)
    ensures !ProductBit(MODULUS, Quotient(a, []), k)
  {
  }

  lemma AddBit(a: Byte, b: Byte, k: int)
    ensures BitOf(Add(a, b), k) == (BitOf(a, k) != BitOf(b, k))
  {
  }

  lemma PartBit(take: bool, a: Byte, k: int)
    ensures BitOf(Part(take, a), k) == (take && BitOf(a, k))
  {
    hide Zero;
    NoBit(k);
  }

  /** A product of the modulus has a bit above the byte unless the other factor is nothing. */
  lemma {:induction false} TopBit(q: seq<bool>, d: nat)
    requires d < |q| && q[d] && forall i :: d < i < |q| ==> !q[i]
    ensures ProductBit(MODULUS, q, d + 8)
    decreases |q|
  {
    if d == 0 {
      NothingAbove(q[1..], 7);
    } else {
      TopBit(q[1..], d - 1);
    }
  }

  lemma {:induction false} NothingAbove(q: seq<bool>, k: int)
    requires forall i :: 0 <= i < |q| ==> !q[i]
    ensures !ProductBit(MODULUS, q, k)
    decreases |q|
  {
    hide BitOf;
    if q != [] {
      NothingAbove(q[1..], k - 1);
    }
  }

  /** There is only one remainder. */
  lemma OneRemainder(a: seq<bool>, b: seq<bool>, q: seq<bool>, r: Byte, q': seq<bool>, r': Byte)
    requires |q| == |q'| && Leaves(a, b, q, r) && Leaves(a, b, q', r')
    ensures r == r'
  {
    var d := XorBits(q, q');
    forall k: int ensures ProductBit(MODULUS, d, k) == (BitOf(r, k) != BitOf(r', k)) {
      ProductXor(MODULUS, q, q', k);
      assert ProductBit(a, b, k) == (ProductBit(MODULUS, q, k) != BitOf(r, k));
      assert ProductBit(a, b, k) == (ProductBit(MODULUS, q', k) != BitOf(r', k));
    }
    NothingTaken(d, r, r');
    forall k | 0 <= k < 8 ensures r[k] == r'[k] {
      NothingAbove(d, k);
      assert BitOf(r, k) == r[k] && BitOf(r', k) == r'[k];
    }
  }

  lemma NothingTaken(d: seq<bool>, r: Byte, r': Byte)
    requires forall k: int :: ProductBit(MODULUS, d, k) == (BitOf(r, k) != BitOf(r', k))
    ensures forall i :: 0 <= i < |d| ==> !d[i]
  {
    if i :| 0 <= i < |d| && d[i] {
      var top := HighestBit(d, |d|, i);
      TopBit(d, top);
      assert false;
    }
  }

  lemma {:induction false} HighestBit(d: seq<bool>, n: nat, i: nat) returns (top: nat)
    requires i < n <= |d| && d[i] && forall j :: n <= j < |d| ==> !d[j]
    ensures top < |d| && d[top] && forall j :: top < j < |d| ==> !d[j]
  {
    if d[n - 1] {
      top := n - 1;
    } else {
      top := HighestBit(d, n - 1, i);
    }
  }

  /** Multiplication gives the remainder of the carry-less product modulo 0x14d, and nothing else is one. */
  lemma MulIsRemainder(a: Byte, b: Byte, r: Byte)
    ensures r == Mul(a, b) <==> exists q: seq<bool> :: |q| == 8 && Leaves(a, b, q, r)
  {
    hide ProductBit, BitOf, MulBits;
    var q := Quotient(a, b);
    forall k: int ensures ProductBit(a, b, k) == (ProductBit(MODULUS, q, k) != BitOf(Mul(a, b), k)) {
      MulBitsLeaves(a, b, k);
    }
    assert Leaves(a, b, q, Mul(a, b));
    if q': seq<bool> :| |q'| == 8 && Leaves(a, b, q', r) {
      OneRemainder(a, b, q', r, q, Mul(a, b));
    }
  }
}
