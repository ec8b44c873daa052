/**
 Every nonzero element has an inverse. Squaring is linear, and eight squarings are the identity; so the product
 of all squarings of an element is its own square, and only zero and one are.
 */
module FieldInverse {
  import opened Gf256

  lemma MulCommutes(a: Byte, b: Byte)
    ensures Mul(a, b) == Mul(b, a)
  {
    hide MulBits;
    MulUnits(a);
    MulUnits(b);
    PolyMulBits(One(), a, b);
  }

  function Square(a: Byte): (s: Byte) {
    Mul(a, a)
  }

  lemma SquareAdd(a: Byte, b: Byte)
    ensures Square(Add(a, b)) == Add(Square(a), Square(b))
  {
    hide Mul, Add;
    MulAdd(Add(a, b), a, b);
    MulAdd(a, b, a);
    MulAdd(a, b, b);
    MulCommutes(a, b);
    AddFour(Mul(a, a), Mul(b, a), Mul(a, b), Mul(b, b));
    AddCommutes(Mul(b, a), Mul(b, b));
    AddFour(Mul(a, a), Mul(b, a), Mul(b, b), Mul(a, b));
    AddUnits(Mul(a, b));
    AddUnits(Add(Mul(a, a), Mul(b, b)));
  }

  lemma SquareMul(a: Byte, b: Byte)
    ensures Square(Mul(a, b)) == Mul(Square(a), Square(b))
  {
    hide Mul;
    Swap(a, b, a, b);
  }

  lemma Swap(a: Byte, b: Byte, c: Byte, d: Byte)
    ensures Mul(Mul(a, b), Mul(c, d)) == Mul(Mul(a, c), Mul(b, d))
  {
    hide Mul;
    MulAssoc(a, b, Mul(c, d));
    MulAssoc(b, c, d);
    MulCommutes(b, c);
    MulAssoc(c, b, d);
    MulAssoc(a, c, Mul(b, d));
  }

  // ----- Squares of single bits -----

  /** The square of the element with bit `k`. */
  function UnitSquare(k: nat): (s: Byte)
    requires k < 8
  {
    if k < 4 then Unit(2 * k)
    else if k == 4 then [true, false, true, true, false, false, true, false]
    else if k == 5 then [true, false, false, true, true, true, true, false]
    else if k == 6 then [true, false, false, true, false, true, false, true]
    else [false, true, true, true, true, true, false, false]
  }

  lemma UnitSquareNext(k: nat)
    requires k < 7
    ensures Double(Double(UnitSquare(k))) == UnitSquare(k + 1)
  {
    Same(Double(Double(UnitSquare(k))), UnitSquare(k + 1));
  }

  lemma {:induction false} SquareOfUnit(k: nat)
    requires k < 8
    ensures Square(Unit(k)) == UnitSquare(k)
  {
    if k == 0 {
      Same(One(), Unit(0));
      MulUnits(Unit(0));
    } else {
      hide Mul, UnitSquare, Double;
      SquareOfUnit(k - 1);
      ShiftedUnit(k - 1);
      MulDouble(Double(Unit(k - 1)), Unit(k - 1));
      MulCommutes(Double(Unit(k - 1)), Unit(k - 1));
      MulDouble(Unit(k - 1), Unit(k - 1));
      UnitSquareNext(k - 1);
    }
  }

  lemma ShiftedUnit(k: nat)
    requires k < 7
    ensures Double(Unit(k)) == Unit(k + 1)
  {
    hide Poly;
    DoubleUnit(k);
  }

  // ----- Squaring, bit by bit -----

  /** The bits of `a` below `n`. */
  function Low(a: Byte, n: nat): (r: Byte)
    requires n <= 8
    ensures forall i :: 0 <= i < 8 ==> r[i] == (i < n && a[i])
  {
    seq(8, i requires 0 <= i < 8 => i < n && a[i])
  }

  lemma LowNext(a: Byte, n: nat)
    requires n < 8
    ensures Low(a, n + 1) == Add(Low(a, n), Part(a[n], Unit(n)))
  {
    Same(Low(a, n + 1), Add(Low(a, n), Part(a[n], Unit(n))));
  }

  lemma LowEnds(a: Byte)
    ensures Low(a, 0) == Zero() && Low(a, 8) == a
  {
    Same(Low(a, 0), Zero());
    Same(Low(a, 8), a);
  }

  /** The sum of the squares of the bits of `a` below `n`. */
  function SquareLow(a: Byte, n: nat): (s: Byte)
    requires n <= 8
  {
    if n == 0 then Zero() else Add(SquareLow(a, n - 1), Part(a[n - 1], UnitSquare(n - 1)))
  }

  lemma {:induction false} SquareOfLow(a: Byte, n: nat)
    requires n <= 8
    ensures Square(Low(a, n)) == SquareLow(a, n)
  {
    hide Mul, Add, Zero, UnitSquare;
    LowEnds(a);
    MulUnits(Zero());
    if n != 0 {
      SquareOfLow(a, n - 1);
      LowNext(a, n - 1);
      SquareAdd(Low(a, n - 1), Part(a[n - 1], Unit(n - 1)));
      PartMul(a[n - 1], Unit(n - 1), Unit(n - 1));
      SquareOfUnit(n - 1);
    }
  }

  predicate Odd(x: bool, y: bool, z: bool) {
    (x != y) != z
  }

  lemma SquareNext(a: Byte, n: nat, i: nat)
    requires n < 8 && i < 8
    ensures SquareLow(a, n + 1)[i] == (SquareLow(a, n)[i] != (a[n] && UnitSquare(n)[i]))
    ensures !SquareLow(a, 0)[i]
  {
    hide UnitSquare;
  }

  /** Which of the squares of single bits have bit `i`. */
  lemma UnitColumn(i: nat)
    requires i < 8
    ensures UnitSquare(0)[i] == (i == 0) && UnitSquare(1)[i] == (i == 2)
    ensures UnitSquare(2)[i] == (i == 4) && UnitSquare(3)[i] == (i == 6)
    ensures UnitSquare(4)[i] == (i == 0 || i == 2 || i == 3 || i == 6)
    ensures UnitSquare(5)[i] == (i == 0 || 3 <= i <= 6)
    ensures UnitSquare(6)[i] == (i == 0 || i == 3 || i == 5 || i == 7)
    ensures UnitSquare(7)[i] == (1 <= i <= 5)
  {
  }

  /** Bit `i` of a square: the sum of the bits that the squares of the bits of `a` have there. */
  lemma SquareBit(a: Byte, i: nat)
    requires i < 8
    ensures SquareLow(a, 8)[i]
         == Odd(Odd(a[0] && i == 0, a[1] && i == 2, a[2] && i == 4),
                Odd(a[3] && i == 6, a[4] && (i == 0 || i == 2 || i == 3 || i == 6), a[5] && (i == 0 || 3 <= i <= 6)),
                (a[6] && (i == 0 || i == 3 || i == 5 || i == 7)) != (a[7] && 1 <= i <= 5))
  {
    hide SquareLow, UnitSquare;
    UnitColumn(i);
    SquareNext(a, 0, i);
    SquareNext(a, 1, i);
    SquareNext(a, 2, i);
    SquareNext(a, 3, i);
    SquareNext(a, 4, i);
    SquareNext(a, 5, i);
    SquareNext(a, 6, i);
    SquareNext(a, 7, i);
  }

  /** The bits of a square. */
  lemma SquareBits(a: Byte)
    ensures var s := Square(a);
            && s[0] == (Odd(a[0], a[4], a[5]) != a[6]) && s[1] == a[7] && s[2] == Odd(a[1], a[4], a[7])
            && s[3] == (Odd(a[4], a[5], a[6]) != a[7]) && s[4] == Odd(a[2], a[5], a[7])
            && s[5] == Odd(a[5], a[6], a[7]) && s[6] == Odd(a[3], a[4], a[5]) && s[7] == a[6]
  {
    hide Square, SquareLow, UnitSquare;
    LowEnds(a);
    SquareOfLow(a, 8);
    SquareBit(a, 0);
    SquareBit(a, 1);
    SquareBit(a, 2);
    SquareBit(a, 3);
    SquareBit(a, 4);
    SquareBit(a, 5);
    SquareBit(a, 6);
    SquareBit(a, 7);
  }

  /** Only zero and one are their own squares. */
  lemma Idempotents(e: Byte)
    requires Square(e) == e
    ensures e == Zero() || e == One()
  {
    hide Square;
    SquareBits(e);
    if e[0] {
      Same(e, One());
    } else {
      Same(e, Zero());
    }
  }

  // ----- Eight squarings are the identity -----

  function Squared(a: Byte, n: nat): (s: Byte) {
    if n == 0 then a else Square(Squared(a, n - 1))
  }

  lemma {:induction false} SquaredAdd(a: Byte, b: Byte, n: nat)
    ensures Squared(Add(a, b), n) == Add(Squared(a, n), Squared(b, n))
  {
    hide Square, Add;
    if n != 0 {
      SquaredAdd(a, b, n - 1);
      SquareAdd(Squared(a, n - 1), Squared(b, n - 1));
    }
  }

  lemma {:induction false} SquaredMul(a: Byte, b: Byte, n: nat)
    ensures Squared(Mul(a, b), n) == Mul(Squared(a, n), Squared(b, n))
  {
    hide Square, Mul;
    if n != 0 {
      SquaredMul(a, b, n - 1);
      SquareMul(Squared(a, n - 1), Squared(b, n - 1));
    }
  }

  lemma {:induction false} SquaredUnits(n: nat)
    ensures Squared(Zero(), n) == Zero() && Squared(One(), n) == One()
  {
    MulUnits(Zero());
    MulUnits(One());
    hide Mul, Zero, One;
    if n != 0 {
      SquaredUnits(n - 1);
    }
  }

  /** The element with bit one, squared `n` times. */
  function TwoSquared(n: nat): (s: Byte)
    requires n <= 8
  {
    if n == 0 || n == 8 then Unit(1)
    else if n == 1 then Unit(2)
    else if n == 2 then Unit(4)
    else if n == 3 then [true, false, true, true, false, false, true, false]
    else if n == 4 then [false, false, false, true, true, true, true, true]
    else if n == 5 then [true, true, false, false, false, true, true, true]
    else if n == 6 then [true, true, false, true, false, true, true, true]
    else [true, true, false, true, false, true, false, true]
  }

  lemma TwoSquaredNext(n: nat)
    requires n < 8
    ensures Square(TwoSquared(n)) == TwoSquared(n + 1)
  {
    hide Square;
    SquareBits(TwoSquared(n));
    Same(Square(TwoSquared(n)), TwoSquared(n + 1));
  }

  lemma {:induction false} SquaredTwo(n: nat)
    requires n <= 8
    ensures Squared(Unit(1), n) == TwoSquared(n)
  {
    hide Square;
    if n != 0 {
      SquaredTwo(n - 1);
      TwoSquaredNext(n - 1);
    }
  }

  lemma {:induction false} SquaredUnit(k: nat)
    requires k < 8
    ensures Squared(Unit(k), 8) == Unit(k)
  {
    hide Squared, Mul, Double;
    if k == 0 {
      Same(One(), Unit(0));
      SquaredUnits(8);
    } else {
      SquaredUnit(k - 1);
      SquaredTwo(8);
      NextUnit(k - 1);
      SquaredMul(Unit(k - 1), Unit(1), 8);
    }
  }

  lemma NextUnit(k: nat)
    requires k < 7
    ensures Mul(Unit(k), Unit(1)) == Unit(k + 1)
  {
    hide Mul, Double;
    Same(One(), Unit(0));
    ShiftedUnit(0);
    ShiftedUnit(k);
    MulDouble(Unit(k), One());
    MulCommutes(Unit(k), One());
    MulUnits(Unit(k));
  }

  lemma {:induction false} SquaredLow(a: Byte, n: nat)
    requires n <= 8
    ensures Squared(Low(a, n), 8) == Low(a, n)
  {
    hide Squared, Add, Zero;
    LowEnds(a);
    SquaredUnits(8);
    if n != 0 {
      SquaredLow(a, n - 1);
      LowNext(a, n - 1);
      SquaredAdd(Low(a, n - 1), Part(a[n - 1], Unit(n - 1)), 8);
      SquaredUnit(n - 1);
    }
  }

  lemma EightSquarings(a: Byte)
    ensures Squared(a, 8) == a
  {
    hide Squared;
    LowEnds(a);
    SquaredLow(a, 8);
  }

  // ----- The inverse -----

  /** The product of the first `n` squarings of `a`. */
  function Conjugates(a: Byte, n: nat): (p: Byte) {
    if n == 0 then One() else Mul(Conjugates(a, n - 1), Squared(a, n))
  }

  lemma {:induction false} ConjugatesSquared(a: Byte, n: nat)
    ensures Mul(Square(a), Square(Conjugates(a, n))) == Conjugates(a, n + 1)
    ensures n > 0 ==> Mul(Square(a), Conjugates(a, n)) == Squared(a, n + 1)
  {
    hide Mul, One;
    assert Squared(a, 0) == a && Squared(a, 1) == Square(a);
    if n == 0 {
      MulUnits(One());
      MulUnits(Square(a));
      MulCommutes(Square(a), One());
    } else {
      var p, s := Conjugates(a, n - 1), Squared(a, n);
      ConjugatesSquared(a, n - 1);
      SquareMul(p, s);
      MulAssoc(Square(a), Square(p), Square(s));
      MulAssoc(Square(a), p, s);
      if n == 1 {
        MulUnits(s);
      }
    }
  }

  /** The inverse of a nonzero element. */
  function Inverse(a: Byte): (b: Byte) {
    Conjugates(a, 7)
  }

  /** Every nonzero element has an inverse. */
  lemma InverseIs(a: Byte)
    requires a != Zero()
    ensures Mul(a, Inverse(a)) == One()
  {
    hide Mul, Squared, Conjugates, Zero, One;
    var p := Inverse(a);
    var e := Mul(a, p);
    ConjugatesSquared(a, 7);
    EightSquarings(a);
    SquareMul(a, p);
    MulCommutes(Conjugates(a, 7), a);
    NextConjugate(a);
    Idempotents(e);
    MulAssoc(a, a, p);
    MulUnits(a);
    MulCommutes(a, Zero());
  }

  lemma NextConjugate(a: Byte)
    ensures Conjugates(a, 8) == Mul(Conjugates(a, 7), Squared(a, 8))
  {
    hide Mul, Squared;
  }

  /** A product is zero only if a factor is. */
  lemma NoZeroDivisors(a: Byte, b: Byte)
    ensures Mul(a, b) == Zero() <==> a == Zero() || b == Zero()
  {
    hide Mul, Zero, One, Inverse;
    MulUnits(b);
    MulUnits(a);
    MulCommutes(a, Zero());
    if a != Zero() && Mul(a, b) == Zero() {
      InverseIs(a);
      MulCommutes(a, Inverse(a));
      MulAssoc(Inverse(a), a, b);
      MulCommutes(Inverse(a), Zero());
      MulUnits(Inverse(a));
    }
  }
}
