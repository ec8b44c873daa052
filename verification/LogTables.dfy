/**
 The tables of the field: powers of x and their logarithms, and the products and quotients looked up through
 them. Each nonzero element is a power of x, because x has order 255.
 */
module LogTables {
  import opened Gf256
  import opened FieldInverse

  const ORDER: nat := 255

  /** The power `n` of x. */
  function TwoTo(n: nat): (p: Byte) {
    if n == 0 then One() else Double(TwoTo(n - 1))
  }

  lemma {:induction false} TwoToAdd(m: nat, n: nat)
    ensures TwoTo(m + n) == Mul(TwoTo(m), TwoTo(n))
    decreases n
  {
    hide Double, Mul, One;
    if n == 0 {
      MulByOne(TwoTo(m));
      assert TwoTo(0) == One();
    } else {
      TwoToAdd(m, n - 1);
      MulDouble(TwoTo(m), TwoTo(n - 1));
    }
  }

  lemma MulByOne(a: Byte)
    ensures Mul(a, One()) == a
  {
    hide Mul, One;
    MulCommutes(a, One());
    MulUnits(a);
  }

  lemma TwoToDouble(n: nat)
    ensures TwoTo(2 * n) == Square(TwoTo(n))
  {
    hide TwoTo, Mul;
    TwoToAdd(n, n);
  }

  // ----- x has order 255 -----

  lemma DoubleInjective(a: Byte, b: Byte)
    requires Double(a) == Double(b)
    ensures a == b
  {
    forall i | 0 <= i < 8 ensures a[i] == b[i] {
      assert Double(a)[0] == Double(b)[0];
      assert i < 7 ==> Double(a)[i + 1] == Double(b)[i + 1];
    }
    Same(a, b);
  }

  lemma TwoToBit(k: nat)
    requires k < 8
    ensures TwoTo(k) == Unit(k)
  {
    hide Double, Poly;
    if k == 0 {
      Same(One(), Unit(0));
    } else {
      TwoToBit(k - 1);
      ShiftedUnit(k - 1);
    }
  }

  /** Squaring takes the square roots of the elements from one to the next. */
  lemma {:induction false} TwoToSquared(n: nat)
    requires n <= 8
    ensures TwoTo(Bits.Pow2(n)) == TwoSquared(n)
  {
    hide TwoTo, Double, Square, TwoSquared;
    if n == 0 {
      TwoToBit(1);
      TwoSquaredEnds();
    } else {
      TwoToSquared(n - 1);
      TwoToDouble(Bits.Pow2(n - 1));
      TwoSquaredNext(n - 1);
    }
  }

  lemma TwoSquaredEnds()
    ensures TwoSquared(0) == Unit(1) == TwoSquared(8)
  {
  }

  lemma FullCycle()
    ensures TwoTo(ORDER) == One()
  {
    hide TwoTo, Double, TwoSquared;
    TwoToSquared(8);
    TwoSquaredEnds();
    Pow2Of8();
    TwoToBit(1);
    TwoToNext(255);
    TwoToNext(0);
    DoubleInjective(TwoTo(255), TwoTo(0));
  }

  lemma TwoToNext(n: nat)
    ensures TwoTo(n + 1) == Double(TwoTo(n)) && TwoTo(0) == One()
  {
    hide Double;
  }

  lemma {:induction false} Cycles(g: nat, k: nat)
    requires TwoTo(g) == One()
    ensures TwoTo(k * g) == One()
    decreases k
  {
    hide Double, Mul, One;
    if k != 0 {
      Cycles(g, k - 1);
      assert k * g == (k - 1) * g + g;
      TwoToAdd((k - 1) * g, g);
      MulByOne(One());
    }
  }

  lemma Reduce(g: nat)
    requires g > 0 && TwoTo(g) == One()
    ensures TwoTo(ORDER % g) == One()
  {
    hide TwoTo, Mul, One;
    var k, r := ORDER / g, ORDER % g;
    Bits.DivMod(ORDER, g);
    Cycles(g, k);
    TwoToAdd(k * g, r);
    FullCycle();
    MulUnits(TwoTo(r));
  }

  /** If some smaller power is one, so is the power of a proper divisor of the order. */
  lemma {:induction false} ProperDivisor(g: nat) returns (d: nat)
    requires 0 < g < ORDER && TwoTo(g) == One()
    ensures 0 < d < ORDER && ORDER % d == 0 && TwoTo(d) == One()
    decreases g
  {
    hide TwoTo, One;
    if ORDER % g == 0 {
      d := g;
    } else {
      Reduce(g);
      d := ProperDivisor(ORDER % g);
    }
  }

  /** The proper divisors of 255 divide 15, 51 or 85. */
  lemma DivisorOfOrder(d: nat) returns (m: nat, k: nat)
    requires 0 < d < ORDER && ORDER % d == 0
    ensures (m == 15 || m == 51 || m == 85) && m == k * d
  {
    var q := ORDER / d;
    assert q * d == ORDER;
    if q % 3 == 0 {
      m, k := 85, q / 3;
      Third(q, d, 3, 85);
    } else if q % 5 == 0 {
      m, k := 51, q / 5;
      Third(q, d, 5, 51);
    } else {
      m, k := 15, q / 17;
      Coprime(q, d);
      Third(q, d, 17, 15);
    }
  }

  lemma Third(q: nat, d: nat, p: nat, m: nat)
    requires p > 0 && q % p == 0 && q * d == p * m
    ensures q / p * d == m
  {
    var k := q / p;
    assert q == p * k;
    assert p * (k * d) == p * m;
  }

  lemma SmallDivisor(q: nat, d: nat)
    requires q * d == 255 && 1 < q <= 15
    ensures q % 3 == 0 || q % 5 == 0
  {
    assert q != 2 && q != 4 && q != 7 && q != 8 && q != 11 && q != 13 && q != 14;
  }

  lemma Coprime(q: nat, d: nat)
    requires q * d == 255 && q > 1 && q % 3 != 0 && q % 5 != 0
    ensures q % 17 == 0
  {
    if q <= 15 {
      SmallDivisor(q, d);
    } else {
      Bits.MulMono(16, q, d);
      assert d == 15;
    }
  }

  /** The powers 11 and 13, and what squaring makes of them. */
  function Known(n: nat): (b: Byte) {
    if n == 8 then Poly()
    else if n == 9 then [false, true, false, true, true, false, false, true]
    else if n == 10 then [true, false, false, true, true, true, true, false]
    else if n == 11 then [false, true, false, false, true, true, true, true]
    else if n == 12 then [true, false, false, true, false, true, false, true]
    else if n == 13 then [true, true, true, true, true, false, false, false]
    else if n == 22 then [true, true, true, false, false, true, false, true]
    else if n == 26 then [false, false, false, true, true, false, false, false]
    else if n == 44 then [false, true, false, false, true, false, true, false]
    else if n == 52 then [true, false, true, true, false, false, false, false]
    else [false, false, false, false, false, true, true, true]
  }

  lemma KnownDoubled(n: nat)
    requires 8 <= n < 13
    ensures Double(Known(n)) == Known(n + 1)
  {
    Same(Double(Known(n)), Known(n + 1));
  }

  lemma {:induction false} KnownPower(n: nat)
    requires 8 <= n <= 13
    ensures TwoTo(n) == Known(n)
  {
    hide Double;
    if n == 8 {
      TwoToBit(7);
      DoubleUnit(7);
    } else {
      KnownPower(n - 1);
      KnownDoubled(n - 1);
    }
  }

  predicate IsKnown(n: nat) {
    TwoTo(n) == Known(n)
  }

  lemma KnownSquared(n: nat)
    requires n == 11 || n == 13 || n == 22 || n == 26 || n == 44
    requires IsKnown(n)
    ensures IsKnown(2 * n)
  {
    hide TwoTo, Square;
    TwoToDouble(n);
    SquareBits(Known(n));
    Same(Square(Known(n)), Known(2 * n));
  }

  lemma KnownSquares()
    ensures TwoTo(52) == Known(52) && TwoTo(88) == Known(88)
  {
    hide TwoTo, Known;
    KnownPower(11);
    KnownSquared(11);
    KnownSquared(22);
    KnownSquared(44);
    KnownPower(13);
    KnownSquared(13);
    KnownSquared(26);
  }

  lemma ShortCycle(n: nat, j: nat)
    requires TwoTo(n) == One() && j < 8
    ensures TwoTo(n + j) == Unit(j)
  {
    hide TwoTo, Mul, One;
    TwoToAdd(n, j);
    MulUnits(TwoTo(j));
    TwoToBit(j);
  }

  lemma Differ()
    ensures Unit(1) != TwoSquared(4) && Unit(1) != Known(52) && Unit(3) != Known(88)
  {
    assert Unit(1)[1] != TwoSquared(4)[1];
    assert Unit(1)[0] != Known(52)[0];
    assert Unit(3)[3] != Known(88)[3];
  }

  lemma NotYetOne()
    ensures TwoTo(15) != One() && TwoTo(51) != One() && TwoTo(85) != One()
  {
    hide TwoTo, One, Known, TwoSquared;
    Differ();
    TwoToSquared(4);
    KnownSquares();
    if TwoTo(15) == One() {
      ShortCycle(15, 1);
    }
    if TwoTo(51) == One() {
      ShortCycle(51, 1);
    }
    if TwoTo(85) == One() {
      ShortCycle(85, 3);
    }
  }

  /** The element x has order 255: no smaller power is one. */
  lemma OrderOfX(n: nat)
    requires n <= ORDER
    ensures TwoTo(n) == One() <==> n == 0 || n == ORDER
  {
    FullCycle();
    hide Double, One;
    if 0 < n < ORDER && TwoTo(n) == One() {
      hide TwoTo;
      var d := ProperDivisor(n);
      var m, k := DivisorOfOrder(d);
      Cycles(d, k);
      NotYetOne();
      assert false;
    }
  }

  /** Powers below the order differ. */
  lemma PowersDiffer(i: nat, j: nat)
    requires 1 <= i < j <= ORDER
    ensures TwoTo(i) != TwoTo(j)
  {
    hide TwoTo, Mul, One;
    if TwoTo(i) == TwoTo(j) {
      TwoToAdd(i, ORDER - i);
      TwoToAdd(j, ORDER - i);
      FullCycle();
      TwoToAdd(ORDER, j - i);
      MulUnits(TwoTo(j - i));
      OrderOfX(j - i);
    }
  }

  // ----- Every nonzero element is a power -----

  lemma NumberOfZero(b: Byte)
    ensures Number(b) == 0 <==> b == Zero()
  {
    ByteOfNumber(b);
    ByteOfNumber(Zero());
    ZeroIsZero(8);
    assert Zero() == seq(8, _ => false);
  }

  lemma {:induction false} ZeroIsZero(n: nat)
    ensures Number(seq(n, _ => false)) == 0
  {
    if n != 0 {
      assert seq(n, _ => false)[1..] == seq(n - 1, _ => false);
      ZeroIsZero(n - 1);
    }
  }

  lemma PowerNotZero(n: nat)
    requires n <= ORDER
    ensures TwoTo(n) != Zero()
  {
    hide TwoTo, Mul, One, Zero;
    if TwoTo(n) == Zero() {
      TwoToAdd(n, ORDER - n);
      FullCycle();
      MulUnits(TwoTo(ORDER - n));
      OneIsNotZero();
    }
  }

  lemma OneIsNotZero()
    ensures One() != Zero()
  {
    assert One()[0] != Zero()[0];
  }

  /** The power `j` as a number. */
  function PowerNumber(j: nat): (x: nat)
    requires j <= ORDER
    ensures 1 <= x < 256
  {
    hide Number, TwoTo, Zero;
    ByteOfNumber(TwoTo(j));
    NumberOfZero(TwoTo(j));
    PowerNotZero(j);
    Number(TwoTo(j))
  }

  lemma PowerOfNumber(j: nat)
    requires j <= ORDER
    ensures FromNat(PowerNumber(j)) == TwoTo(j)
  {
    hide Number, FromNat, TwoTo;
    ByteOfNumber(TwoTo(j));
  }

  ghost predicate IsPower(j: nat, x: nat) {
    TwoTo(j) == FromNat(x)
  }

  /** The numbers of the powers 1 to `n`. */
  ghost function PowerNumbers(n: nat): (s: set<nat>)
    requires n <= ORDER
  {
    if n == 0 then {} else PowerNumbers(n - 1) + {PowerNumber(n)}
  }

  lemma {:induction false} PowerAmong(n: nat, x: nat) returns (j: nat)
    requires n <= ORDER && x in PowerNumbers(n)
    ensures 1 <= j <= n && PowerNumber(j) == x
  {
    hide PowerNumber, TwoTo;
    if x == PowerNumber(n) {
      j := n;
    } else {
      j := PowerAmong(n - 1, x);
    }
  }

  lemma {:induction false} CountPowers(n: nat)
    requires n <= ORDER
    ensures |PowerNumbers(n)| == n && forall x :: x in PowerNumbers(n) ==> 1 <= x <= ORDER
  {
    hide TwoTo, PowerNumber;
    if n != 0 {
      CountPowers(n - 1);
      if PowerNumber(n) in PowerNumbers(n - 1) {
        var j := PowerAmong(n - 1, PowerNumber(n));
        PowerOfNumber(j);
        PowerOfNumber(n);
        PowersDiffer(j, n);
      }
    }
  }

  function Below(n: nat): (s: set<nat>)
    ensures |s| == n && forall x :: x in s <==> 1 <= x <= n
  {
    if n == 0 then {} else Below(n - 1) + {n}
  }

  lemma SubsetSize(a: set<nat>, b: set<nat>)
    requires a <= b
    ensures |a| <= |b|
    decreases b
  {
    if x :| x in a {
      SubsetSize(a - {x}, b - {x});
    }
  }

  /** Every nonzero element is a power of x. */
  lemma EveryPower(x: nat) returns (j: nat)
    requires 1 <= x < 256
    ensures 1 <= j <= ORDER && PowerNumber(j) == x && IsPower(j, x)
  {
    hide TwoTo, FromNat, PowerNumber;
    if x !in PowerNumbers(ORDER) {
      CountPowers(ORDER);
      SubsetSize(PowerNumbers(ORDER), Below(ORDER) - {x});
    }
    j := PowerAmong(ORDER, x);
    PowerOfNumber(j);
  }

  // ----- The tables -----

  const EXPS: nat := 4 * ORDER
  const NO_LOG: nat := 512
  const TABLE: nat := 65536

  /** The table of powers holds two rounds and the start of a third, then zeros. */
  ghost predicate ExpsTo(exps: seq<Byte>, n: nat) {
    && n <= |exps| == EXPS
    && forall j :: 0 <= j < n ==> exps[j] == if j <= 2 * ORDER then TwoTo(j) else Zero()
  }

  /** The logarithms of the powers 1 to `n`. */
  ghost predicate LogsTo(logs: seq<nat>, n: nat) {
    && |logs| == 256 && logs[0] == NO_LOG && n <= ORDER
    && forall j :: 1 <= j <= n ==> logs[PowerNumber(j)] == j
  }

  lemma NextExp(exps: seq<Byte>, exps': seq<Byte>, n: nat)
    requires ExpsTo(exps, n) && n < EXPS && |exps'| == EXPS && exps'[..n] == exps[..n]
    requires exps'[n] == if n <= 2 * ORDER then TwoTo(n) else Zero()
    ensures ExpsTo(exps', n + 1)
  {
    hide TwoTo, Zero;
    forall j | 0 <= j < n ensures exps'[j] == exps[j] {
      assert exps'[..n][j] == exps[..n][j];
    }
  }

  lemma NextLog(logs: seq<nat>, n: nat)
    requires 1 <= n <= ORDER && LogsTo(logs, n - 1)
    ensures LogsTo(logs[PowerNumber(n) := n], n)
  {
    hide TwoTo, PowerNumber;
    forall j | 1 <= j < n ensures PowerNumber(j) != PowerNumber(n) {
      PowersDiffer(j, n);
      PowerOfNumber(j);
      PowerOfNumber(n);
    }
  }

  lemma NextRound(j: nat)
    ensures TwoTo(j + ORDER) == TwoTo(j)
  {
    hide TwoTo, Mul, One;
    TwoToAdd(j, ORDER);
    FullCycle();
    MulByOne(TwoTo(j));
  }

  lemma RoundOf(j: nat)
    requires ORDER < j <= 2 * ORDER
    ensures TwoTo(j) == TwoTo(j % ORDER)
  {
    hide TwoTo;
    NextRound(j - ORDER);
    if j == 2 * ORDER {
      NextRound(0);
    }
  }

  lemma Started(exps: seq<Byte>, logs: seq<nat>)
    requires |exps| == EXPS && exps[0] == One() && |logs| == 256 && logs[0] == NO_LOG
    ensures ExpsTo(exps, 1) && LogsTo(logs, 0)
  {
  }

  lemma ExpAt(exps: seq<Byte>, n: nat, j: nat)
    requires ExpsTo(exps, n) && j < n && j <= 2 * ORDER
    ensures exps[j] == TwoTo(j)
  {
    hide TwoTo, Zero;
  }

  lemma PowerNumberIs(j: nat)
    requires j <= ORDER
    ensures PowerNumber(j) == Number(TwoTo(j))
  {
    hide TwoTo, Number;
  }

  /** The tables of powers and logarithms. */
  method InitExpLog(exps: array<Byte>, logs: array<nat>)
    requires exps.Length == EXPS && logs.Length == 256
    modifies exps, logs
    ensures ExpsTo(exps[..], EXPS) && LogsTo(logs[..], ORDER)
  {
    hide ExpsTo, LogsTo, TwoTo, PowerNumber, Double, Number, One, Zero;
    logs[0] := NO_LOG;
    exps[0] := One();
    Started(exps[..], logs[..]);
    var jj: nat := 1;
    while jj < ORDER
      invariant 1 <= jj <= ORDER
      invariant ExpsTo(exps[..], jj) && LogsTo(logs[..], jj - 1)
    {
      StepPower(exps, logs, jj);
      jj := jj + 1;
    }
    ghost var exps0 := exps[..];
    ExpAt(exps[..], ORDER, 0);
    exps[ORDER] := exps[0];
    FullCycle();
    TwoToNext(0);
    NextExp(exps0, exps[..], ORDER);
    StoreLog(exps, logs, ORDER);
    FillRounds(exps);
  }

  /** The next power by doubling, and its logarithm. */
  method StepPower(exps: array<Byte>, logs: array<nat>, jj: nat)
    requires exps.Length == EXPS && logs.Length == 256 && 1 <= jj < ORDER
    requires ExpsTo(exps[..], jj) && LogsTo(logs[..], jj - 1)
    modifies exps, logs
    ensures ExpsTo(exps[..], jj + 1) && LogsTo(logs[..], jj)
  {
    hide ExpsTo, LogsTo, TwoTo, PowerNumber, Double, Number, Zero;
    ghost var exps0 := exps[..];
    ExpAt(exps0, jj, jj - 1);
    TwoToNext(jj - 1);
    var next := Double(exps[jj - 1]);
    exps[jj] := next;
    NextExp(exps0, exps[..], jj);
    StoreLog(exps, logs, jj);
  }

  method StoreLog(exps: array<Byte>, logs: array<nat>, jj: nat)
    requires exps.Length == EXPS && logs.Length == 256 && 1 <= jj <= ORDER
    requires ExpsTo(exps[..], jj + 1) && LogsTo(logs[..], jj - 1)
    modifies logs
    ensures LogsTo(logs[..], jj)
  {
    hide ExpsTo, LogsTo, TwoTo, PowerNumber, Number;
    ghost var logs0 := logs[..];
    ExpAt(exps[..], jj + 1, jj);
    PowerNumberIs(jj);
    logs[Number(exps[jj])] := jj;
    NextLog(logs0, jj);
    assert logs[..] == logs0[PowerNumber(jj) := jj];
  }

  /** The second round of powers, the start of a third, and zeros. */
  method FillRounds(exps: array<Byte>)
    requires exps.Length == EXPS && ExpsTo(exps[..], ORDER + 1)
    modifies exps
    ensures ExpsTo(exps[..], EXPS)
  {
    hide ExpsTo, TwoTo, One, Zero;
    for jj := ORDER + 1 to 2 * ORDER
      invariant ExpsTo(exps[..], jj)
    {
      ghost var exps0 := exps[..];
      RoundOf(jj);
      ExpAt(exps0, jj, jj % ORDER);
      exps[jj] := exps[jj % ORDER];
      NextExp(exps0, exps[..], jj);
    }
    ghost var exps1 := exps[..];
    exps[2 * ORDER] := One();
    RoundOf(2 * ORDER);
    TwoToNext(0);
    NextExp(exps1, exps[..], 2 * ORDER);
    for jj := 2 * ORDER + 1 to EXPS
      invariant ExpsTo(exps[..], jj)
    {
      ghost var exps0 := exps[..];
      exps[jj] := Zero();
      NextExp(exps0, exps[..], jj);
    }
  }

  // ----- Products and quotients -----

  ghost predicate IsProduct(p: Byte, x: nat, y: nat) {
    p == Mul(FromNat(x), FromNat(y))
  }

  /** The quotient of `x` by `y`; it is zero for divisor zero. */
  ghost predicate IsQuotient(q: Byte, x: nat, y: nat) {
    if y == 0 then q == Zero() else Mul(q, FromNat(y)) == FromNat(x)
  }

  /** Entry `256 * y + x` is for factors, or dividend and divisor, `x` and `y`. */
  ghost predicate Products(m: seq<Byte>, n: nat) {
    n <= |m| && forall k :: 0 <= k < n ==> IsProduct(m[k], k % 256, k / 256)
  }

  ghost predicate Quotients(d: seq<Byte>, n: nat) {
    n <= |d| && forall k :: 0 <= k < n ==> IsQuotient(d[k], k % 256, k / 256)
  }

  /** The logarithm of every nonzero element is the exponent of a power that gives the element. */
  lemma LogIs(logs: seq<nat>, x: nat)
    requires |logs| == 256 && LogsTo(logs, ORDER) && 1 <= x < 256
    ensures 1 <= logs[x] <= ORDER && IsPower(logs[x], x)
  {
    hide PowerNumber, IsPower;
    var j := EveryPower(x);
  }

  /** Adding logarithms multiplies, and adding the complement of one divides. */
  lemma LookUp(exps: seq<Byte>, x: nat, y: nat, i: nat, j: nat)
    requires |exps| == EXPS && ExpsTo(exps, EXPS) && i <= ORDER && j <= ORDER && y > 0
    requires IsPower(i, x) && IsPower(j, y)
    ensures IsProduct(exps[i + j], x, y)
    ensures IsQuotient(exps[i + (ORDER - j)], x, y)
  {
    hide ExpsTo, TwoTo, FromNat, Mul;
    ExpAt(exps, EXPS, i + j);
    ExpAt(exps, EXPS, i + (ORDER - j));
    TwoToAdd(i, j);
    TwoToAdd(i + (ORDER - j), j);
    NextRound(i);
  }

  lemma ZeroByte()
    ensures FromNat(0) == Zero()
  {
    hide FromNat, Zero, Number;
    NumberOfByte(0);
    NumberOfZero(FromNat(0));
  }

  lemma ZeroEntries(x: nat, y: nat)
    requires x == 0 || y == 0
    ensures IsProduct(Zero(), x, y) && IsQuotient(Zero(), x, y)
  {
    hide FromNat, Zero, Mul;
    ZeroByte();
    MulUnits(FromNat(y));
    MulCommutes(FromNat(x), Zero());
    MulUnits(FromNat(x));
  }

  lemma NextEntry(m: seq<Byte>, d: seq<Byte>, m': seq<Byte>, d': seq<Byte>, base: nat, x: nat, y: nat)
    requires base == 256 * y && x < 256 && y < 256 && |m'| == |d'| == |m| == |d| == TABLE
    requires Products(m, base + x) && Quotients(d, base + x)
    requires m' == m[base + x := m'[base + x]] && IsProduct(m'[base + x], x, y)
    requires d' == d[base + x := d'[base + x]] && IsQuotient(d'[base + x], x, y)
    ensures Products(m', base + x + 1) && Quotients(d', base + x + 1)
  {
    hide IsProduct, IsQuotient;
    assert (base + x) % 256 == x && (base + x) / 256 == y;
  }

  /** One entry of both tables. */
  method StoreEntry(mul: array<Byte>, div: array<Byte>, base: nat, x: nat, y: nat, p: Byte, q: Byte)
    requires mul.Length == div.Length == TABLE && mul != div && base == 256 * y && x < 256 && y < 256
    requires Products(mul[..], base + x) && Quotients(div[..], base + x) && IsProduct(p, x, y) && IsQuotient(q, x, y)
    modifies mul, div
    ensures Products(mul[..], base + x + 1) && Quotients(div[..], base + x + 1)
  {
    hide Products, Quotients, IsProduct, IsQuotient;
    ghost var m, d := mul[..], div[..];
    mul[base + x], div[base + x] := p, q;
    NextEntry(m, d, mul[..], div[..], base, x, y);
  }

  /** The tables of products and quotients, looked up through the logarithms. */
  method InitMulDiv(exps: array<Byte>, logs: array<nat>, mul: array<Byte>, div: array<Byte>)
    requires exps.Length == EXPS && logs.Length == 256 && mul.Length == div.Length == TABLE
    requires mul != div && exps != mul && exps != div
    requires ExpsTo(exps[..], EXPS) && LogsTo(logs[..], ORDER)
    modifies mul, div
    ensures Products(mul[..], TABLE) && Quotients(div[..], TABLE)
  {
    hide ExpsTo, LogsTo, Products, Quotients, IsProduct, IsQuotient, Zero;
    NothingYet(mul[..], div[..]);
    for x := 0 to 256
      invariant Products(mul[..], x) && Quotients(div[..], x)
    {
      ZeroEntries(x, 0);
      StoreEntry(mul, div, 0, x, 0, Zero(), Zero());
    }
    var base := 0;
    for y := 1 to 256
      invariant base == 256 * (y - 1)
      invariant Products(mul[..], base + 256) && Quotients(div[..], base + 256)
    {
      base := base + 256;
      InitSubtable(exps, logs, mul, div, base, y);
    }
  }

  lemma NothingYet(m: seq<Byte>, d: seq<Byte>)
    ensures Products(m, 0) && Quotients(d, 0)
  {
  }

  /** The products with `y` and the quotients by `y`. */
  method InitSubtable(exps: array<Byte>, logs: array<nat>, mul: array<Byte>, div: array<Byte>, base: nat, y: nat)
    requires exps.Length == EXPS && logs.Length == 256 && mul.Length == div.Length == TABLE
    requires mul != div && exps != mul && exps != div && 1 <= y < 256 && base == 256 * y
    requires ExpsTo(exps[..], EXPS) && LogsTo(logs[..], ORDER)
    requires Products(mul[..], base) && Quotients(div[..], base)
    modifies mul, div
    ensures Products(mul[..], base + 256) && Quotients(div[..], base + 256)
  {
    hide ExpsTo, LogsTo, Products, Quotients, IsProduct, IsQuotient, IsPower, Zero;
    LogIs(logs[..], y);
    var logY := logs[y];
    var logYn := ORDER - logY;
    ZeroEntries(0, y);
    StoreEntry(mul, div, base, 0, y, Zero(), Zero());
    for x := 1 to 256
      invariant Products(mul[..], base + x) && Quotients(div[..], base + x)
    {
      LogIs(logs[..], x);
      var logX := logs[x];
      LookUp(exps[..], x, y, logX, logY);
      StoreEntry(mul, div, base, x, y, exps[logX + logY], exps[logX + logYn]);
    }
  }

  /** The tables of inverses and squares. */
  method InitInvSqr(mul: array<Byte>, div: array<Byte>, inv: array<Byte>, sqr: array<Byte>)
    requires mul.Length == div.Length == TABLE && inv.Length == sqr.Length == 256
    requires inv != sqr && inv != mul && inv != div && sqr != mul && sqr != div
    requires Products(mul[..], TABLE) && Quotients(div[..], TABLE)
    modifies inv, sqr
    ensures forall x :: 0 <= x < 256 ==> IsQuotient(inv[x], 1, x) && IsProduct(sqr[x], x, x)
  {
    hide Products, Quotients, IsProduct, IsQuotient;
    for x := 0 to 256
      invariant forall k :: 0 <= k < x ==> IsQuotient(inv[k], 1, k)
    {
      EntryIs(mul[..], div[..], 1, x);
      inv[x] := div[256 * x + 1];
    }
    for x := 0 to 256
      invariant forall k :: 0 <= k < 256 ==> IsQuotient(inv[k], 1, k)
      invariant forall k :: 0 <= k < x ==> IsProduct(sqr[k], k, k)
    {
      EntryIs(mul[..], div[..], x, x);
      sqr[x] := mul[256 * x + x];
    }
  }

  lemma EntryIs(m: seq<Byte>, d: seq<Byte>, x: nat, y: nat)
    requires |m| == |d| == TABLE && Products(m, TABLE) && Quotients(d, TABLE) && x < 256 && y < 256
    ensures IsProduct(m[256 * y + x], x, y) && IsQuotient(d[256 * y + x], x, y)
  {
    hide IsProduct, IsQuotient;
    var k := 256 * y + x;
    assert k % 256 == x && k / 256 == y;
  }

  /** The entry of a table for two bytes. */
  function Entry(t: seq<Byte>, a: Byte, b: Byte): (r: Byte)
    requires |t| == TABLE
  {
    hide FromNat, Number;
    ByteOfNumber(a);
    ByteOfNumber(b);
    t[256 * Number(b) + Number(a)]
  }

  /** Multiplying through the table is multiplication in the field, and dividing undoes it. */
  lemma TablesAgree(m: seq<Byte>, d: seq<Byte>, a: Byte, b: Byte)
    requires |m| == |d| == TABLE && Products(m, TABLE) && Quotients(d, TABLE)
    ensures Entry(m, a, b) == Mul(a, b)
    ensures b != Zero() ==> Entry(d, Mul(a, b), b) == a
  {
    hide Products, Quotients, FromNat, Number, Mul, Zero;
    var c := Mul(a, b);
    ByteOfNumber(a);
    ByteOfNumber(b);
    ByteOfNumber(c);
    EntryIs(m, d, Number(a), Number(b));
    EntryIs(m, d, Number(c), Number(b));
    NumberOfZero(b);
    if b != Zero() {
      Cancel(Entry(d, c, b), a, b);
    }
  }

  /** An entry of the table of inverses. */
  lemma InverseEntry(q: Byte, b: Byte)
    requires b != Zero() && IsQuotient(q, 1, Number(b))
    ensures Mul(q, b) == One()
  {
    hide Mul, FromNat, Number, Zero, One;
    NumberOfZero(b);
    ByteOfNumber(b);
    OneByte();
  }

  lemma {:induction false} BitsOfZero(k: nat)
    ensures forall i :: 0 <= i < k ==> !BitsOf(0, k)[i]
  {
    if k != 0 {
      BitsOfZero(k - 1);
    }
  }

  lemma BitsOfNext(n: nat, k: nat)
    requires k > 0
    ensures BitsOf(n, k) == [n % 2 == 1] + BitsOf(n / 2, k - 1)
  {
  }

  lemma OneByte()
    ensures FromNat(1) == One()
  {
    hide BitsOf, One;
    BitsOfNext(1, 8);
    BitsOfZero(7);
    Same(FromNat(1), One());
  }

  lemma Cancel(p: Byte, q: Byte, b: Byte)
    requires b != Zero() && Mul(p, b) == Mul(q, b)
    ensures p == q
  {
    hide Mul, Zero, Inverse;
    InverseIs(b);
    MulAssoc(p, b, Inverse(b));
    MulAssoc(q, b, Inverse(b));
    MulByOne(p);
    MulByOne(q);
  }
}
