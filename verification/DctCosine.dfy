/** What the fast DCT computes: the scaled cosine sums of its inputs, up to a stated rounding error. */
module DctCosine {
  import opened Bits
  import opened Quantizer
  import opened Dct

  /** 65536 times cos(j pi / 16), from a quarter of the wave. */
  function Cosine(j: nat): (c: int) {
    var i := j % 32;
    if i <= 8 then Quarter(i) else if i <= 16 then -Quarter(16 - i)
    else if i <= 24 then -Quarter(i - 16) else Quarter(32 - i)
  }

  function Quarter(i: nat): (c: int)
    requires i <= 8
  {
    if i == 0 then 65536 else if i == 1 then 64277 else if i == 2 then 60547 else if i == 3 then 54491
    else if i == 4 then 46341 else if i == 5 then 36410 else if i == 6 then 25080 else if i == 7 then 12785 else 0
  }

  /** The constants are cosines: they start at one, fall to zero, and satisfy the double-angle formula. */
  lemma QuarterIsCosine(i: nat)
    requires i <= 8
    ensures Quarter(0) == 65536 && Quarter(8) == 0 && (i < 8 ==> Quarter(i) > Quarter(i + 1))
    ensures -131072 <= 2 * Quarter(i) * Quarter(i) - 0x1_0000_0000 - 65536 * Cosine(2 * i) <= 131072
  {
  }

  /**
   Entry `n` of row `k` of the transform: cos((2n + 1) k pi / 16) on the scale of 65536, times 2 cos(k pi / 16) for
   k > 0, which the quantizer takes off again. The product of the two cosines is cos(2nk) + cos((2n + 2) k).
   */
  function ScaledCosine(k: nat, n: nat): (c: int) {
    if k == 0 then Cosine(0) else Cosine(2 * n * k) + Cosine(2 * (n + 1) * k)
  }

  function Cosines(k: nat): (c: Octet) {
    Octet(ScaledCosine(k, 0), ScaledCosine(k, 1), ScaledCosine(k, 2), ScaledCosine(k, 3),
          ScaledCosine(k, 4), ScaledCosine(k, 5), ScaledCosine(k, 6), ScaledCosine(k, 7))
  }

  lemma Period(j: nat)
    ensures Cosine(j + 32) == Cosine(j)
  {
    hide Quarter;
    assert (j + 32) % 32 == j % 32;
  }

  lemma EvenCosines()
    ensures Cosine(0) == 65536 && Cosine(2) == 60547 && Cosine(4) == 46341 && Cosine(6) == 25080
    ensures Cosine(8) == 0 && Cosine(10) == -25080 && Cosine(12) == -46341 && Cosine(14) == -60547
    ensures Cosine(16) == -65536 && Cosine(18) == -60547 && Cosine(20) == -46341 && Cosine(22) == -25080
    ensures Cosine(24) == 0 && Cosine(26) == 25080 && Cosine(28) == 46341 && Cosine(30) == 60547
  {
  }

  lemma Row0()
    ensures Cosines(0) == Octet(65536, 65536, 65536, 65536, 65536, 65536, 65536, 65536)
  {
    hide Cosine;
    EvenCosines();
  }

  lemma Row1()
    ensures Cosines(1) == Octet(126083, 106888, 71421, 25080, -25080, -71421, -106888, -126083)
  {
    hide Cosine;
    EvenCosines();
  }

  lemma Row2()
    ensures Cosines(2) == Octet(111877, 46341, -46341, -111877, -111877, -46341, 46341, 111877)
  {
    hide Cosine;
    EvenCosines();
    Period(0);
  }

  lemma Row3()
    ensures Cosines(3) == Octet(90616, -21261, -106888, -60547, 60547, 106888, 21261, -90616)
  {
    hide Cosine;
    EvenCosines();
    Period(4);
    Period(10);
    Period(16);
  }

  lemma Row4()
    ensures Cosines(4) == Octet(65536, -65536, -65536, 65536, 65536, -65536, -65536, 65536)
  {
    hide Cosine;
    EvenCosines();
    Period(0);
    Period(8);
    Period(16);
    Period(24);
    Period(32);
  }

  lemma Row5()
    ensures Cosines(5) == Octet(40456, -71421, 14206, 60547, -60547, -14206, 71421, -40456)
  {
    hide Cosine;
    EvenCosines();
    Period(6);
    Period(8);
    Period(16);
    Period(18);
    Period(28);
    Period(38);
    Period(48);
  }

  lemma Row6()
    ensures Cosines(6) == Octet(19195, -46341, 46341, -19195, -19195, 46341, -46341, 19195)
  {
    hide Cosine;
    EvenCosines();
    Period(0);
    Period(4);
    Period(8);
    Period(16);
    Period(20);
    Period(28);
    Period(32);
    Period(40);
    Period(52);
    Period(64);
  }

  lemma Row7()
    ensures Cosines(7) == Octet(4989, -14206, 21261, -25080, 25080, -21261, 14206, -4989)
  {
    hide Cosine;
    EvenCosines();
    Period(2);
    Period(6);
    Period(10);
    Period(16);
    Period(20);
    Period(24);
    Period(34);
    Period(38);
    Period(48);
    Period(52);
    Period(66);
    Period(80);
  }

  function Dot8(c: Octet, x: Octet): (s: int) {
    c.v0 * x.v0 + c.v1 * x.v1 + c.v2 * x.v2 + c.v3 * x.v3 + c.v4 * x.v4 + c.v5 * x.v5 + c.v6 * x.v6 + c.v7 * x.v7
  }

  function Nth(x: Octet, k: nat): (v: int)
    requires k < 8
  {
    if k == 0 then x.v0 else if k == 1 then x.v1 else if k == 2 then x.v2 else if k == 3 then x.v3
    else if k == 4 then x.v4 else if k == 5 then x.v5 else if k == 6 then x.v6 else x.v7
  }

  /** `y` is `s / 65536` up to an error of `e / 65536`. */
  ghost predicate Near(y: int, s: int, e: int) {
    -e <= 65536 * y - s <= e
  }

  /** The error for inputs of at most `m`: three roundings, and the eight bits of the constants. */
  function Error(m: int): (e: int) {
    195840 + 558 * m
  }

  // ----- One row or column -----

  lemma ScaleBound(v: int, c: int)
    ensures 256 * Scale(v, c) <= v * c < 256 * Scale(v, c) + 256
  {
  }

  lemma SumsNear(x: Octet, m: int)
    requires m >= 0
    ensures Near(x.v0 + x.v7 + (x.v3 + x.v4) + (x.v1 + x.v6 + (x.v2 + x.v5)), Dot8(Cosines(0), x), Error(m))
    ensures Near(x.v0 + x.v7 + (x.v3 + x.v4) - (x.v1 + x.v6 + (x.v2 + x.v5)), Dot8(Cosines(4), x), Error(m))
  {
    hide Cosines;
    Row0();
    Row4();
  }

  lemma SecondNear(x: Octet, m: int, z1: int)
    requires AllWithin(x, m) && m >= 0
    requires 0 <= 181 * (x.v1 + x.v6 - (x.v2 + x.v5) + (x.v0 + x.v7 - (x.v3 + x.v4))) - 256 * z1 <= 255
    ensures Near(x.v0 + x.v7 - (x.v3 + x.v4) + z1, Dot8(Cosines(2), x), Error(m))
  {
    hide Cosines;
    Row2();
  }

  lemma SixthNear(x: Octet, m: int, z1: int)
    requires AllWithin(x, m) && m >= 0
    requires 0 <= 181 * (x.v1 + x.v6 - (x.v2 + x.v5) + (x.v0 + x.v7 - (x.v3 + x.v4))) - 256 * z1 <= 255
    ensures Near(x.v0 + x.v7 - (x.v3 + x.v4) - z1, Dot8(Cosines(6), x), Error(m))
  {
    hide Cosines;
    Row6();
  }

  lemma EvenNear(x: Octet, m: int, z1: int)
    requires AllWithin(x, m) && m >= 0
    requires z1 == Scale(x.v1 + x.v6 - (x.v2 + x.v5) + (x.v0 + x.v7 - (x.v3 + x.v4)), 181)
    ensures Near(x.v0 + x.v7 + (x.v3 + x.v4) + (x.v1 + x.v6 + (x.v2 + x.v5)), Dot8(Cosines(0), x), Error(m))
    ensures Near(x.v0 + x.v7 + (x.v3 + x.v4) - (x.v1 + x.v6 + (x.v2 + x.v5)), Dot8(Cosines(4), x), Error(m))
    ensures Near(x.v0 + x.v7 - (x.v3 + x.v4) + z1, Dot8(Cosines(2), x), Error(m))
    ensures Near(x.v0 + x.v7 - (x.v3 + x.v4) - z1, Dot8(Cosines(6), x), Error(m))
  {
    hide Scale, Near, Dot8, Cosines, Error, AllWithin;
    ScaleBound(x.v1 + x.v6 - (x.v2 + x.v5) + (x.v0 + x.v7 - (x.v3 + x.v4)), 181);
    SumsNear(x, m);
    SecondNear(x, m, z1);
    SixthNear(x, m, z1);
  }

  /** The four products of the odd part, for the differences of opposite inputs. */
  ghost predicate OddProducts(x: Octet, z5: int, z2: int, z4: int, z3: int) {
    && z5 == Scale(x.v3 - x.v4 + (x.v2 - x.v5) - (x.v1 - x.v6 + (x.v0 - x.v7)), 98)
    && z2 == Scale(x.v3 - x.v4 + (x.v2 - x.v5), 139) + z5
    && z4 == Scale(x.v1 - x.v6 + (x.v0 - x.v7), 334) + z5
    && z3 == Scale(x.v2 - x.v5 + (x.v1 - x.v6), 181)
  }

  ghost predicate OddWithin(x: Octet, z2: int, z4: int, z3: int) {
    var t4, t5, t6, t7 := x.v3 - x.v4, x.v2 - x.v5, x.v1 - x.v6, x.v0 - x.v7;
    && 0 <= 139 * (t4 + t5) + 98 * (t4 + t5 - (t6 + t7)) - 256 * z2 <= 510
    && 0 <= 334 * (t6 + t7) + 98 * (t4 + t5 - (t6 + t7)) - 256 * z4 <= 510
    && 0 <= 181 * (t5 + t6) - 256 * z3 <= 255
  }

  lemma OddBounds(x: Octet, z5: int, z2: int, z4: int, z3: int)
    requires OddProducts(x, z5, z2, z4, z3)
    ensures OddWithin(x, z2, z4, z3)
  {
    hide Scale;
    var t4, t5, t6, t7 := x.v3 - x.v4, x.v2 - x.v5, x.v1 - x.v6, x.v0 - x.v7;
    ScaleBound(t4 + t5 - (t6 + t7), 98);
    ScaleBound(t4 + t5, 139);
    ScaleBound(t6 + t7, 334);
    ScaleBound(t5 + t6, 181);
  }

  lemma FirstNear(x: Octet, m: int, z2: int, z4: int, z3: int)
    requires AllWithin(x, m) && m >= 0 && OddWithin(x, z2, z4, z3)
    ensures Near(x.v0 - x.v7 + z3 + z4, Dot8(Cosines(1), x), Error(m))
  {
    hide Cosines;
    Row1();
  }

  lemma ThirdNear(x: Octet, m: int, z2: int, z4: int, z3: int)
    requires AllWithin(x, m) && m >= 0 && OddWithin(x, z2, z4, z3)
    ensures Near(x.v0 - x.v7 - z3 - z2, Dot8(Cosines(3), x), Error(m))
  {
    hide Cosines;
    Row3();
  }

  lemma FifthNear(x: Octet, m: int, z2: int, z4: int, z3: int)
    requires AllWithin(x, m) && m >= 0 && OddWithin(x, z2, z4, z3)
    ensures Near(x.v0 - x.v7 - z3 + z2, Dot8(Cosines(5), x), Error(m))
  {
    hide Cosines;
    Row5();
  }

  lemma SeventhNear(x: Octet, m: int, z2: int, z4: int, z3: int)
    requires AllWithin(x, m) && m >= 0 && OddWithin(x, z2, z4, z3)
    ensures Near(x.v0 - x.v7 + z3 - z4, Dot8(Cosines(7), x), Error(m))
  {
    hide Cosines;
    Row7();
  }

  lemma OddNear(x: Octet, m: int, z5: int, z2: int, z4: int, z3: int)
    requires AllWithin(x, m) && m >= 0 && OddProducts(x, z5, z2, z4, z3)
    ensures Near(x.v0 - x.v7 + z3 + z4, Dot8(Cosines(1), x), Error(m))
    ensures Near(x.v0 - x.v7 - z3 - z2, Dot8(Cosines(3), x), Error(m))
    ensures Near(x.v0 - x.v7 - z3 + z2, Dot8(Cosines(5), x), Error(m))
    ensures Near(x.v0 - x.v7 + z3 - z4, Dot8(Cosines(7), x), Error(m))
  {
    hide OddProducts, OddWithin, Near, Dot8, Cosines, Error, AllWithin;
    OddBounds(x, z5, z2, z4, z3);
    FirstNear(x, m, z2, z4, z3);
    ThirdNear(x, m, z2, z4, z3);
    FifthNear(x, m, z2, z4, z3);
    SeventhNear(x, m, z2, z4, z3);
  }

  /** Every output is the cosine sum of its number, up to the error. */
  lemma TransformNear(x: Octet, m: int, k: nat)
    requires AllWithin(x, m) && 0 <= m <= LARGEST && k < 8
    ensures Near(Nth(Transform(x), k), Dot8(Cosines(k), x), Error(m))
  {
    hide Butterfly, EvenPart, OddPart, Scale, Cosines, Dot8, Near, Error, OddProducts;
    TransformParts(x, m);
  }

  lemma TransformParts(x: Octet, m: int)
    requires AllWithin(x, m) && 0 <= m <= LARGEST
    ensures Near(Transform(x).v0, Dot8(Cosines(0), x), Error(m)) && Near(Transform(x).v1, Dot8(Cosines(1), x), Error(m))
    ensures Near(Transform(x).v2, Dot8(Cosines(2), x), Error(m)) && Near(Transform(x).v3, Dot8(Cosines(3), x), Error(m))
    ensures Near(Transform(x).v4, Dot8(Cosines(4), x), Error(m)) && Near(Transform(x).v5, Dot8(Cosines(5), x), Error(m))
    ensures Near(Transform(x).v6, Dot8(Cosines(6), x), Error(m)) && Near(Transform(x).v7, Dot8(Cosines(7), x), Error(m))
  {
    hide Butterfly, EvenPart, OddPart, Scale, Cosines, Dot8, Near, Error, Within;
    ButterflyIs(x, m);
    var t := Butterfly(x);
    EvenIs(t.v0, t.v1, t.v2, t.v3, m);
    OddIs(t.v4, t.v5, t.v6, t.v7, m);
    var z5 := Scale(t.v4 + t.v5 - (t.v6 + t.v7), 98);
    var z2, z4, z3 := Scale(t.v4 + t.v5, 139) + z5, Scale(t.v6 + t.v7, 334) + z5, Scale(t.v5 + t.v6, 181);
    EvenNear(x, m, Scale(t.v1 - t.v2 + (t.v0 - t.v3), 181));
    OddNear(x, m, z5, z2, z4, z3);
  }

  // ----- The block -----

  lemma NthIs(b: seq<int>, at: nat, step: nat, k: nat)
    requires at + 7 * step < |b| && k < 8
    ensures at + k * step < |b| && Nth(Take(b, at, step), k) == b[at + k * step]
  {
  }

  lemma TakePutRow(b: seq<int>, i: nat, y: Octet, r: nat)
    requires |b| == BLOCK && i < 8 && r < 8
    ensures Take(Put(b, 8 * i, 1, y), 8 * r, 1) == if r == i then y else Take(b, 8 * r, 1)
  {
  }

  lemma TakePutColumn(b: seq<int>, i: nat, y: Octet, c: nat)
    requires |b| == BLOCK && i < 8 && c < 8
    ensures Take(Put(b, i, 8, y), c, 8) == if c == i then y else Take(b, c, 8)
  {
  }

  /** The row passes transform each row once. */
  lemma {:induction false} RowsGive(b: seq<int>, i: nat, r: nat)
    requires |b| == BLOCK && i <= 8 && r < 8
    ensures Take(Rows(b, i), 8 * r, 1) == if r < i then Take(b, 8 * r, 1) else Transform(Take(b, 8 * r, 1))
    decreases 8 - i
  {
    hide Transform, Put, Take;
    if i < 8 {
      var y := Transform(Take(b, 8 * i, 1));
      RowsGive(Put(b, 8 * i, 1, y), i + 1, r);
      TakePutRow(b, i, y, r);
    }
  }

  /** The column passes transform each column once. */
  lemma {:induction false} ColumnsGive(b: seq<int>, i: nat, c: nat)
    requires |b| == BLOCK && i <= 8 && c < 8
    ensures Take(Columns(b, i), c, 8) == if c < i then Take(b, c, 8) else Transform(Take(b, c, 8))
    decreases 8 - i
  {
    hide Transform, Put, Take;
    if i < 8 {
      var y := Transform(Take(b, i, 8));
      ColumnsGive(Put(b, i, 8, y), i + 1, c);
      TakePutColumn(b, i, y, c);
    }
  }

  /** The cosine sums of number `u` of the eight rows. */
  function RowSums(b: seq<int>, u: nat): (s: Octet)
    requires |b| == BLOCK && u < 8
  {
    var c := Cosines(u);
    Octet(Dot8(c, Take(b, 0, 1)), Dot8(c, Take(b, 8, 1)), Dot8(c, Take(b, 16, 1)), Dot8(c, Take(b, 24, 1)),
          Dot8(c, Take(b, 32, 1)), Dot8(c, Take(b, 40, 1)), Dot8(c, Take(b, 48, 1)), Dot8(c, Take(b, 56, 1)))
  }

  /** The cosine sum in both directions, on the scale of 2^32. */
  function BlockSum(b: seq<int>, v: nat, u: nat): (s: int)
    requires |b| == BLOCK && v < 8 && u < 8
  {
    Dot8(Cosines(v), RowSums(b, u))
  }

  ghost predicate AllNear(x: Octet, s: Octet, e: int) {
    && Near(x.v0, s.v0, e) && Near(x.v1, s.v1, e) && Near(x.v2, s.v2, e) && Near(x.v3, s.v3, e)
    && Near(x.v4, s.v4, e) && Near(x.v5, s.v5, e) && Near(x.v6, s.v6, e) && Near(x.v7, s.v7, e)
  }

  const COLUMN_WEIGHT: int := 658944

  function Weight(c: Octet): (w: nat) {
    Abs(c.v0) + Abs(c.v1) + Abs(c.v2) + Abs(c.v3) + Abs(c.v4) + Abs(c.v5) + Abs(c.v6) + Abs(c.v7)
  }

  lemma TermError(c: int, y: int, s: int, e: int)
    requires Near(y, s, e)
    ensures -(Abs(c) * e) <= 65536 * (c * y) - c * s <= Abs(c) * e
  {
    var d := 65536 * y - s;
    assert 65536 * (c * y) - c * s == c * d;
    if c >= 0 {
      MulMono(d, e, c);
      MulMono(-e, d, c);
    } else {
      MulMono(d, e, -c);
      MulMono(-e, d, -c);
    }
  }

  /** `p` is near `q` on the scale of 65536, with an error of `w`. */
  ghost predicate Off(p: int, q: int, w: int) {
    -w <= 65536 * p - q <= w
  }

  lemma OffSum(p: int, q: int, w: int, p': int, q': int, w': int)
    requires Off(p, q, w) && Off(p', q', w')
    ensures Off(p + p', q + q', w + w')
  {
  }

  lemma TermOff(p: int, q: int, w: int, c: int, y: int, s: int, e: int)
    requires Off(p, q, w * e) && Near(y, s, e)
    ensures Off(p + c * y, q + c * s, (w + Abs(c)) * e)
  {
    hide Abs, Near;
    TermError(c, y, s, e);
    assert (w + Abs(c)) * e == w * e + Abs(c) * e;
    OffSum(p, q, w * e, c * y, c * s, Abs(c) * e);
  }

  lemma DotError(c: Octet, x: Octet, s: Octet, e: int)
    requires AllNear(x, s, e)
    ensures Off(Dot8(c, x), Dot8(c, s), Weight(c) * e)
  {
    hide Near, Abs, Off;
    NothingOff(e);
    var w := 0;
    var p, q := 0, 0;
    TermOff(p, q, w, c.v0, x.v0, s.v0, e);
    p, q, w := p + c.v0 * x.v0, q + c.v0 * s.v0, w + Abs(c.v0);
    TermOff(p, q, w, c.v1, x.v1, s.v1, e);
    p, q, w := p + c.v1 * x.v1, q + c.v1 * s.v1, w + Abs(c.v1);
    TermOff(p, q, w, c.v2, x.v2, s.v2, e);
    p, q, w := p + c.v2 * x.v2, q + c.v2 * s.v2, w + Abs(c.v2);
    TermOff(p, q, w, c.v3, x.v3, s.v3, e);
    p, q, w := p + c.v3 * x.v3, q + c.v3 * s.v3, w + Abs(c.v3);
    TermOff(p, q, w, c.v4, x.v4, s.v4, e);
    p, q, w := p + c.v4 * x.v4, q + c.v4 * s.v4, w + Abs(c.v4);
    TermOff(p, q, w, c.v5, x.v5, s.v5, e);
    p, q, w := p + c.v5 * x.v5, q + c.v5 * s.v5, w + Abs(c.v5);
    TermOff(p, q, w, c.v6, x.v6, s.v6, e);
    p, q, w := p + c.v6 * x.v6, q + c.v6 * s.v6, w + Abs(c.v6);
    TermOff(p, q, w, c.v7, x.v7, s.v7, e);
  }

  lemma NothingOff(e: int)
    ensures Off(0, 0, 0 * e)
  {
  }

  lemma CosineWeight(v: nat)
    requires v < 8
    ensures Weight(Cosines(v)) <= COLUMN_WEIGHT
  {
    hide Cosines;
    match v
    case 0 => Row0();
    case 1 => Row1();
    case 2 => Row2();
    case 3 => Row3();
    case 4 => Row4();
    case 5 => Row5();
    case 6 => Row6();
    case 7 => Row7();
  }

  /** Errors of the inputs of a cosine sum add up to at most eleven times as much. */
  lemma DotNear(v: nat, x: Octet, s: Octet, e: int)
    requires v < 8 && AllNear(x, s, e) && e >= 0
    ensures Off(Dot8(Cosines(v), x), Dot8(Cosines(v), s), COLUMN_WEIGHT * e)
  {
    hide AllNear, Dot8, Cosines, Weight;
    DotError(Cosines(v), x, s, e);
    CosineWeight(v);
    MulMono(Weight(Cosines(v)), COLUMN_WEIGHT, e);
  }

  /** The transformed row at one place is near the cosine sum of its row. */
  lemma RowNear(b: seq<int>, i: nat, u: nat)
    requires |b| == BLOCK && i < 8 && u < 8 && RowsWithin(b, 0, 128, LARGEST)
    ensures Near(Nth(Take(Rows(b, 0), u, 8), i), Dot8(Cosines(u), Take(b, 8 * i, 1)), Error(128))
  {
    hide Rows, Transform, Take, Cosines, Dot8, Near, Error, RowsWithin;
    RowsGive(b, 0, i);
    NthIs(Rows(b, 0), u, 8, i);
    NthIs(Rows(b, 0), 8 * i, 1, u);
    RowWithin(b, i);
    TransformNear(Take(b, 8 * i, 1), 128, u);
  }

  lemma RowWithin(b: seq<int>, i: nat)
    requires i < 8 && RowsWithin(b, 0, 128, LARGEST)
    ensures |b| == BLOCK && AllWithin(Take(b, 8 * i, 1), 128)
  {
    hide Within;
  }

  lemma ColumnWithin(b: seq<int>, u: nat)
    requires u < 8 && RowsWithin(b, 8, 128, LARGEST)
    ensures |b| == BLOCK && AllWithin(Take(b, u, 8), LARGEST)
  {
    hide Within;
  }

  lemma AllRowsNear(b: seq<int>, u: nat)
    requires |b| == BLOCK && u < 8 && RowsWithin(b, 0, 128, LARGEST)
    ensures AllNear(Take(Rows(b, 0), u, 8), RowSums(b, u), Error(128))
  {
    hide Rows, Take, Cosines, Dot8, Near, Error, RowsWithin;
    RowNear(b, 0, u);
    RowNear(b, 1, u);
    RowNear(b, 2, u);
    RowNear(b, 3, u);
    RowNear(b, 4, u);
    RowNear(b, 5, u);
    RowNear(b, 6, u);
    RowNear(b, 7, u);
  }

  /** No coefficient is off by more than this, on the scale of 2^32: 57 units. */
  const BLOCK_ERROR: int := 57 * 0x1_0000_0000

  lemma Combine(y: int, dot: int, sum: int)
    requires Near(y, dot, Error(LARGEST))
    requires Off(dot, sum, COLUMN_WEIGHT * Error(128))
    ensures -BLOCK_ERROR <= 0x1_0000_0000 * y - sum <= BLOCK_ERROR
  {
  }

  /**
   The coefficient of vertical frequency `v` and horizontal frequency `u` is the cosine sum of the block in both
   directions, up to an error of 57.
   */
  lemma BlockNear(b: seq<int>, v: nat, u: nat)
    requires |b| == BLOCK && v < 8 && u < 8 && forall k :: 0 <= k < BLOCK ==> -128 <= b[k] <= 127
    ensures -BLOCK_ERROR <= 0x1_0000_0000 * Transformed(b)[8 * v + u] - BlockSum(b, v, u) <= BLOCK_ERROR
  {
    hide Rows, Columns, Transform, Take, Cosines, Dot8, Near, AllNear, Error, AllWithin, RowsWithin, RowSums, Off;
    SamplesWithin(b);
    RowsBound(b, 0);
    var r := Rows(b, 0);
    AllRowsNear(b, u);
    ColumnWithin(r, u);
    TransformNear(Take(r, u, 8), LARGEST, v);
    ErrorPositive();
    DotNear(v, Take(r, u, 8), RowSums(b, u), Error(128));
    ColumnsGive(r, 0, u);
    NthIs(Columns(r, 0), u, 8, v);
    Combine(Nth(Transform(Take(r, u, 8)), v), Dot8(Cosines(v), Take(r, u, 8)), BlockSum(b, v, u));
  }

  lemma ErrorPositive()
    ensures Error(128) >= 0
  {
  }

  lemma SamplesWithin(b: seq<int>)
    requires |b| == BLOCK && forall k :: 0 <= k < BLOCK ==> -128 <= b[k] <= 127
    ensures RowsWithin(b, 0, 128, LARGEST)
  {
  }
}
