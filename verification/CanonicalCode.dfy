/**
 Canonical code assignment (Annex C of ITU-T T.81): from counts and symbol order to the encoder's
 code and size tables.
 */
module CanonicalCode {
  import opened Bits
  import opened HuffmanTable
  import HuffmanTree
  import HuffmanOptimal
  import PrefixCode

  datatype DerivedTbl = DerivedTbl(co: seq<nat>, si: seq<nat>)

  /** `sizes` holds `b[1]` ones, then `b[2]` twos, and so on, up to length `l` (exclusive). */
  ghost predicate SizesUpTo(b: seq<nat>, sizes: seq<nat>, l: nat) {
    && |b| == 17 && b[0] == 0 && 1 <= l <= 17 && |sizes| == Total(b, l)
    && forall p :: 0 <= p < |sizes| ==>
         1 <= sizes[p] < l && Total(b, sizes[p]) <= p < Total(b, sizes[p] + 1)
  }

  /** Figure C.1: the code length of each position, or a panic when there are more than 256. */
  method GenerateSizes(bits: seq<nat>) returns (r: Result<seq<nat>>)
    requires |bits| == 17
    ensures r.Ok? <==> Total(bits[0 := 0], 17) <= 256
    ensures r.Ok? ==> SizesUpTo(bits[0 := 0], r.value, 17)
  {
    ghost var b := bits[0 := 0];
    var sizes: seq<nat> := [];
    assert Total(b, 1) == 0;
    var l: nat := 1;
    while l <= 16
      invariant SizesUpTo(b, sizes, l) && |sizes| <= 256
    {
      var i := bits[l];
      if |sizes| + i > 256 {
        TotalMono(b, l + 1, 17);
        return Panic;
      }
      ghost var start := |sizes|;
      while i > 0
        invariant i <= bits[l] && |sizes| == start + bits[l] - i
        invariant forall p :: 0 <= p < |sizes| ==>
                    1 <= sizes[p] < l + 1 && Total(b, sizes[p]) <= p < Total(b, sizes[p] + 1)
      {
        i := i - 1;
        sizes := sizes + [l];
      }
      l := l + 1;
    }
    r := Ok(sizes);
  }

  /** The canonical code word of position `p`. */
  function CodeAt(b: seq<nat>, sizes: seq<nat>, p: nat): (c: int)
    requires |b| == 17 && p < |sizes| && 1 <= sizes[p] <= 16
  {
    2 * Horner(b, sizes[p] - 1) + p - Total(b, sizes[p])
  }

  /** No length reaches its all-ones code word. */
  ghost predicate Roomy(b: seq<nat>) {
    |b| == 17 && forall l :: 1 <= l <= 16 ==> Horner(b, l) < Pow2(l)
  }

  /** No length below `l` reaches its all-ones code word. */
  ghost predicate RoomyTo(b: seq<nat>, l: nat) {
    |b| == 17 && 1 <= l <= 17 && forall k :: 1 <= k < l ==> Horner(b, k) < Pow2(k)
  }

  lemma RoomyNext(b: seq<nat>, l: nat)
    requires RoomyTo(b, l) && l <= 16 && Horner(b, l) < Pow2(l)
    ensures RoomyTo(b, l + 1)
  {
    hide Horner, Pow2;
  }

  lemma NotRoomy(b: seq<nat>, l: nat)
    requires |b| == 17 && 1 <= l <= 16 && Horner(b, l) >= Pow2(l)
    ensures !Roomy(b)
  {
    hide Horner, Pow2;
  }

  lemma SizesMono(b: seq<nat>, sizes: seq<nat>, p: nat, q: nat)
    requires SizesUpTo(b, sizes, 17) && p <= q < |sizes|
    ensures sizes[p] <= sizes[q]
  {
    if sizes[q] < sizes[p] {
      TotalMono(b, sizes[q] + 1, sizes[p]);
    }
  }

  /** The positions of length `l` are exactly those between the running totals. */
  lemma SizeAt(b: seq<nat>, sizes: seq<nat>, p: nat, l: nat)
    requires SizesUpTo(b, sizes, 17) && p < |sizes| && 1 <= l <= 16
    ensures sizes[p] == l <==> Total(b, l) <= p < Total(b, l + 1)
    ensures sizes[p] < l <==> p < Total(b, l)
  {
    if sizes[p] < l {
      TotalMono(b, sizes[p] + 1, l);
    } else if sizes[p] > l {
      TotalMono(b, l + 1, sizes[p]);
    }
  }

  lemma {:induction false} HornerIfNone(b: seq<nat>, l: nat)
    requires l < |b| && Total(b, l + 1) == 0
    ensures Horner(b, l) == 0
  {
    if l != 0 {
      HornerIfNone(b, l - 1);
    }
  }

  lemma {:induction false} NoneAbove(b: seq<nat>, l: nat, k: nat)
    requires l <= k < |b| && Total(b, l) == Total(b, |b|)
    ensures b[k] == 0
  {
    TotalMono(b, l, k);
    TotalMono(b, k + 1, |b|);
  }

  /** Running out of positions before length `l` leaves all longer lengths roomy too. */
  lemma RoomyRest(b: seq<nat>, l: nat)
    requires RoomyTo(b, l) && Total(b, l) == Total(b, 17) && b[0] == 0
    ensures Roomy(b)
  {
    forall k | 1 <= k <= 16 ensures Horner(b, k) < Pow2(k) {
      if k >= l {
        forall j | l - 1 < j <= k ensures b[j] == 0 {
          NoneAbove(b, l, j);
        }
        assert Horner(b, l - 1) < Pow2(l - 1);
        AboveStrict(b, k, l - 1);
      }
    }
  }

  /** Consecutive code words for the positions of one length. */
  method AssignLength(sizes: seq<nat>, codes0: seq<nat>, code0: nat, si: nat, ghost b: seq<nat>)
    returns (codes: seq<nat>, code: nat)
    requires SizesUpTo(b, sizes, 17) && 1 <= si <= 16 && |codes0| == Total(b, si)
    requires code0 == 2 * Horner(b, si - 1) && |codes0| <= |sizes|
    requires forall q :: 0 <= q < |codes0| ==> codes0[q] == CodeAt(b, sizes, q)
    ensures |codes| == Total(b, si + 1) <= |sizes| && code == Horner(b, si)
    ensures forall q :: 0 <= q < |codes| ==> codes[q] == CodeAt(b, sizes, q)
  {
    codes, code := codes0, code0;
    TotalMono(b, si + 1, 17);
    while |codes| < |sizes| && sizes[|codes|] == si
      invariant Total(b, si) <= |codes| <= Total(b, si + 1)
      invariant code == 2 * Horner(b, si - 1) + |codes| - Total(b, si)
      invariant forall q :: 0 <= q < |codes| ==> codes[q] == CodeAt(b, sizes, q)
      decreases |sizes| - |codes|
    {
      SizeAt(b, sizes, |codes|, si);
      codes, code := codes + [code], code + 1;
    }
    if |codes| < |sizes| {
      SizeAt(b, sizes, |codes|, si);
    }
  }

  /** The state before the first used length. */
  lemma FirstLength(b: seq<nat>, sizes: seq<nat>)
    requires SizesUpTo(b, sizes, 17) && |sizes| > 0
    ensures Total(b, sizes[0]) == 0 && Horner(b, sizes[0] - 1) == 0
    ensures RoomyTo(b, sizes[0])
  {
    var si := sizes[0];
    SizeAt(b, sizes, 0, si);
    HornerIfNone(b, si - 1);
    forall k | 1 <= k < si ensures Horner(b, k) < Pow2(k) {
      TotalMono(b, k + 1, si);
      HornerIfNone(b, k);
    }
  }

  /** Figure C.2: consecutive code words for each length; panics when a length overflows its code space. */
  method GenerateCodes(sizes: seq<nat>, ghost b: seq<nat>) returns (r: Result<seq<nat>>)
    requires SizesUpTo(b, sizes, 17)
    ensures r.Ok? <==> Roomy(b)
    ensures r.Ok? ==> |r.value| == |sizes|
                      && forall p :: 0 <= p < |sizes| ==> r.value[p] == CodeAt(b, sizes, p)
  {
    hide Horner, Pow2, RoomyTo, Roomy, CodeAt;
    var codes: seq<nat> := [];
    if |sizes| == 0 {
      NothingSized(b);
      return Ok(codes);
    }
    var code, si := 0, sizes[0];
    FirstLength(b, sizes);
    while |codes| < |sizes|
      invariant 1 <= si <= 17 && |codes| == Total(b, si) <= |sizes|
      invariant code == 2 * Horner(b, si - 1) && RoomyTo(b, si)
      invariant forall q :: 0 <= q < |codes| ==> codes[q] == CodeAt(b, sizes, q)
      decreases 17 - si
    {
      codes, code := AssignLength(sizes, codes, code, si, b);
      if code >= Pow2(si) {
        NotRoomy(b, si);
        return Panic;
      }
      RoomyNext(b, si);
      code := code * 2;
      si := si + 1;
    }
    RoomyRest(b, si);
    r := Ok(codes);
  }

  lemma NothingSized(b: seq<nat>)
    requires |b| == 17 && b[0] == 0 && Total(b, 17) == 0
    ensures Roomy(b)
  {
    TotalMono(b, 1, 17);
    RoomyRest(b, 1);
  }

  // ----- The tables -----

  /** What the symbol list must satisfy: in range, and no symbol listed twice. */
  ghost predicate ValsOk(vals: seq<nat>, m: nat, maxSymbol: nat) {
    && 0 < |vals| && m <= |vals| && (m == 0 ==> vals[0] <= maxSymbol)
    && (forall p :: 0 <= p < m ==> vals[p] <= maxSymbol)
    && (forall p, q :: 0 <= p < q < m ==> vals[p] != vals[q])
  }

  /** The derived table gives position `p`'s size and code to symbol `vals[p]` and nothing to others. */
  ghost predicate Derived(t: DerivedTbl, vals: seq<nat>, sizes: seq<nat>, codes: seq<nat>, m: nat) {
    && |t.co| == |t.si| == 256 && m <= |vals| && m <= |sizes| && m <= |codes|
    && (forall p :: 0 <= p < m ==> vals[p] < 256 && t.si[vals[p]] == sizes[p] && t.co[vals[p]] == codes[p])
    && (forall s :: 0 <= s < 256 && s !in vals[..m] ==> t.si[s] == 0)
  }

  /** Figure C.3: code and size indexed by symbol value; panics on a bad or repeated symbol. */
  method FillTables(vals: seq<nat>, sizes: seq<nat>, codes: seq<nat>, maxSymbol: nat)
    returns (r: Result<DerivedTbl>)
    requires |vals| == 256 && |sizes| == |codes| <= 256 && maxSymbol <= 255
    requires forall p :: 0 <= p < |sizes| ==> sizes[p] > 0
    ensures r.Ok? <==> ValsOk(vals, |sizes|, maxSymbol)
    ensures r.Ok? ==> Derived(r.value, vals, sizes, codes, |sizes|)
  {
    var t := DerivedTbl(seq(256, _ => 0), seq(256, _ => 0));
    var p := 0;
    NothingListed(t, vals, sizes, codes, maxSymbol);
    hide Listed, Derived, ValsOk;
    while true
      invariant 0 <= p && (p < |sizes| || p == |sizes| == 0) && |t.co| == |t.si| == 256
      invariant Listed(t, vals, sizes, codes, maxSymbol, p)
      decreases |sizes| - p
    {
      var i := vals[p];
      if i > maxSymbol || t.si[i] > 0 {
        BadSymbol(t, vals, sizes, codes, maxSymbol, p);
        return Panic;
      }
      if |sizes| == 0 {
        OnlyFirst(t, vals, sizes, codes, maxSymbol);
        return Ok(t.(co := t.co[i := 0], si := t.si[i := 0]));
      }
      ListedNext(t, vals, sizes, codes, maxSymbol, p);
      t := DerivedTbl(t.co[i := codes[p]], t.si[i := sizes[p]]);
      p := p + 1;
      if p >= |sizes| {
        break;
      }
    }
    AllListed(t, vals, sizes, codes, maxSymbol);
    r := Ok(t);
  }

  /** The first `p` symbols are in range, distinct and in the table. */
  ghost predicate Listed(t: DerivedTbl, vals: seq<nat>, sizes: seq<nat>, codes: seq<nat>, maxSymbol: nat, p: nat) {
    && Derived(t, vals, sizes, codes, p)
    && (forall q :: 0 <= q < p ==> vals[q] <= maxSymbol)
    && (forall q, q' :: 0 <= q < q' < p ==> vals[q] != vals[q'])
  }

  lemma NothingListed(t: DerivedTbl, vals: seq<nat>, sizes: seq<nat>, codes: seq<nat>, maxSymbol: nat)
    requires |t.co| == |t.si| == 256 && (forall s :: 0 <= s < 256 ==> t.si[s] == 0)
    ensures Listed(t, vals, sizes, codes, maxSymbol, 0)
  {
  }

  lemma BadSymbol(t: DerivedTbl, vals: seq<nat>, sizes: seq<nat>, codes: seq<nat>, maxSymbol: nat, p: nat)
    requires Listed(t, vals, sizes, codes, maxSymbol, p) && p < |vals| && (p < |sizes| || p == |sizes|  == 0)
    requires maxSymbol <= 255 && |t.si| == 256 && (vals[p] > maxSymbol || t.si[vals[p]] > 0)
    ensures !ValsOk(vals, |sizes|, maxSymbol)
  {
    if vals[p] <= maxSymbol {
      AlreadyListed(t, vals, sizes, codes, p);
    }
  }

  lemma OnlyFirst(t: DerivedTbl, vals: seq<nat>, sizes: seq<nat>, codes: seq<nat>, maxSymbol: nat)
    requires Listed(t, vals, sizes, codes, maxSymbol, 0) && |sizes| == 0 && 0 < |vals| && vals[0] <= maxSymbol <= 255
    ensures ValsOk(vals, 0, maxSymbol)
    ensures Derived(t.(co := t.co[vals[0] := 0], si := t.si[vals[0] := 0]), vals, sizes, codes, 0)
  {
  }

  lemma ListedNext(t: DerivedTbl, vals: seq<nat>, sizes: seq<nat>, codes: seq<nat>, maxSymbol: nat, p: nat)
    requires Listed(t, vals, sizes, codes, maxSymbol, p) && p < |vals| && p < |sizes| && p < |codes|
    requires vals[p] <= maxSymbol <= 255 && t.si[vals[p]] == 0 && forall q :: 0 <= q < |sizes| ==> sizes[q] > 0
    ensures Listed(DerivedTbl(t.co[vals[p] := codes[p]], t.si[vals[p] := sizes[p]]),
                   vals, sizes, codes, maxSymbol, p + 1)
  {
    DerivedStep(t, vals, sizes, codes, p);
    hide Derived;
  }

  lemma AllListed(t: DerivedTbl, vals: seq<nat>, sizes: seq<nat>, codes: seq<nat>, maxSymbol: nat)
    requires Listed(t, vals, sizes, codes, maxSymbol, |sizes|) && 0 < |sizes| <= |vals|
    ensures ValsOk(vals, |sizes|, maxSymbol) && Derived(t, vals, sizes, codes, |sizes|)
  {
    hide Derived;
  }

  lemma AlreadyListed(t: DerivedTbl, vals: seq<nat>, sizes: seq<nat>, codes: seq<nat>, p: nat)
    requires Derived(t, vals, sizes, codes, p) && p < |vals| && vals[p] < 256 && t.si[vals[p]] > 0
    ensures exists q :: 0 <= q < p && vals[q] == vals[p]
  {
    var q :| 0 <= q < p && vals[..p][q] == vals[p];
  }

  lemma DerivedStep(t: DerivedTbl, vals: seq<nat>, sizes: seq<nat>, codes: seq<nat>, p: nat)
    requires Derived(t, vals, sizes, codes, p) && p < |vals| && p < |sizes| && p < |codes|
    requires vals[p] < 256 && t.si[vals[p]] == 0 && forall q :: 0 <= q < |sizes| ==> sizes[q] > 0
    ensures Derived(DerivedTbl(t.co[vals[p] := codes[p]], t.si[vals[p] := sizes[p]]), vals, sizes, codes, p + 1)
    ensures forall q :: 0 <= q < p ==> vals[q] != vals[p]
  {
    assert vals[..p + 1] == vals[..p] + [vals[p]];
  }

  // ----- Prefix-freeness -----

  lemma {:induction false} HornerGrow(b: seq<nat>, l: nat, m: nat)
    requires l <= m < |b|
    ensures Horner(b, l) * Pow2(m - l) <= Horner(b, m)
  {
    if l < m {
      HornerGrow(b, l, m - 1);
      MulDouble(Horner(b, l), Pow2(m - 1 - l));
    }
  }

  /** Each code word fits its length and is never all ones. */
  lemma CodeInRange(b: seq<nat>, sizes: seq<nat>, p: nat)
    requires SizesUpTo(b, sizes, 17) && Roomy(b) && p < |sizes|
    ensures 0 <= CodeAt(b, sizes, p) < Horner(b, sizes[p]) <= Pow2(sizes[p]) - 1
  {
    assert Horner(b, sizes[p]) == 2 * Horner(b, sizes[p] - 1) + b[sizes[p]];
    assert Total(b, sizes[p] + 1) == Total(b, sizes[p]) + b[sizes[p]];
  }

  /** Code words of one length count up. */
  lemma SameLength(b: seq<nat>, sizes: seq<nat>, p: nat, q: nat)
    requires |b| == 17 && p < q < |sizes| && sizes[p] == sizes[q] && 1 <= sizes[p] <= 16
    ensures (CodeAt(b, sizes, p) + 1) * Pow2(sizes[q] - sizes[p]) <= CodeAt(b, sizes, q)
  {
    hide Horner, Total;
  }

  lemma LongerLength(b: seq<nat>, sizes: seq<nat>, p: nat, q: nat)
    requires SizesUpTo(b, sizes, 17) && Roomy(b) && p < q < |sizes| && sizes[p] < sizes[q]
    ensures 1 <= sizes[p] <= 16 && 1 <= sizes[q] <= 16
    ensures (CodeAt(b, sizes, p) + 1) * Pow2(sizes[q] - sizes[p]) <= CodeAt(b, sizes, q)
  {
    hide SizesUpTo, Roomy, CodeAt, Horner, Total;
    SizesInRange(b, sizes);
    CodeInRange(b, sizes, p);
    var l, m := sizes[p], sizes[q];
    HornerGrow(b, l, m - 1);
    MulDouble(Horner(b, l), Pow2(m - 1 - l));
    MulMono(CodeAt(b, sizes, p) + 1, Horner(b, l), Pow2(m - l));
    FromHorner(b, sizes, q);
  }

  lemma FromHorner(b: seq<nat>, sizes: seq<nat>, q: nat)
    requires SizesUpTo(b, sizes, 17) && q < |sizes|
    ensures CodeAt(b, sizes, q) >= 2 * Horner(b, sizes[q] - 1)
  {
    hide Horner;
  }

  /** Later code words lie above the interval of all extensions of an earlier one. */
  lemma CodesOrdered(b: seq<nat>, sizes: seq<nat>, p: nat, q: nat)
    requires SizesUpTo(b, sizes, 17) && Roomy(b) && p < q < |sizes|
    ensures sizes[p] <= sizes[q]
    ensures (CodeAt(b, sizes, p) + 1) * Pow2(sizes[q] - sizes[p]) <= CodeAt(b, sizes, q)
  {
    hide SizesUpTo, Roomy, CodeAt, Pow2;
    SizesMono(b, sizes, p, q);
    SizesInRange(b, sizes);
    if sizes[p] == sizes[q] {
      SameLength(b, sizes, p, q);
    } else {
      LongerLength(b, sizes, p, q);
    }
  }

  /** `c` of `m` bits lies above all extensions of `a` of `n` bits. */
  ghost predicate Beyond(a: int, n: nat, c: int, m: nat) {
    0 <= a < Pow2(n) && 0 <= c < Pow2(m) && n <= m && (a + 1) * Pow2(m - n) <= c
  }

  lemma NoPrefix(a: nat, n: nat, c: nat, m: nat)
    requires Beyond(a, n, c, m)
    ensures !(ToBits(a, n) <= ToBits(c, m))
    ensures !(ToBits(c, m) <= ToBits(a, n))
  {
    hide ToBits, Pow2;
    if ToBits(a, n) <= ToBits(c, m) {
      PrefixInterval(a, n, c, m - n);
    }
    if ToBits(c, m) <= ToBits(a, n) {
      LongerPrefix(ToBits(a, n), ToBits(c, m));
    }
  }

  lemma LongerPrefix(a: seq<bool>, b: seq<bool>)
    requires |a| <= |b| && b <= a
    ensures a <= b
  {
  }

  /** The code a derived table stands for: every symbol with a nonzero size. */
  function TableCode(t: DerivedTbl): (code: PrefixCode.Code)
    requires |t.co| == |t.si| == 256
  {
    map s: nat | 0 <= s < 256 && t.si[s] > 0 :: ToBits(t.co[s], t.si[s])
  }

  /** Derived tables are prefix-free codes. */
  lemma DerivedPrefixFree(t: DerivedTbl, b: seq<nat>, vals: seq<nat>, sizes: seq<nat>, codes: seq<nat>)
    requires SizesUpTo(b, sizes, 17) && Roomy(b) && |codes| == |sizes|
    requires forall p :: 0 <= p < |sizes| ==> codes[p] == CodeAt(b, sizes, p)
    requires Derived(t, vals, sizes, codes, |sizes|)
    ensures PrefixCode.PrefixFree(TableCode(t))
  {
    var m := |sizes|;
    var code := TableCode(t);
    forall s, s' | s in code && s' in code && s != s' ensures !(code[s] <= code[s']) {
      var p :| 0 <= p < m && vals[..m][p] == s;
      var q :| 0 <= q < m && vals[..m][q] == s';
      assert vals[p] == s && vals[q] == s';
      PairNoPrefix(b, sizes, p, q);
    }
  }

  lemma SizesInRange(b: seq<nat>, sizes: seq<nat>)
    requires SizesUpTo(b, sizes, 17)
    ensures |b| == 17 && forall p :: 0 <= p < |sizes| ==> 1 <= sizes[p] <= 16
  {
    hide Total;
  }

  lemma CodesBeyond(b: seq<nat>, sizes: seq<nat>, p: nat, q: nat)
    requires SizesUpTo(b, sizes, 17) && Roomy(b) && p < q < |sizes|
    ensures |b| == 17 && 1 <= sizes[p] <= 16 && 1 <= sizes[q] <= 16
    ensures Beyond(CodeAt(b, sizes, p), sizes[p], CodeAt(b, sizes, q), sizes[q])
  {
    SizesInRange(b, sizes);
    hide SizesUpTo, Roomy, CodeAt, Horner, Total, Pow2;
    CodeInRange(b, sizes, p);
    CodeInRange(b, sizes, q);
    CodesOrdered(b, sizes, p, q);
  }

  lemma OrderedNoPrefix(b: seq<nat>, sizes: seq<nat>, p: nat, q: nat)
    requires SizesUpTo(b, sizes, 17) && Roomy(b) && p < q < |sizes|
    ensures CodeAt(b, sizes, p) >= 0 && CodeAt(b, sizes, q) >= 0
    ensures !(ToBits(CodeAt(b, sizes, p), sizes[p]) <= ToBits(CodeAt(b, sizes, q), sizes[q]))
    ensures !(ToBits(CodeAt(b, sizes, q), sizes[q]) <= ToBits(CodeAt(b, sizes, p), sizes[p]))
  {
    CodesBeyond(b, sizes, p, q);
    InRange(CodeAt(b, sizes, p), sizes[p], CodeAt(b, sizes, q), sizes[q]);
    hide SizesUpTo, Roomy, CodeAt, ToBits, Beyond;
    NoPrefix(CodeAt(b, sizes, p), sizes[p], CodeAt(b, sizes, q), sizes[q]);
  }

  lemma InRange(a: int, n: nat, c: int, m: nat)
    requires Beyond(a, n, c, m)
    ensures a >= 0 && c >= 0
  {
  }

  lemma PairNoPrefix(b: seq<nat>, sizes: seq<nat>, p: nat, q: nat)
    requires SizesUpTo(b, sizes, 17) && Roomy(b) && p < |sizes| && q < |sizes| && p != q
    ensures CodeAt(b, sizes, p) >= 0 && CodeAt(b, sizes, q) >= 0
    ensures !(ToBits(CodeAt(b, sizes, p), sizes[p]) <= ToBits(CodeAt(b, sizes, q), sizes[q]))
  {
    SizesInRange(b, sizes);
    hide SizesUpTo, Roomy, CodeAt, ToBits;
    if p < q {
      OrderedNoPrefix(b, sizes, p, q);
    } else {
      OrderedNoPrefix(b, sizes, q, p);
    }
  }

  /** No code word of a table is all ones: there is room for padding. */
  ghost predicate NoAllOnes(t: DerivedTbl) {
    |t.co| == |t.si| == 256 && forall s :: 0 <= s < 256 && t.si[s] > 0 ==> t.co[s] < Pow2(t.si[s]) - 1
  }

  lemma DerivedNoAllOnes(t: DerivedTbl, b: seq<nat>, vals: seq<nat>, sizes: seq<nat>, codes: seq<nat>)
    requires SizesUpTo(b, sizes, 17) && Roomy(b) && |codes| == |sizes|
    requires forall p :: 0 <= p < |sizes| ==> codes[p] == CodeAt(b, sizes, p)
    requires Derived(t, vals, sizes, codes, |sizes|)
    ensures NoAllOnes(t)
    ensures forall s :: 0 <= s < 256 ==> t.si[s] <= 16
    ensures forall s :: 0 <= s < 256 ==> (t.si[s] > 0 <==> s in vals[..|sizes|])
  {
    var m := |sizes|;
    forall s | 0 <= s < 256
      ensures t.si[s] <= 16 && (t.si[s] > 0 <==> s in vals[..m]) && (t.si[s] > 0 ==> t.co[s] < Pow2(t.si[s]) - 1)
    {
      if s in vals[..m] {
        var p :| 0 <= p < m && vals[..m][p] == s;
        assert vals[p] == s;
        CodeInRange(b, sizes, p);
      }
    }
  }

  // ----- The canonical code -----

  /**
   The code of Figure C.2: the symbol at position `p` has the length of the class that `p` falls in; the first code
   word is zero, and each one is the one before plus one, with zeros appended up to its own length.
   */
  ghost predicate Canonical(t: DerivedTbl, b: seq<nat>, vals: seq<nat>) {
    && |t.co| == |t.si| == 256 && |b| == 17 && Total(b, 17) <= |vals|
    && Classed(t, b, vals, Total(b, 17)) && (Total(b, 17) > 0 ==> t.co[vals[0]] == 0)
    && Counting(t, vals, Total(b, 17))
  }

  ghost predicate Classed(t: DerivedTbl, b: seq<nat>, vals: seq<nat>, m: nat) {
    && |t.co| == |t.si| == 256 && |b| == 17 && m <= |vals|
    && forall p :: 0 <= p < m ==>
         vals[p] < 256 && 1 <= t.si[vals[p]] <= 16 && Total(b, t.si[vals[p]]) <= p < Total(b, t.si[vals[p]] + 1)
  }

  ghost predicate Counting(t: DerivedTbl, vals: seq<nat>, m: nat) {
    && |t.co| == |t.si| == 256 && m <= |vals| && (forall p :: 0 <= p < m ==> vals[p] < 256)
    && forall p, q :: 0 <= p < m && q == p + 1 < m ==>
         && t.si[vals[p]] <= t.si[vals[q]]
         && t.co[vals[q]] == (t.co[vals[p]] + 1) * Pow2(t.si[vals[q]] - t.si[vals[p]])
  }

  lemma {:induction false} HornerGap(b: seq<nat>, l: nat, k: nat)
    requires l <= k < |b| && forall j :: l < j <= k ==> b[j] == 0
    ensures Horner(b, k) == Horner(b, l) * Pow2(k - l)
  {
    if l < k {
      HornerGap(b, l, k - 1);
      MulDouble(Horner(b, l), Pow2(k - 1 - l));
    }
  }

  lemma ClassGap(b: seq<nat>, l: nat, m: nat)
    requires l < m <= |b| && Total(b, l + 1) == Total(b, m)
    ensures forall j :: l < j < m ==> b[j] == 0
  {
    forall j | l < j < m ensures b[j] == 0 {
      TotalMono(b, l + 1, j);
      TotalMono(b, j + 1, m);
    }
  }

  /** The position behind the last one of a class is the first one of the next class in use. */
  lemma NextClass(b: seq<nat>, sizes: seq<nat>, p: nat)
    requires SizesUpTo(b, sizes, 17) && p + 1 < |sizes| && sizes[p] < sizes[p + 1]
    ensures 1 <= sizes[p] && sizes[p + 1] <= 16 && |b| == 17
    ensures Total(b, sizes[p] + 1) == p + 1 == Total(b, sizes[p + 1])
  {
    SizesInRange(b, sizes);
    SizeAt(b, sizes, p, sizes[p]);
    SizeAt(b, sizes, p + 1, sizes[p]);
    SizeAt(b, sizes, p, sizes[p + 1]);
    SizeAt(b, sizes, p + 1, sizes[p + 1]);
    hide Total;
  }

  lemma NextCode(b: seq<nat>, sizes: seq<nat>, p: nat)
    requires SizesUpTo(b, sizes, 17) && p + 1 < |sizes|
    ensures |b| == 17 && 1 <= sizes[p] <= sizes[p + 1] <= 16
    ensures CodeAt(b, sizes, p + 1) == (CodeAt(b, sizes, p) + 1) * Pow2(sizes[p + 1] - sizes[p])
  {
    SizesInRange(b, sizes);
    SizesMono(b, sizes, p, p + 1);
    if sizes[p] < sizes[p + 1] {
      GapCode(b, sizes, p);
    }
  }

  lemma GapCode(b: seq<nat>, sizes: seq<nat>, p: nat)
    requires SizesUpTo(b, sizes, 17) && p + 1 < |sizes| && sizes[p] < sizes[p + 1]
    ensures |b| == 17 && 1 <= sizes[p] && sizes[p + 1] <= 16
    ensures CodeAt(b, sizes, p + 1) == (CodeAt(b, sizes, p) + 1) * Pow2(sizes[p + 1] - sizes[p])
  {
    hide SizesUpTo, Total, Horner, Pow2;
    NextClass(b, sizes, p);
    var l, m := sizes[p], sizes[p + 1];
    ClassGap(b, l, m);
    HornerGap(b, l, m - 1);
    LastOfClass(b, l);
    DoublePower(Horner(b, l), m - 1 - l);
  }

  lemma LastOfClass(b: seq<nat>, l: nat)
    requires 1 <= l < |b|
    ensures 2 * Horner(b, l - 1) + Total(b, l + 1) - Total(b, l) == Horner(b, l)
  {
  }

  lemma DoublePower(h: nat, n: nat)
    ensures 2 * (h * Pow2(n)) == h * Pow2(n + 1)
  {
    MulDouble(h, Pow2(n));
  }

  lemma DerivedClassed(t: DerivedTbl, b: seq<nat>, vals: seq<nat>, sizes: seq<nat>, codes: seq<nat>)
    requires SizesUpTo(b, sizes, 17) && Derived(t, vals, sizes, codes, |sizes|)
    ensures Classed(t, b, vals, |sizes|)
  {
    hide Total;
  }

  lemma DerivedNext(t: DerivedTbl, b: seq<nat>, vals: seq<nat>, sizes: seq<nat>, codes: seq<nat>, p: nat)
    requires SizesUpTo(b, sizes, 17) && p + 1 < |codes| == |sizes| && Derived(t, vals, sizes, codes, |sizes|)
    requires |b| == 17 && 1 <= sizes[p] <= 16 && 1 <= sizes[p + 1] <= 16
    requires codes[p] == CodeAt(b, sizes, p) && codes[p + 1] == CodeAt(b, sizes, p + 1)
    ensures |t.co| == |t.si| == 256 && p + 1 < |vals| && vals[p] < 256 && vals[p + 1] < 256
    ensures t.si[vals[p]] <= t.si[vals[p + 1]]
    ensures t.co[vals[p + 1]] == (t.co[vals[p]] + 1) * Pow2(t.si[vals[p + 1]] - t.si[vals[p]])
  {
    hide CodeAt, SizesUpTo, Pow2;
    NextCode(b, sizes, p);
  }

  lemma DerivedCounting(t: DerivedTbl, b: seq<nat>, vals: seq<nat>, sizes: seq<nat>, codes: seq<nat>)
    requires SizesUpTo(b, sizes, 17) && |codes| == |sizes|
    requires forall p :: 0 <= p < |sizes| ==> codes[p] == CodeAt(b, sizes, p)
    requires Derived(t, vals, sizes, codes, |sizes|)
    ensures Counting(t, vals, |sizes|)
  {
    hide SizesUpTo, CodeAt, Pow2, Derived;
    SizesInRange(b, sizes);
    DerivedInRange(t, vals, sizes, codes);
    forall p, q | 0 <= p < |sizes| && q == p + 1 < |sizes|
      ensures t.si[vals[p]] <= t.si[vals[q]]
      ensures t.co[vals[q]] == (t.co[vals[p]] + 1) * Pow2(t.si[vals[q]] - t.si[vals[p]])
    {
      DerivedNext(t, b, vals, sizes, codes, p);
    }
  }

  lemma DerivedInRange(t: DerivedTbl, vals: seq<nat>, sizes: seq<nat>, codes: seq<nat>)
    requires Derived(t, vals, sizes, codes, |sizes|)
    ensures |t.co| == |t.si| == 256 && |sizes| <= |vals| && forall p :: 0 <= p < |sizes| ==> vals[p] < 256
  {
  }

  lemma DerivedFirst(t: DerivedTbl, b: seq<nat>, vals: seq<nat>, sizes: seq<nat>, codes: seq<nat>)
    requires SizesUpTo(b, sizes, 17) && 0 < |sizes| == |codes| && Derived(t, vals, sizes, codes, |sizes|)
    requires |b| == 17 && 1 <= sizes[0] <= 16 && codes[0] == CodeAt(b, sizes, 0)
    ensures |t.co| == 256 && |vals| > 0 && vals[0] < 256 && t.co[vals[0]] == 0
  {
    hide SizesUpTo, Horner, Total, RoomyTo;
    FirstLength(b, sizes);
  }

  lemma DerivedCanonical(t: DerivedTbl, b: seq<nat>, vals: seq<nat>, sizes: seq<nat>, codes: seq<nat>)
    requires SizesUpTo(b, sizes, 17) && |codes| == |sizes|
    requires forall p :: 0 <= p < |sizes| ==> codes[p] == CodeAt(b, sizes, p)
    requires Derived(t, vals, sizes, codes, |sizes|)
    ensures Canonical(t, b, vals)
  {
    hide Horner, Pow2, CodeAt, Total, Derived, Classed, Counting;
    SizesInRange(b, sizes);
    DerivedInRange(t, vals, sizes, codes);
    DerivedClassed(t, b, vals, sizes, codes);
    DerivedCounting(t, b, vals, sizes, codes);
    if |sizes| > 0 {
      DerivedFirst(t, b, vals, sizes, codes);
    }
  }

  /**
   Derives the encoder's table from counts and symbols. It succeeds exactly when there are at most 256
   codes, no length overflows its code space, and the symbols are in range and distinct; the result is
   then a prefix-free code without all-ones code words for exactly the listed symbols.
   */
  method SetDerivedTbl(bits: seq<nat>, vals: seq<nat>, maxSymbol: nat) returns (r: Result<DerivedTbl>)
    requires |bits| == 17 && |vals| == 256 && maxSymbol <= 255
    ensures r.Ok? <==>
      && Total(bits[0 := 0], 17) <= 256 && Roomy(bits[0 := 0])
      && ValsOk(vals, Total(bits[0 := 0], 17), maxSymbol)
    ensures r.Ok? ==>
      && NoAllOnes(r.value) && PrefixCode.PrefixFree(TableCode(r.value))
      && (forall s :: 0 <= s < 256 ==> r.value.si[s] <= 16)
      && (forall s :: 0 <= s < 256 ==> (r.value.si[s] > 0 <==> s in vals[..Total(bits[0 := 0], 17)]))
    ensures r.Ok? ==> Canonical(r.value, bits[0 := 0], vals)
  {
    hide Canonical, Roomy, ValsOk, Derived, CodeAt, NoAllOnes, PrefixCode.PrefixFree, TableCode;
    ghost var b := bits[0 := 0];
    var sizes := GenerateSizes(bits);
    if sizes.Panic? {
      return Panic;
    }
    var codes := GenerateCodes(sizes.value, b);
    if codes.Panic? {
      return Panic;
    }
    r := FillTables(vals, sizes.value, codes.value, maxSymbol);
    if r.Ok? {
      DerivedPrefixFree(r.value, b, vals, sizes.value, codes.value);
      DerivedNoAllOnes(r.value, b, vals, sizes.value, codes.value);
      DerivedCanonical(r.value, b, vals, sizes.value, codes.value);
    }
  }

  /**
   Frequencies to code: it panics exactly when the table generator does; the derivation never panics. The
   code has a word of at most 16 bits for exactly the symbols that occur, or no words at all when the table
   came out empty because 256 symbols got lengths of one and nine bits.
   */
  method BuildCode(vals0: seq<nat>, freq: seq<nat>) returns (r: Result<DerivedTbl>)
    requires |freq| == 257 && |vals0| == 256 && InBytes(vals0)
    requires HuffmanTree.Sum(freq[256 := 1], 257) <= HuffmanTree.LIMIT
    ensures r.Panic? <==> Depth(freq) > MAX_LEN || AllEight(LengthsOf(freq))
    ensures r.Ok? ==>
      && NoAllOnes(r.value) && PrefixCode.PrefixFree(TableCode(r.value))
      && (forall s :: 0 <= s < 256 ==> r.value.si[s] <= 16)
      && TableCode(r.value).Keys == if OneAndNines(LengthsOf(freq)) then {} else Used(freq)
    ensures r.Ok? && !OneAndNines(LengthsOf(freq)) ==>
      && FollowsLengths(r.value.si, freq)
      && (Depth(freq) <= 16 ==> HasLengths(r.value.si, freq) && LeastBits(r.value.si, freq))
  {
    hide TableFor, EmptyTable, AllEight, OneAndNines, Depth, LengthsOf, NoAllOnes, PrefixCode.PrefixFree, Roomy, ValsOk,
         Sorted, InClass, Canonical, FollowsLengths, HasLengths, LeastBits, Total, TableCode, Used;
    var tbl := GenOptimalTable(vals0, freq);
    if tbl.Panic? {
      return Panic;
    }
    if OneAndNines(LengthsOf(freq)) {
      EmptyDerives(tbl.value);
    } else {
      TableDerives(tbl.value, freq);
    }
    r := SetDerivedTbl(tbl.value.bits, tbl.value.vals, 255);
    TableSizes(r.value);
    if OneAndNines(LengthsOf(freq)) {
      EmptyKeys(tbl.value, r.value);
    } else {
      TableKeys(tbl.value, freq, r.value);
      TableLengths(tbl.value, freq, r.value);
    }
  }

  lemma TableSizes(t: DerivedTbl)
    requires NoAllOnes(t)
    ensures |t.co| == |t.si| == 256
  {
  }

  /** A symbol that the merge loop gives a shorter length has no longer code word. */
  ghost predicate FollowsLengths(si: seq<nat>, freq: seq<nat>) {
    && |si| == 256 && |freq| == 257
    && forall s, u :: 0 <= s < 256 && 0 <= u < 256 && freq[s] > 0 && freq[u] > 0
                      && LengthOf(freq, s) < LengthOf(freq, u) ==>
         si[s] <= si[u]
  }

  /** The code word of every symbol that occurs has the length that the merge loop gives it. */
  ghost predicate HasLengths(si: seq<nat>, freq: seq<nat>) {
    && |si| == 256 && |freq| == 257
    && forall s :: 0 <= s < 256 && freq[s] > 0 ==> si[s] == LengthOf(freq, s)
  }

  /** The bits of a text with these frequencies. */
  function TotalBits(si: seq<nat>, freq: seq<nat>, k: nat): (n: nat)
    requires k <= |si| && k <= |freq|
  {
    if k == 0 then 0 else TotalBits(si, freq, k - 1) + freq[k - 1] * si[k - 1]
  }

  /**
   No lengths that satisfy Kraft's inequality, for the symbols that occur and the pseudo-symbol, give fewer bits in
   all than the code together with one pseudo-symbol.
   */
  ghost predicate LeastBits(si: seq<nat>, freq: seq<nat>) {
    && |si| == 256 && |freq| == 257
    && forall d: seq<nat> :: |d| == |LengthsOf(freq)| && HuffmanTree.KraftAll(d, |d|) <= 1.0 ==>
         TotalBits(si, freq, 256) + Depth(freq) <= HuffmanTree.TotalLength(Packed(freq[256 := 1], 257), d)
  }

  lemma OneClass(b: seq<nat>, p: nat, l: nat, l': nat)
    requires l < |b| && l' < |b| && Total(b, l) <= p < Total(b, l + 1) && Total(b, l') <= p < Total(b, l' + 1)
    ensures l == l'
  {
    hide Total;
    if l < l' {
      TotalMono(b, l + 1, l');
    } else if l' < l {
      TotalMono(b, l' + 1, l);
    }
  }

  lemma ClassesFollow(b: seq<nat>, p: nat, q: nat, l: nat, l': nat)
    requires l < |b| && l' < |b| && p <= q && Total(b, l) <= p < Total(b, l + 1) && Total(b, l') <= q < Total(b, l' + 1)
    ensures l <= l'
  {
    hide Total;
    if l' < l {
      TotalMono(b, l' + 1, l);
    }
  }

  lemma PositionOf(t: HuffTbl, freq: seq<nat>, s: nat) returns (p: nat)
    requires TableFor(t, freq) && s < 256 && freq[s] > 0
    ensures |t.bits| == 17 && p < Total(t.bits, 17) <= |t.vals| && t.vals[p] == s
  {
    hide Total;
    p :| 0 <= p < Total(t.bits, 17) && t.vals[..Total(t.bits, 17)][p] == s;
  }

  lemma TableFollows(t: HuffTbl, freq: seq<nat>, d: DerivedTbl)
    requires TableFor(t, freq) && Canonical(d, t.bits, t.vals) && Sorted(t.vals, Total(t.bits, 17), freq)
    ensures FollowsLengths(d.si, freq)
  {
    hide TableFor, Total, LengthOf, Pow2, Counting;
    UsedSizes(t, freq);
    forall s, u | 0 <= s < 256 && 0 <= u < 256 && freq[s] > 0 && freq[u] > 0 && LengthOf(freq, s) < LengthOf(freq, u)
      ensures d.si[s] <= d.si[u]
    {
      var p := PositionOf(t, freq, s);
      var q := PositionOf(t, freq, u);
      ClassesFollow(t.bits, p, q, d.si[s], d.si[u]);
    }
  }

  lemma UsedSizes(t: HuffTbl, freq: seq<nat>)
    requires TableFor(t, freq)
    ensures |t.bits| == 17 && |freq| == 257 && |t.vals| == 256
  {
    hide Total;
  }

  lemma TableHas(t: HuffTbl, freq: seq<nat>, d: DerivedTbl)
    requires TableFor(t, freq) && Canonical(d, t.bits, t.vals) && InClass(t.bits, t.vals, Total(t.bits, 17), freq)
    ensures HasLengths(d.si, freq)
  {
    hide TableFor, Total, LengthOf, Pow2;
    UsedSizes(t, freq);
    forall s | 0 <= s < 256 && freq[s] > 0 ensures d.si[s] == LengthOf(freq, s) {
      var p := PositionOf(t, freq, s);
      OneClass(t.bits, p, d.si[s], LengthOf(freq, s));
    }
  }

  lemma TableLengths(t: HuffTbl, freq: seq<nat>, d: DerivedTbl)
    requires TableFor(t, freq) && Canonical(d, t.bits, t.vals)
    requires HuffmanTree.Sum(freq[256 := 1], 257) <= HuffmanTree.LIMIT
    requires Total(t.bits, 17) == |LengthsOf(freq)| - 1 && Sorted(t.vals, Total(t.bits, 17), freq)
    requires Depth(freq) <= 16 ==> InClass(t.bits, t.vals, Total(t.bits, 17), freq)
    ensures FollowsLengths(d.si, freq)
    ensures Depth(freq) <= 16 ==> HasLengths(d.si, freq) && LeastBits(d.si, freq)
  {
    hide TableFor, Canonical, Sorted, InClass, FollowsLengths, HasLengths, LeastBits, Total, LengthsOf, Depth;
    UsedSizes(t, freq);
    TableFollows(t, freq, d);
    if Depth(freq) <= 16 {
      TableHas(t, freq, d);
      LengthsLeast(d.si, freq);
    }
  }

  // ----- The least number of bits -----

  lemma {:induction false} EntriesLive(freq: seq<nat>, k: nat, i: nat)
    requires i < k <= |freq|
    ensures freq[i] <= HuffmanTree.Sum(freq, k)
  {
    if i < k - 1 {
      EntriesLive(freq, k - 1, i);
    }
  }

  lemma CostNext(w: seq<nat>, cs: seq<nat>, x: nat)
    requires |w| == |cs| && x < |w| && w[x] <= HuffmanTree.LIMIT
    ensures HuffmanOptimal.Cost(w, HuffmanTree.LIMIT, cs, x + 1)
         == HuffmanOptimal.Cost(w, HuffmanTree.LIMIT, cs, x) + w[x] * cs[x]
  {
  }

  lemma PackedStep(f: seq<nat>, k: nat)
    requires k < |f|
    ensures |Packed(f, k)| <= |Packed(f, k + 1)| <= |Packed(f, |f|)|
    ensures if f[k] == 0 then Packed(f, k + 1) == Packed(f, k)
            else |Packed(f, k + 1)| == |Packed(f, k)| + 1 && Packed(f, |f|)[|Packed(f, k)|] == f[k]
  {
    PackedPrefix(f, k + 1, |f|);
    var x := |Packed(f, k)|;
    assert f[k] > 0 ==> Packed(f, k + 1)[x] == f[k];
  }

  /** The bits of the symbols below `k` are the cost of the entries packed from them. */
  lemma {:induction false} BitsAreCost(si: seq<nat>, freq: seq<nat>, f: seq<nat>, k: nat)
    requires HasLengths(si, freq) && f == freq[256 := 1] && k <= 256 && |Packed(f, 257)| == |LengthsOf(freq)|
    requires HuffmanTree.Sum(f, 257) <= HuffmanTree.LIMIT
    ensures |Packed(f, k)| <= |Packed(f, 257)|
    ensures TotalBits(si, freq, k)
         == HuffmanOptimal.Cost(Packed(f, 257), HuffmanTree.LIMIT, LengthsOf(freq), |Packed(f, k)|)
  {
    hide LengthsOf, Packed, HuffmanTree.Sum, HuffmanOptimal.Cost;
    if k == 0 {
      NothingPacked(f, LengthsOf(freq));
    } else {
      BitsAreCost(si, freq, f, k - 1);
      PackedStep(f, k - 1);
      EntriesLive(f, 257, k - 1);
      if f[k - 1] > 0 {
        CostNext(Packed(f, 257), LengthsOf(freq), |Packed(f, k - 1)|);
      }
    }
  }

  lemma NothingPacked(f: seq<nat>, cs: seq<nat>)
    requires |f| == 257 && |cs| == |Packed(f, 257)|
    ensures Packed(f, 0) == [] && HuffmanOptimal.Cost(Packed(f, 257), HuffmanTree.LIMIT, cs, 0) == 0
  {
    hide Packed;
    NonePacked(f);
  }

  lemma NonePacked(f: seq<nat>)
    ensures Packed(f, 0) == []
  {
  }

  lemma {:induction false} PackedPrefix(f: seq<nat>, k: nat, n: nat)
    requires k <= n <= |f|
    ensures Packed(f, k) <= Packed(f, n)
  {
    if k < n {
      PackedPrefix(f, k, n - 1);
    }
  }

  lemma LengthsLeast(si: seq<nat>, freq: seq<nat>)
    requires HasLengths(si, freq) && HuffmanTree.Sum(freq[256 := 1], 257) <= HuffmanTree.LIMIT
    ensures LeastBits(si, freq)
  {
    hide HuffmanTree.Lengths, TotalBits, HuffmanTree.KraftAll, HuffmanTree.MinWeight, HuffmanOptimal.Cost,
         HuffmanTree.Sum;
    var f := freq[256 := 1];
    var w, cs := Packed(f, 257), LengthsOf(freq);
    LastPacked(f);
    SumPacked(f, 257);
    HuffmanTree.LengthsGood(w);
    BitsAreCost(si, freq, f, 256);
    LastCost(w, cs);
    hide Packed;
  }

  lemma LastPacked(f: seq<nat>)
    requires |f| == 257 && f[256] == 1
    ensures Packed(f, 257) == Packed(f, 256) + [1]
  {
  }

  lemma LastCost(w: seq<nat>, cs: seq<nat>)
    requires |w| == |cs| > 0 && w[|w| - 1] == 1
    ensures HuffmanOptimal.Cost(w, HuffmanTree.LIMIT, cs, |w|)
         == HuffmanOptimal.Cost(w, HuffmanTree.LIMIT, cs, |w| - 1) + cs[|cs| - 1]
  {
  }

  /** The symbols that occur. */
  function Used(freq: seq<nat>): (u: set<nat>)
    requires |freq| == 257
  {
    set s: nat | 0 <= s < 256 && freq[s] > 0
  }

  lemma EmptyDerives(t: HuffTbl)
    requires EmptyTable(t) && InBytes(t.vals)
    ensures |t.bits| == 17 && |t.vals| == 256
    ensures Total(t.bits[0 := 0], 17) == 0 && Roomy(t.bits[0 := 0]) && ValsOk(t.vals, 0, 255)
  {
    TotalZero(t.bits[0 := 0], 17);
    forall l | 1 <= l <= 16 ensures Horner(t.bits[0 := 0], l) < Pow2(l) {
      HornerZero(t.bits[0 := 0], l);
    }
  }

  lemma TableDerives(t: HuffTbl, freq: seq<nat>)
    requires TableFor(t, freq) && InBytes(t.vals)
    ensures |t.bits| == 17 && |t.vals| == 256 && t.bits[0 := 0] == t.bits
    ensures Total(t.bits, 17) <= 256 && Roomy(t.bits) && ValsOk(t.vals, Total(t.bits, 17), 255)
  {
    hide Horner, Total, Pow2;
  }

  lemma EmptyKeys(t: HuffTbl, d: DerivedTbl)
    requires EmptyTable(t) && |d.co| == |d.si| == 256 && |t.bits| == 17 && |t.vals| == 256
    requires Total(t.bits[0 := 0], 17) == 0
    requires forall s :: 0 <= s < 256 ==> (d.si[s] > 0 <==> s in t.vals[..0])
    ensures TableCode(d).Keys == {}
  {
  }

  lemma TableKeys(t: HuffTbl, freq: seq<nat>, d: DerivedTbl)
    requires TableFor(t, freq) && |d.co| == |d.si| == 256 && Total(t.bits, 17) <= |t.vals|
    requires forall s :: 0 <= s < 256 ==> (d.si[s] > 0 <==> s in t.vals[..Total(t.bits, 17)])
    ensures TableCode(d).Keys == Used(freq)
  {
    hide Horner, Total, Pow2, ToBits;
    var m := Total(t.bits, 17);
    assert forall s :: s in t.vals[..m] ==> s < 256 && freq[s] > 0;
  }
}
