/** Powers of two and most-significant-bit-first bit strings. */
module Bits {

  function Pow2(n: nat): (p: nat)
    ensures p >= 1
  {
    if n == 0 then 1 else 2 * Pow2(n - 1)
  }

  lemma {:induction false} Pow2Add(a: nat, b: nat)
    ensures Pow2(a + b) == Pow2(a) * Pow2(b)
  {
    if b != 0 {
      Pow2Add(a, b - 1);
    }
  }

  lemma {:induction false} Pow2Mono(a: nat, b: nat)
    requires a <= b
    ensures Pow2(a) <= Pow2(b)
  {
    if a < b {
      Pow2Mono(a, b - 1);
    }
  }

  /** The low `n` bits of `v`, most significant first. */
  function ToBits(v: nat, n: nat): (s: seq<bool>)
    ensures |s| == n
  {
    if n == 0 then [] else ToBits(v / 2, n - 1) + [v % 2 == 1]
  }

  /** The number a bit string denotes. */
  function FromBits(s: seq<bool>): (v: nat)
    ensures v < Pow2(|s|)
  {
    if s == [] then 0
    else 2 * FromBits(s[..|s| - 1]) + (if s[|s| - 1] then 1 else 0)
  }

  lemma FromBitsSnoc(s: seq<bool>, bit: bool)
    ensures FromBits(s + [bit]) == 2 * FromBits(s) + (if bit then 1 else 0)
  {
    assert (s + [bit])[..|s|] == s;
  }

  /** Writing a number in enough bits and reading it back is the identity. */
  lemma {:induction false} FromToBits(v: nat, n: nat)
    requires v < Pow2(n)
    ensures FromBits(ToBits(v, n)) == v
  {
    if n != 0 {
      FromToBits(v / 2, n - 1);
      FromBitsSnoc(ToBits(v / 2, n - 1), v % 2 == 1);
      hide FromBits;
    }
  }

  /** Shifting a number left and filling the gap appends its bit string. */
  lemma {:induction false} ToBitsAppend(v: nat, n: nat, w: nat, k: nat)
    requires w < Pow2(k)
    ensures ToBits(v * Pow2(k) + w, n + k) == ToBits(v, n) + ToBits(w, k)
  {
    if k == 0 {
      assert ToBits(v, n) + [] == ToBits(v, n);
    } else {
      var x := v * Pow2(k) + w;
      assert v * Pow2(k) == 2 * (v * Pow2(k - 1));
      assert x / 2 == v * Pow2(k - 1) + w / 2 && x % 2 == w % 2;
      ToBitsAppend(v, n, w / 2, k - 1);
      assert ToBits(v, n) + ToBits(w, k) == (ToBits(v, n) + ToBits(w / 2, k - 1)) + [w % 2 == 1];
    }
  }

  /** Only the low `n` bits of the number matter. */
  lemma {:induction false} ToBitsLow(v: nat, n: nat, h: nat)
    ensures ToBits(h * Pow2(n) + v, n) == ToBits(v, n)
  {
    if n != 0 {
      assert h * Pow2(n) == 2 * (h * Pow2(n - 1));
      assert (h * Pow2(n) + v) / 2 == h * Pow2(n - 1) + v / 2;
      ToBitsLow(v / 2, n - 1, h);
    }
  }

  lemma Assoc(a: seq<bool>, b: seq<bool>, c: seq<bool>)
    ensures a + (b + c) == a + b + c
  {
  }

  lemma MulDouble(a: int, p: int)
    ensures a * (2 * p) == 2 * (a * p)
  {
  }

  lemma MulMono(a: int, b: int, c: nat)
    requires a <= b
    ensures a * c <= b * c
  {
  }

  lemma DivMod(b: nat, d: nat)
    requires d > 0
    ensures b / d * d + b % d == b
  {
  }

  lemma MulDivExact(q: nat, d: nat, r: nat)
    requires r < d
    ensures (q * d + r) / d == q && (q * d + r) % d == r
  {
    var x := q * d + r;
    var e := x / d;
    assert x == e * d + x % d;
    if e < q {
      MulMono(e + 1, q, d);
    } else if e > q {
      MulMono(q + 1, e, d);
    }
  }

  /** If one bit string starts another, the longer number lies in the shorter one's interval. */
  lemma {:induction false} PrefixInterval(a: nat, n: nat, b: nat, k: nat)
    requires a < Pow2(n) && b < Pow2(n + k)
    requires ToBits(a, n) <= ToBits(b, n + k)
    ensures a * Pow2(k) <= b < (a + 1) * Pow2(k)
  {
    if k == 0 {
      FromToBits(a, n);
      FromToBits(b, n);
      assert ToBits(a, n) == ToBits(b, n);
    } else {
      PrefixInterval(a, n, b / 2, k - 1) by {
        assert ToBits(b, n + k)[..n + k - 1] == ToBits(b / 2, n + k - 1);
      }
      MulDouble(a, Pow2(k - 1));
      MulDouble(a + 1, Pow2(k - 1));
    }
  }
}
