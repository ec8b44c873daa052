/** Prefix-free codes and the decoding of symbol sequences. */
module PrefixCode {

  /** A code word for each symbol of a finite alphabet. */
  type Code = map<nat, seq<bool>>

  datatype Option<T> = None | Some(value: T)

  ghost predicate PrefixFree(code: Code) {
    && (forall s :: s in code ==> code[s] != [])
    && (forall s, t :: s in code && t in code && s != t ==> !(code[s] <= code[t]))
  }

  /** The symbol whose code word starts `bits`. */
  ghost function DecodeSymbol(code: Code, bits: seq<bool>): (r: Option<nat>)
    ensures r.Some? ==> r.value in code && code[r.value] <= bits
    ensures r.None? ==> forall s :: s in code ==> !(code[s] <= bits)
  {
    if exists s :: s in code && code[s] <= bits
    then var s :| s in code && code[s] <= bits; Some(s)
    else None
  }

  lemma PrefixesComparable(a: seq<bool>, b: seq<bool>, c: seq<bool>)
    requires a <= c && b <= c
    ensures a <= b || b <= a
  {
    assert a == c[..|a|] && b == c[..|b|];
    if |a| <= |b| {
      assert b[..|a|] == a;
    } else {
      assert a[..|b|] == b;
    }
  }

  /** Decoding the code word of `s`, whatever follows it, gives `s`. */
  lemma DecodeEncoded(code: Code, s: nat, rest: seq<bool>)
    requires PrefixFree(code) && s in code
    ensures DecodeSymbol(code, code[s] + rest) == Some(s)
    ensures (code[s] + rest)[|code[s]|..] == rest
  {
    var bits := code[s] + rest;
    assert code[s] <= bits;
    var r := DecodeSymbol(code, bits);
    PrefixesComparable(code[r.value], code[s], bits);
  }

  /** The code words of a sequence of symbols, one after another. */
  function Encode(code: Code, syms: seq<nat>): (bits: seq<bool>)
    requires forall i :: 0 <= i < |syms| ==> syms[i] in code
  {
    if syms == [] then [] else code[syms[0]] + Encode(code, syms[1..])
  }

  /** Decodes `n` symbols; returns them and the remaining bits. */
  ghost function Decode(code: Code, bits: seq<bool>, n: nat): (r: Option<(seq<nat>, seq<bool>)>)
    ensures r.Some? ==> |r.value.0| == n
  {
    if n == 0 then Some(([], bits))
    else match DecodeSymbol(code, bits)
      case None => None
      case Some(s) =>
        match Decode(code, bits[|code[s]|..], n - 1)
        case None => None
        case Some(p) => Some(([s] + p.0, p.1))
  }

  lemma DecodeNext(code: Code, s: nat, tail: seq<bool>, syms: seq<nat>, rest: seq<bool>)
    requires PrefixFree(code) && s in code && Decode(code, tail, |syms|) == Some((syms, rest))
    ensures Decode(code, code[s] + tail, |syms| + 1) == Some(([s] + syms, rest))
  {
    DecodeEncoded(code, s, tail);
    hide PrefixFree, DecodeSymbol;
  }

  lemma EncodeNext(code: Code, syms: seq<nat>, rest: seq<bool>)
    requires syms != [] && forall i :: 0 <= i < |syms| ==> syms[i] in code
    ensures Encode(code, syms) + rest == code[syms[0]] + (Encode(code, syms[1..]) + rest)
  {
  }

  lemma NothingCoded(code: Code, rest: seq<bool>)
    ensures Encode(code, []) + rest == rest && Decode(code, rest, 0) == Some(([], rest))
  {
  }

  lemma {:induction false} DecodeEncode(code: Code, syms: seq<nat>, rest: seq<bool>)
    requires PrefixFree(code) && forall i :: 0 <= i < |syms| ==> syms[i] in code
    ensures Decode(code, Encode(code, syms) + rest, |syms|) == Some((syms, rest))
  {
    hide PrefixFree, Encode, Decode;
    if syms == [] {
      NothingCoded(code, rest);
    } else {
      EncodeNext(code, syms, rest);
      DecodeEncode(code, syms[1..], rest);
      DecodeNext(code, syms[0], Encode(code, syms[1..]) + rest, syms[1..], rest);
      assert [syms[0]] + syms[1..] == syms;
    }
  }
}
