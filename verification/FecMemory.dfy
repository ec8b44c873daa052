/** Bulk operations on buffers of field elements: blocks of eight bytes, one of four, and the rest. */
module FecMemory {
  import opened Gf256

  datatype Option<T> = None | Some(value: T)

  /** The buffer with `src` added to its first `bytes` elements. */
  function Added(dest: seq<Byte>, src: seq<Byte>, bytes: nat): (r: seq<Byte>)
    requires bytes <= |dest| && bytes <= |src|
    ensures |r| == |dest|
    ensures forall i :: 0 <= i < |dest| ==> r[i] == if i < bytes then Add(dest[i], src[i]) else dest[i]
  {
    seq(|dest|, i requires 0 <= i < |dest| => if i < bytes then Add(dest[i], src[i]) else dest[i])
  }

  /** Element-wise sum. */
  function Sum(x: seq<Byte>, y: seq<Byte>, bytes: nat): (r: seq<Byte>)
    requires bytes <= |x| && bytes <= |y|
    ensures |r| == bytes && forall i :: 0 <= i < bytes ==> r[i] == Add(x[i], y[i])
  {
    seq(bytes, i requires 0 <= i < bytes => Add(x[i], y[i]))
  }

  /** Element-wise product with a constant. */
  function Scaled(y: Byte, x: seq<Byte>, bytes: nat): (r: seq<Byte>)
    requires bytes <= |x|
    ensures |r| == bytes && forall i :: 0 <= i < bytes ==> r[i] == Mul(y, x[i])
  {
    seq(bytes, i requires 0 <= i < bytes => Mul(y, x[i]))
  }

  /** One word of memory: its bytes are changed together. */
  method XorWord(dest: array<Byte>, at: nat, word: seq<Byte>)
    requires at + |word| <= dest.Length
    modifies dest
    ensures forall i :: 0 <= i < dest.Length ==>
              dest[i] == if at <= i < at + |word| then Add(old(dest[i]), word[i - at]) else old(dest[i])
  {
    hide Add;
    for k := 0 to |word|
      invariant forall i :: 0 <= i < dest.Length ==>
                  dest[i] == if at <= i < at + k then Add(old(dest[i]), word[i - at]) else old(dest[i])
    {
      dest[at + k] := Add(dest[at + k], word[k]);
    }
  }

  /** The buffer is changed up to position `n` and not behind it. */
  twostate predicate AddedUpTo(dest: array<Byte>, src: seq<Byte>, n: nat)
    requires n <= |src|
    reads dest
  {
    forall i :: 0 <= i < dest.Length ==> dest[i] == if i < n then Add(old(dest[i]), src[i]) else old(dest[i])
  }

  /** Adds `src`, which stands for the values the inner loops compute block by block. */
  method AddBlocks(dest: array<Byte>, src: seq<Byte>)
    requires |src| <= dest.Length
    modifies dest
    ensures dest[..] == Added(old(dest[..]), src, |src|)
  {
    hide Add;
    var bytes := |src|;
    var at := 0;
    while bytes >= 8
      invariant 0 <= bytes && at + bytes == |src| && AddedUpTo(dest, src, at)
    {
      XorWord(dest, at, src[at..at + 8]);
      at, bytes := at + 8, bytes - 8;
    }
    if bytes >= 4 {
      XorWord(dest, at, src[at..at + 4]);
      at, bytes := at + 4, bytes - 4;
    }
    assert AddedUpTo(dest, src, at);
    AddTail(dest, src, at);
  }

  /** The last one to three bytes, from the highest down. */
  method AddTail(dest: array<Byte>, src: seq<Byte>, at: nat)
    requires at <= |src| <= at + 3 && |src| <= dest.Length
    modifies dest
    ensures forall i :: 0 <= i < dest.Length ==>
              dest[i] == if at <= i < |src| then Add(old(dest[i]), src[i]) else old(dest[i])
  {
    hide Add;
    var rest := |src| - at;
    if rest == 3 {
      dest[at + 2] := Add(dest[at + 2], src[at + 2]);
    }
    if rest >= 2 {
      dest[at + 1] := Add(dest[at + 1], src[at + 1]);
    }
    if rest >= 1 {
      dest[at] := Add(dest[at], src[at]);
    }
  }

  /** `dest += src` on the first `bytes` elements. */
  method AddMem(dest: array<Byte>, src: seq<Byte>, bytes: nat)
    requires bytes <= dest.Length && bytes <= |src|
    modifies dest
    ensures dest[..] == Added(old(dest[..]), src, bytes)
  {
    hide Add;
    AddBlocks(dest, src[..bytes]);
  }

  /** `dest += x + y` on the first `bytes` elements. */
  method Add2Mem(dest: array<Byte>, x: seq<Byte>, y: seq<Byte>, bytes: nat)
    requires bytes <= dest.Length && bytes <= |x| && bytes <= |y|
    modifies dest
    ensures dest[..] == Added(old(dest[..]), Sum(x, y, bytes), bytes)
  {
    AddBlocks(dest, Sum(x, y, bytes));
  }

  /** `dest += y * x` on the first `bytes` elements; the factors zero and one are special cases. */
  method MulAddMem(dest: array<Byte>, y: Byte, x: seq<Byte>, bytes: nat)
    requires bytes <= dest.Length && bytes <= |x|
    modifies dest
    ensures dest[..] == Added(old(dest[..]), Scaled(y, x, bytes), bytes)
  {
    hide Add, Mul;
    if y == Zero() || y == One() {
      ScaledByUnit(x, bytes, dest[..]);
      if y == One() {
        AddMem(dest, x, bytes);
      }
      return;
    }
    AddBlocks(dest, Scaled(y, x, bytes));
  }

  lemma ScaledByUnit(x: seq<Byte>, bytes: nat, dest: seq<Byte>)
    requires bytes <= |dest| && bytes <= |x|
    ensures Added(dest, Scaled(Zero(), x, bytes), bytes) == dest
    ensures Added(dest, Scaled(One(), x, bytes), bytes) == Added(dest, x, bytes)
  {
    hide Add, Mul;
    forall i | 0 <= i < bytes
      ensures Mul(Zero(), x[i]) == Zero() && Mul(One(), x[i]) == x[i] && Add(dest[i], Zero()) == dest[i]
    {
      MulUnits(x[i]);
      AddUnits(dest[i]);
    }
  }

  /** Sums buffers into a destination, two at a time: the first of a pair waits for the second. */
  class XorSummer {
    const dest: array<Byte>
    var waiting: Option<seq<Byte>>

    ghost predicate Valid()
      reads this
    {
      waiting.Some? ==> |waiting.value| == dest.Length
    }

    /** The sum the destination stands for. */
    ghost function Value(i: nat): (v: Byte)
      requires Valid() && i < dest.Length
      reads this, dest
    {
      Add(dest[i], if waiting.Some? then waiting.value[i] else Zero())
    }

    constructor (dest: array<Byte>)
      ensures this.dest == dest && Valid() && waiting == None
      ensures forall i :: 0 <= i < dest.Length ==> Value(i) == dest[i]
    {
      this.dest := dest;
      waiting := None;
      new;
      forall i | 0 <= i < dest.Length ensures Value(i) == dest[i] {
        AddUnits(dest[i]);
      }
    }

    /** Adds a buffer to the sum. */
    method AddBuffer(src: seq<Byte>)
      requires Valid() && |src| == dest.Length
      modifies this, dest
      ensures Valid() && forall i :: 0 <= i < dest.Length ==> Value(i) == Add(old(Value(i)), src[i])
    {
      hide Add;
      if waiting.Some? {
        var w := waiting.value;
        Add2Mem(dest, src, w, dest.Length);
        waiting := None;
        forall i | 0 <= i < dest.Length ensures Value(i) == Add(old(Value(i)), src[i]) {
          assert dest[..][i] == dest[i] && old(dest[..])[i] == old(dest[i]);
          AddUnits(dest[i]);
          AddCommutes(src[i], w[i]);
          AddAssoc(old(dest[i]), w[i], src[i]);
        }
      } else {
        waiting := Some(src);
        forall i | 0 <= i < dest.Length ensures Value(i) == Add(old(Value(i)), src[i]) {
          AddUnits(dest[i]);
        }
      }
    }

    /** Adds a shorter buffer directly; a waiting buffer does not matter. */
    method AddDirectly(src: seq<Byte>, bytes: nat)
      requires Valid() && bytes <= |src| && bytes <= dest.Length
      modifies dest
      ensures Valid() && forall i :: 0 <= i < dest.Length ==>
                Value(i) == Add(old(Value(i)), if i < bytes then src[i] else Zero())
    {
      hide Add;
      AddMem(dest, src, bytes);
      forall i | 0 <= i < dest.Length
        ensures Value(i) == Add(old(Value(i)), if i < bytes then src[i] else Zero())
      {
        var w := if waiting.Some? then waiting.value[i] else Zero();
        var x := if i < bytes then src[i] else Zero();
        assert dest[..][i] == dest[i] && old(dest[..])[i] == old(dest[i]);
        AddUnits(old(dest[i]));
        AddUnits(Add(old(dest[i]), w));
        AddAssoc(old(dest[i]), x, w);
        AddAssoc(old(dest[i]), w, x);
        AddCommutes(x, w);
      }
    }

    /** Brings a waiting buffer into the destination. */
    method Finalize()
      requires Valid()
      modifies dest
      ensures forall i :: 0 <= i < dest.Length ==> dest[i] == old(Value(i))
    {
      hide Add;
      if waiting.Some? {
        AddMem(dest, waiting.value, dest.Length);
        forall i | 0 <= i < dest.Length ensures dest[i] == old(Value(i)) {
          assert dest[..][i] == dest[i] && old(dest[..])[i] == old(dest[i]);
        }
      } else {
        forall i | 0 <= i < dest.Length ensures dest[i] == old(Value(i)) {
          AddUnits(dest[i]);
        }
      }
    }
  }
}
