/** Results, options, bytes and big-endian integers shared by the other modules. */
module Prelude {

  datatype Option<+T> = None | Some(value: T)

  datatype Result<+T, +E> = Ok(value: T) | Err(error: E) {
    predicate IsFailure() {
      Err?
    }

    function PropagateFailure<U>(): Result<U, E>
      requires Err?
    {
      Err(error)
    }

    function Extract(): T
      requires Ok?
    {
      value
    }
  }

  type byte = x: int | 0 <= x < 256
  type Bytes = seq<byte>

  const U16_LIMIT: nat := 0x1_0000
  const U32_LIMIT: nat := 0x1_0000_0000
  const U64_LIMIT: nat := 0x1_0000_0000_0000_0000

  function Min(a: int, b: int): int {
    if a < b then a else b
  }

  /** The `size` low-order bytes of `value`, most significant first. */
  function BigEndian(value: nat, size: nat): (b: Bytes)
    ensures |b| == size
  {
    if size == 0 then [] else BigEndian(value / 256, size - 1) + [value % 256]
  }

  function FromBigEndian(b: Bytes): nat {
    if b == [] then 0 else FromBigEndian(b[..|b| - 1]) * 256 + b[|b| - 1]
  }

  function Pow256(n: nat): (p: nat)
    ensures p > 0
  {
    if n == 0 then 1 else 256 * Pow256(n - 1)
  }

  lemma PowValues()
    ensures Pow256(1) == 256 && Pow256(2) == U16_LIMIT && Pow256(4) == U32_LIMIT && Pow256(8) == U64_LIMIT
  {
    assert Pow256(3) == 256 * Pow256(2);
    assert Pow256(5) == 256 * Pow256(4);
    assert Pow256(6) == 256 * Pow256(5);
    assert Pow256(7) == 256 * Pow256(6);
  }

  lemma {:induction false} BigEndianDecodes(value: nat, size: nat)
    requires value < Pow256(size)
    ensures FromBigEndian(BigEndian(value, size)) == value
  {
    if size > 0 {
      BigEndianDecodes(value / 256, size - 1);
      var b := BigEndian(value, size);
      assert b[..|b| - 1] == BigEndian(value / 256, size - 1);
    }
  }

  lemma {:induction false} BigEndianEncodes(b: Bytes)
    ensures FromBigEndian(b) < Pow256(|b|)
    ensures BigEndian(FromBigEndian(b), |b|) == b
  {
    if b != [] {
      BigEndianEncodes(b[..|b| - 1]);
      assert b == b[..|b| - 1] + [b[|b| - 1]];
    }
  }

  /** Integers of 2, 4 and 8 bytes survive the round trip through their encoding. */
  lemma IntegersDecode(value: nat)
    ensures value < U16_LIMIT ==> FromBigEndian(BigEndian(value, 2)) == value
    ensures value < U32_LIMIT ==> FromBigEndian(BigEndian(value, 4)) == value
    ensures value < U64_LIMIT ==> FromBigEndian(BigEndian(value, 8)) == value
  {
    PowValues();
    if value < U16_LIMIT { BigEndianDecodes(value, 2); }
    if value < U32_LIMIT { BigEndianDecodes(value, 4); }
    if value < U64_LIMIT { BigEndianDecodes(value, 8); }
  }

  lemma {:induction false} SubsetSize<T>(a: set<T>, b: set<T>)
    requires a <= b
    ensures |a| <= |b| && (a != b ==> |a| < |b|)
  {
    if a != {} {
      var x :| x in a;
      SubsetSize(a - {x}, b - {x});
    }
  }

  /** Concatenation of a list of byte strings. */
  function Concat(parts: seq<Bytes>): Bytes {
    if parts == [] then [] else parts[0] + Concat(parts[1..])
  }

  lemma {:induction false} ConcatSplits(a: seq<Bytes>, b: seq<Bytes>)
    ensures Concat(a + b) == Concat(a) + Concat(b)
    decreases |a|
  {
    if a == [] {
      assert a + b == b;
    } else {
      ConcatSplits(a[1..], b);
      assert (a + b)[1..] == a[1..] + b;
    }
  }
}
