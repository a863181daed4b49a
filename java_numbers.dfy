/** Java's fixed-width integer types and the two conversions the output stream relies on:
    the wrap-around of a `long` counter and the low byte that `java.io.OutputStream.write(int)`
    keeps of its argument. */
module JavaNumbers {

  const TwoTo63: int := 0x8000_0000_0000_0000
  const TwoTo64: int := 0x1_0000_0000_0000_0000

  /** Java `byte` (signed, 8 bits). */
  newtype int8 = x: int | -0x80 <= x < 0x80
  /** Java `int` (signed, 32 bits). */
  newtype int32 = x: int | -0x8000_0000 <= x < 0x8000_0000
  /** Java `long` (signed, 64 bits). */
  newtype int64 = x: int | -0x8000_0000_0000_0000 <= x < 0x8000_0000_0000_0000

  /** The bit pattern of a Java `byte`, read as an unsigned number. */
  newtype byte = x: int | 0 <= x < 0x100

  /** A Java `float`, as its IEEE 754 binary32 bit pattern. */
  type Float = bv32
  /** A Java `double`, as its IEEE 754 binary64 bit pattern. */
  type Double = bv64

  /** The `long` that Java's two's-complement arithmetic yields for the mathematical value `x`:
      `x` itself when it fits, otherwise `x` moved by multiples of 2^64 until it does. */
  function Wrap64(x: int): (r: int64)
    ensures -TwoTo63 <= x < TwoTo63 ==> r as int == x
    decreases (if x >= TwoTo63 then x else 0) + (if x < -TwoTo63 then -x else 0)
  {
    if x >= TwoTo63 then Wrap64(x - TwoTo64)
    else if x < -TwoTo63 then Wrap64(x + TwoTo64)
    else x as int64
  }

  /** The wrapped value differs from `x` by a multiple of 2^64. */
  lemma {:induction false} WrapCongruent(x: int)
    ensures (Wrap64(x) as int - x) % TwoTo64 == 0
    decreases (if x >= TwoTo63 then x else 0) + (if x < -TwoTo63 then -x else 0)
  {
    if x >= TwoTo63 {
      WrapCongruent(x - TwoTo64);
      ModShift(Wrap64(x) as int - x, 1);
    } else if x < -TwoTo63 {
      WrapCongruent(x + TwoTo64);
      ModShift(Wrap64(x) as int - x, -1);
    }
  }

  /** Adding `n` to an already wrapped `long` wraps to the same value as adding it to the
      unwrapped one: a counter advanced step by step equals the wrapped grand total. */
  lemma WrapAdd(x: int, n: int)
    ensures Wrap64(Wrap64(x) as int + n) == Wrap64(x + n)
  {
    var w := Wrap64(x) as int;
    WrapCongruent(x);
    ModNegate(w - x);
    var k := (x - w) / TwoTo64;
    var v := Wrap64(w + n) as int;
    WrapCongruent(w + n);
    ModNegate(v - (w + n));
    var j := (w + n - v) / TwoTo64;
    assert v == x + n - (k + j) * TwoTo64;
    WrapUnique(x + n, v, k + j);
  }

  /** A value of the `long` range that differs from `x` by a multiple of 2^64 is `x` wrapped. */
  lemma WrapUnique(x: int, r: int, laps: int)
    requires -TwoTo63 <= r < TwoTo63
    requires r == x - laps * TwoTo64
    ensures Wrap64(x) as int == r
  {
    WrapCongruent(x);
    ModNegate(x - r);
    ModSum(Wrap64(x) as int - x, x - r);
    SameResidueInRange(Wrap64(x) as int, r);
  }

  /** Moving `y` by a multiple of 2^64 keeps its residue. */
  lemma ModShift(y: int, q: int)
    ensures (y - q * TwoTo64) % TwoTo64 == y % TwoTo64
  {
    var r := y % TwoTo64;
    var d := y / TwoTo64;
    assert y == d * TwoTo64 + r;
    assert y - q * TwoTo64 == (d - q) * TwoTo64 + r;
  }

  /** Multiples of 2^64 are closed under addition. */
  lemma ModSum(u: int, v: int)
    requires u % TwoTo64 == 0 && v % TwoTo64 == 0
    ensures (u + v) % TwoTo64 == 0
  {
    assert u == (u / TwoTo64) * TwoTo64;
    assert v == (v / TwoTo64) * TwoTo64;
    assert u + v == (u / TwoTo64 + v / TwoTo64) * TwoTo64;
  }

  /** Multiples of 2^64 are closed under negation. */
  lemma ModNegate(u: int)
    requires u % TwoTo64 == 0
    ensures (-u) % TwoTo64 == 0
  {
    assert u == (u / TwoTo64) * TwoTo64;
    assert -u == (-(u / TwoTo64)) * TwoTo64;
  }

  /** Two values of the `long` range that agree modulo 2^64 are equal. */
  lemma SameResidueInRange(a: int, b: int)
    requires -TwoTo63 <= a < TwoTo63 && -TwoTo63 <= b < TwoTo63
    requires (a - b) % TwoTo64 == 0
    ensures a == b
  {
    var q := (a - b) / TwoTo64;
    assert a - b == q * TwoTo64;
  }

  /** The byte `java.io.OutputStream.write(int b)` sends: the eight low-order bits of `b`. */
  function LowByte(b: int32): (r: byte)
    ensures (r as int - b as int) % 256 == 0
    ensures 0 <= b < 256 ==> r as int == b as int
  {
    (b as int % 256) as byte
  }

  /** The bit pattern of a Java `byte`: widening it to `int` and keeping the low byte gives
      back the byte's own two's-complement pattern. */
  lemma ByteWidening(v: int8)
    ensures LowByte(v as int32) as int == if v < 0 then v as int + 256 else v as int
  {
  }
}
