/** Java's fixed-width integers and byte buffers, written out over Dafny's
    unbounded integers. */
module JavaTypes {

  const TWO_POW_31: int := 0x8000_0000
  const TWO_POW_32: int := 0x1_0000_0000
  const TWO_POW_63: int := 0x8000_0000_0000_0000

  /** An unsigned byte, as it sits in a `ByteBuffer`. */
  type Byte = x: int | 0 <= x < 256

  type Bytes = seq<Byte>

  /** A `ByteBuffer`'s content: a Java array holds fewer than 2^31 elements. */
  type ByteBuffer = b: Bytes | |b| < TWO_POW_31

  /** A Java `String`: fewer than 2^31 UTF-16 units; the model counts
      characters, which bounds the units from below. */
  type JavaString = s: string | |s| < TWO_POW_31

  /** A Java `List`: its `size()` is an `int`. */
  type JavaList<T> = s: seq<T> | |s| < TWO_POW_31 witness []

  /** Java `int`. */
  type Int32 = x: int | -TWO_POW_31 <= x < TWO_POW_31

  /** Java `long`. */
  type Int64 = x: int | -TWO_POW_63 <= x < TWO_POW_63

  predicate IsInt32(x: int) { -TWO_POW_31 <= x < TWO_POW_31 }

  /** Reduces any integer into the `int` range the way two's-complement
      arithmetic does. */
  function Wrap32(x: int): (r: Int32)
    ensures (r - x) % TWO_POW_32 == 0
    ensures IsInt32(x) ==> r == x
  {
    (x + TWO_POW_31) % TWO_POW_32 - TWO_POW_31
  }

  /** Java's `a + b` on two `int`s: the exact sum, wrapped around on overflow. */
  function AddInt32(a: Int32, b: Int32): (r: Int32)
    ensures r == Wrap32(a + b)
    ensures IsInt32(a + b) ==> r == a + b
    ensures a + b >= TWO_POW_31 ==> r == a + b - TWO_POW_32
    ensures a + b < -TWO_POW_31 ==> r == a + b + TWO_POW_32
  {
    var s := a + b;
    if s >= TWO_POW_31 then s - TWO_POW_32
    else if s < -TWO_POW_31 then s + TWO_POW_32
    else s
  }

  /** Two integers that differ by a multiple of 2^32 wrap to the same `int`. */
  lemma {:induction false} Wrap32Congruent(x: int, y: int)
    requires (x - y) % TWO_POW_32 == 0
    ensures Wrap32(x) == Wrap32(y)
  {
    var k := (x - y) / TWO_POW_32;
    assert x == y + k * TWO_POW_32;
    ModShift(y + TWO_POW_31, k);
  }

  lemma {:induction false} ModShift(a: int, k: int)
    ensures (a + k * TWO_POW_32) % TWO_POW_32 == a % TWO_POW_32
  {
    var q, r := a / TWO_POW_32, a % TWO_POW_32;
    assert a == q * TWO_POW_32 + r;
    assert a + k * TWO_POW_32 == (q + k) * TWO_POW_32 + r;
  }

  /** Java's `int` addition is associative, overflow included. */
  lemma {:induction false} AddInt32Associative(a: Int32, b: Int32, c: Int32)
    ensures AddInt32(AddInt32(a, b), c) == AddInt32(a, AddInt32(b, c))
  {
    Wrap32Congruent(AddInt32(a, b) + c, a + b + c);
    Wrap32Congruent(a + AddInt32(b, c), a + b + c);
  }

  /** Java's `int` addition is commutative. */
  lemma AddInt32Commutative(a: Int32, b: Int32)
    ensures AddInt32(a, b) == AddInt32(b, a)
  {
  }
}
