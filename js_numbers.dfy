/**
 * The JavaScript number operations the detector relies on, stated on
 * mathematical integers and reals: ToInt32 and the 16-bit shifts used by the
 * fixed-point classifier, truncation by `| 0` / `>> 0`, signed bytes and
 * little-endian 32-bit integers read from a byte buffer.
 */
module JsNumbers {

  type byte = x: int | 0 <= x < 256

  const TWO_31: int := 0x8000_0000
  const TWO_32: int := 0x1_0000_0000

  predicate IsInt32(x: int) {
    -TWO_31 <= x < TWO_31
  }

  /** ECMAScript ToInt32 on an integral value: reduction modulo 2^32 into the signed range. */
  function ToInt32(x: int): (r: int)
    ensures IsInt32(r)
    ensures (x - r) % TWO_32 == 0
    ensures IsInt32(x) ==> r == x
  {
    (x + TWO_31) % TWO_32 - TWO_31
  }

  /** `x << 16`: the left operand is converted by ToInt32 and the 32-bit result wraps. */
  function ShiftLeft16(x: int): (r: int)
    ensures IsInt32(r)
    ensures IsInt32(x) && IsInt32(x * 65536) ==> r == x * 65536
  {
    ToInt32(ToInt32(x) * 65536)
  }

  /** `x >> 16`: sign-propagating shift of ToInt32(x). */
  function ShiftRight16(x: int): (r: int)
    ensures -32768 <= r < 32768
    ensures IsInt32(x) ==> r * 65536 <= x < r * 65536 + 65536
  {
    ToInt32(x) / 65536
  }

  /** Within the 32-bit range `x >> 16` is floor division by 65536. */
  lemma ShiftRightIsFloorDivision(x: int)
    requires IsInt32(x)
    ensures ShiftRight16(x) == x / 65536
  {
  }

  /** Truncation toward zero, the integral part kept by `x | 0` and `x >> 0` (the 32-bit wrap is not applied). */
  function Trunc(x: real): (r: int)
    ensures 0.0 <= x ==> 0 <= r && r as real <= x < r as real + 1.0
    ensures x < 0.0 ==> r <= 0 && r as real - 1.0 < x <= r as real
  {
    if x >= 0.0 then x.Floor else -((-x).Floor)
  }

  /** Value of a byte of an `Int8Array`: the raw byte read as two's complement. */
  function Int8(b: byte): (r: int)
    ensures -128 <= r < 128
    ensures r == b || r == b - 256
  {
    if b < 128 then b else b - 256
  }

  /** `DataView.getInt32(p, true)`: four bytes, least significant first, as a signed 32-bit integer. */
  function Int32LE(b0: byte, b1: byte, b2: byte, b3: byte): (r: int)
    ensures IsInt32(r)
  {
    ToInt32(b0 + 256 * b1 + 65536 * b2 + 16777216 * b3)
  }

  /** The byte `k` (0 = least significant) of the two's-complement encoding of x. */
  function ByteOf(x: int, k: nat): byte
    requires k < 4
  {
    var u := if x < 0 then x + TWO_32 else x;
    if k == 0 then u % 256
    else if k == 1 then (u / 256) % 256
    else if k == 2 then (u / 65536) % 256
    else (u / 16777216) % 256
  }

  /** Writing a 32-bit integer little-endian and reading it back with getInt32 gives it back. */
  lemma Int32RoundTrip(x: int)
    requires IsInt32(x)
    ensures Int32LE(ByteOf(x, 0), ByteOf(x, 1), ByteOf(x, 2), ByteOf(x, 3)) == x
  {
    var u := if x < 0 then x + TWO_32 else x;
    assert 0 <= u < TWO_32;
    var b0, b1, b2, b3 := u % 256, (u / 256) % 256, (u / 65536) % 256, (u / 16777216) % 256;
    assert u / 256 == 256 * ((u / 256) / 256) + b1;
    assert (u / 256) / 256 == u / 65536;
    assert u / 65536 == 256 * ((u / 65536) / 256) + b2;
    assert (u / 65536) / 256 == u / 16777216;
    assert u / 16777216 == b3;
    assert u == b0 + 256 * b1 + 65536 * b2 + 16777216 * b3;
  }

  /** 2^d. */
  function Pow2(d: nat): (r: nat)
    ensures r >= 1
  {
    if d == 0 then 1 else 2 * Pow2(d - 1)
  }

  lemma {:induction false} Pow2Monotonic(i: nat, j: nat)
    requires i <= j
    ensures Pow2(i) <= Pow2(j)
    decreases j
  {
    if i < j {
      Pow2Monotonic(i, j - 1);
    }
  }

  /** k blocks of b elements fit in n blocks when k <= n. */
  lemma BlocksFit(b: nat, k: nat, n: nat)
    requires k <= n
    ensures b * k <= b * n
  {
    var m := n - k;
    assert b * n == b * k + b * m;
  }

  function Min(x: int, y: int): int {
    if x <= y then x else y
  }

  function Max(x: int, y: int): int {
    if x >= y then x else y
  }
}
