/** Fixed-width C integers as they behave on the ARM Cortex-M target of the
    firmware (GCC, 32-bit `int` and `long`).

    Dafny's `int` is unbounded and its `/` and `%` are Euclidean, so every C
    operator the firmware relies on is written out here:
    - `/` and `%` truncate toward zero (ISO/IEC 9899:1999 section 6.5.5);
    - `>>` on a negative signed value is an arithmetic (floor) shift on GCC
      (implementation-defined in section 6.5.7);
    - signed overflow and out-of-range signed conversions wrap modulo 2^32,
      which is what the generated code does (C calls the former undefined). */
module CInt {

  type uint8 = x: int | 0 <= x < 0x100
  type uint16 = x: int | 0 <= x < 0x1_0000
  type int16 = x: int | -0x8000 <= x < 0x8000
  type uint32 = x: int | 0 <= x < 0x1_0000_0000
  type int32 = x: int | -0x8000_0000 <= x < 0x8000_0000

  const INT32_MIN: int := -0x8000_0000
  const INT32_MAX: int := 0x7FFF_FFFF

  predicate InInt32(x: int) { INT32_MIN <= x <= INT32_MAX }

  /** 2^n for the shift amounts a 32-bit value admits. */
  function Pow2(n: nat): (r: nat)
    requires n <= 32
    ensures r >= 1
  {
    match n
      case 0 => 0x1
      case 1 => 0x2
      case 2 => 0x4
      case 3 => 0x8
      case 4 => 0x10
      case 5 => 0x20
      case 6 => 0x40
      case 7 => 0x80
      case 8 => 0x100
      case 9 => 0x200
      case 10 => 0x400
      case 11 => 0x800
      case 12 => 0x1000
      case 13 => 0x2000
      case 14 => 0x4000
      case 15 => 0x8000
      case 16 => 0x10000
      case 17 => 0x20000
      case 18 => 0x40000
      case 19 => 0x80000
      case 20 => 0x100000
      case 21 => 0x200000
      case 22 => 0x400000
      case 23 => 0x800000
      case 24 => 0x1000000
      case 25 => 0x2000000
      case 26 => 0x4000000
      case 27 => 0x8000000
      case 28 => 0x10000000
      case 29 => 0x20000000
      case 30 => 0x40000000
      case 31 => 0x80000000
      case _ => 0x1_0000_0000
  }

  /** 10^n. */
  function Pow10(n: nat): (r: nat)
    ensures r >= 1
  {
    if n == 0 then 1 else 10 * Pow10(n - 1)
  }

  /** C's `a / b`: the quotient truncated toward zero. */
  function CDiv(a: int, b: int): int
    requires b != 0
  {
    if a >= 0 then (if b > 0 then a / b else -(a / -b))
    else (if b > 0 then -((-a) / b) else (-a) / (-b))
  }

  /** C's `a % b`: the remainder that goes with `CDiv`, with the sign of `a`. */
  function CMod(a: int, b: int): int
    requires b != 0
  {
    a - b * CDiv(a, b)
  }

  /** What C promises of `/` and `%` (section 6.5.5): `(a/b)*b + a%b == a`,
      the remainder is smaller than the divisor in magnitude and never has
      the opposite sign of the dividend, and the quotient is `a/b` with its
      fractional part discarded. */
  lemma CDivModSpec(a: int, b: int)
    requires b != 0
    ensures CDiv(a, b) * b + CMod(a, b) == a
    ensures a >= 0 ==> 0 <= CMod(a, b) < (if b > 0 then b else -b)
    ensures a < 0 ==> -(if b > 0 then b else -b) < CMod(a, b) <= 0
    ensures a >= 0 && b > 0 ==> CDiv(a, b) == a / b
  {
    var n, d := if a >= 0 then a else -a, if b > 0 then b else -b;
    EuclidNat(n, d);
  }

  lemma EuclidNat(n: nat, d: int)
    requires d > 0
    ensures 0 <= n % d < d && n == d * (n / d) + n % d
  {
  }

  /** Signed `x >> n` on GCC: shifting right rounds toward minus infinity. */
  function Asr(x: int32, n: nat): int32
    requires n <= 32
  {
    FloorDivStaysInInt32(x, Pow2(n));
    x / Pow2(n)  // Euclidean division by a positive divisor is the floor
  }

  lemma FloorDivStaysInInt32(x: int32, d: nat)
    requires d >= 1
    ensures InInt32(x / d)
  {
    var q := x / d;
    FloorDivBounds(x, d);
    if q >= 1 {
      MulGrows(q, d);
    } else if q <= -1 {
      MulGrows(-q, d);
    }
  }

  /** Euclidean division by a positive divisor brackets the dividend. */
  lemma FloorDivBounds(x: int, d: int)
    requires d >= 1
    ensures (x / d) * d <= x < (x / d) * d + d
  {
    var q, m := x / d, x % d;
    assert x == d * q + m && 0 <= m < d;
  }

  /** Asr is the floor of x / 2^n: the bits shifted out are lost. */
  lemma AsrSpec(x: int32, n: nat)
    requires n <= 32
    ensures Asr(x, n) * Pow2(n) <= x < (Asr(x, n) + 1) * Pow2(n)
  {
    var d := Pow2(n);
    FloorDivBounds(x, d);
    assert (x / d + 1) * d == (x / d) * d + d;
  }

  /** The quotient is the k with x = d*k + r and 0 <= r < d. */
  lemma DivUnique(x: int, d: int, k: int, r: int)
    requires d > 0 && 0 <= r < d && x == d * k + r
    ensures x / d == k
  {
    var k', r' := x / d, x % d;
    assert x == d * k' + r' && 0 <= r' < d;
    var t := k - k';
    assert d * k - d * k' == d * t;
    assert d * t == r' - r;
    if t >= 1 {
      MulGrows(d, t);
    } else if t <= -1 {
      MulGrows(d, -t);
    }
  }

  lemma MulGrows(d: int, t: int)
    requires d > 0 && t >= 1
    ensures d * t >= d
  {
    assert d * t == d + d * (t - 1);
  }

  /** Evaluates a shift: `x >> n` is the q with q*2^n <= x < (q+1)*2^n. */
  lemma AsrOf(x: int32, n: nat, q: int)
    requires n <= 32
    requires q * Pow2(n) <= x < q * Pow2(n) + Pow2(n)
    ensures Asr(x, n) == q
  {
    DivUnique(x, Pow2(n), q, x - q * Pow2(n));
  }

  /** The same sixteen bits read as two's-complement signed: the `(int16_t)` cast. */
  function AsInt16(u: uint16): (r: int16)
    ensures r == u || r == u - 0x1_0000
  {
    if u < 0x8000 then u else u - 0x1_0000
  }

  /** The sixteen bits of a signed value: the inverse of `AsInt16`. */
  function AsUint16(s: int16): (r: uint16)
    ensures AsInt16(r) == s
  {
    if s >= 0 then s else s + 0x1_0000
  }

  lemma AsUint16OfAsInt16(u: uint16)
    ensures AsUint16(AsInt16(u)) == u
  {
  }

  /** The value `x` takes in an int32 variable: two's-complement wrap. */
  function Wrap32(x: int): (r: int32)
    ensures InInt32(x) ==> r == x
    ensures (r - x) % 0x1_0000_0000 == 0
  {
    var m := (x + 0x8000_0000) % 0x1_0000_0000;
    m - 0x8000_0000
  }

  /** The value `x` takes in a uint32 variable: reduction modulo 2^32. */
  function U32(x: int): (r: uint32)
    ensures 0 <= x < 0x1_0000_0000 ==> r == x
    ensures (r - x) % 0x1_0000_0000 == 0
  {
    x % 0x1_0000_0000
  }

  /** int32 `a + b`, `a - b`, `a * b` and `a << n`. */
  function Add32(a: int32, b: int32): int32 { Wrap32(a + b) }
  function Sub32(a: int32, b: int32): int32 { Wrap32(a - b) }
  function Mul32(a: int32, b: int32): int32 { Wrap32(a * b) }
  function Shl32(a: int32, n: nat): int32 requires n <= 32 { Wrap32(a * Pow2(n)) }
}

/** The status codes of the STM32 HAL (`HAL_StatusTypeDef`). */
module Hal {
  datatype HalStatus = Ok | Error | Busy | Timeout
}

/** An optional value. */
module Wrappers {
  datatype Option<T> = None | Some(value: T)
}
