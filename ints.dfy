/**
 * Fixed-width integers of the source language, written out over unbounded
 * `int`: the ranges of i8/i16/i32/i64, the two's-complement casts (`as u8`,
 * `as i8`, `as i32`, `as u32`) and big-endian byte encodings (`to_be_bytes`,
 * `from_be_bytes`).
 */
module Ints {

  type byte = x: int | 0 <= x < 256

  const I8_MIN: int := -0x80
  const I8_MAX: int := 0x7F
  const I16_MIN: int := -0x8000
  const I16_MAX: int := 0x7FFF
  const I32_MIN: int := -0x8000_0000
  const I32_MAX: int := 0x7FFF_FFFF
  const I64_MIN: int := -0x8000_0000_0000_0000
  const I64_MAX: int := 0x7FFF_FFFF_FFFF_FFFF
  const TWO_32: int := 0x1_0000_0000

  type i8 = x: int | I8_MIN <= x <= I8_MAX
  type i16 = x: int | I16_MIN <= x <= I16_MAX
  type i32 = x: int | I32_MIN <= x <= I32_MAX
  type i64 = x: int | I64_MIN <= x <= I64_MAX

  /** 256 to the power n. */
  function Pow256(n: nat): (r: nat)
    ensures r >= 1
  {
    if n == 0 then 1 else 256 * Pow256(n - 1)
  }

  /** 256^4 and 256^8 are the moduli of 32- and 64-bit patterns. */
  lemma Pow256Widths()
    ensures Pow256(4) == TWO_32 && Pow256(8) == TWO_32 * TWO_32
  {
    assert Pow256(2) == 0x1_0000;
    assert Pow256(4) == 0x1_0000 * Pow256(2);
    assert Pow256(6) == 0x1_0000 * Pow256(4);
    assert Pow256(8) == 0x1_0000 * Pow256(6);
  }

  /** `(u mod 256^n).to_be_bytes()`: the n low-order bytes of u, most significant first. */
  function BeBytes(u: nat, n: nat): (r: seq<byte>)
    ensures |r| == n
  {
    if n == 0 then [] else BeBytes(u / 256, n - 1) + [u % 256]
  }

  /** `from_be_bytes`: the unsigned value of a big-endian byte string. */
  function BeValue(bs: seq<byte>): (r: nat)
    ensures r < Pow256(|bs|)
  {
    if bs == [] then 0 else BeValue(bs[..|bs| - 1]) * 256 + bs[|bs| - 1]
  }

  lemma ModOfShifted(u: nat, p: nat)
    requires p >= 1
    ensures (u / 256 % p) * 256 + u % 256 == u % (256 * p)
  {
    var q, r := u / 256, u % 256;
    var a, b := q / p, q % p;
    assert q == p * a + b;
    assert u == 256 * q + r;
    assert u == (256 * p) * a + (256 * b + r) by {
      calc {
        u;
        256 * (p * a + b) + r;
        (256 * p) * a + (256 * b + r);
      }
    }
    assert 0 <= 256 * b + r < 256 * p;
    ModUnique(u, 256 * p, a, 256 * b + r);
  }

  lemma MulAwayFromZero(m: int, k: int)
    requires m >= 1
    ensures k >= 1 ==> m * k >= m
    ensures k <= -1 ==> m * k <= -m
  {
    if k >= 1 {
      assert m * k == m * (k - 1) + m;
      assert m * (k - 1) >= 0;
    } else if k <= -1 {
      assert m * k == m * (k + 1) - m;
      assert m * (-(k + 1)) >= 0;
    }
  }

  lemma ModUnique(u: int, m: int, a: int, rem: int)
    requires m >= 1 && 0 <= rem < m && u == m * a + rem
    ensures u % m == rem && u / m == a
  {
    var a', rem' := u / m, u % m;
    assert m * a' + rem' == m * a + rem;
    assert m * (a' - a) == rem - rem' by {
      assert m * a' - m * a == m * (a' - a);
    }
    MulAwayFromZero(m, a' - a);
  }

  /** Reading back the bytes written by `to_be_bytes` gives the value modulo 256^n. */
  lemma {:induction false} BeValueOfBeBytes(u: nat, n: nat)
    ensures BeValue(BeBytes(u, n)) == u % Pow256(n)
  {
    if n > 0 {
      var bs := BeBytes(u, n);
      assert bs[..n - 1] == BeBytes(u / 256, n - 1);
      BeValueOfBeBytes(u / 256, n - 1);
      ModOfShifted(u, Pow256(n - 1));
    }
  }

  /** Writing back the value read by `from_be_bytes` gives the same bytes. */
  lemma {:induction false} BeBytesOfBeValue(bs: seq<byte>)
    ensures BeBytes(BeValue(bs), |bs|) == bs
  {
    if bs != [] {
      var n := |bs|;
      var v := BeValue(bs);
      var p := BeValue(bs[..n - 1]);
      ModUnique(v, 256, p, bs[n - 1]);
      BeBytesOfBeValue(bs[..n - 1]);
      assert bs == bs[..n - 1] + [bs[n - 1]];
    }
  }

  /** `v as u8` for an i8. */
  function U8Of(v: i8): (r: byte)
    ensures r == v % 256
  {
    if v < 0 then v + 256 else v
  }

  /** `b as i8` for a u8. */
  function I8Of(b: byte): (r: i8)
    ensures r % 256 == b
  {
    if b > I8_MAX then b - 256 else b
  }

  /** The unsigned bit pattern of a signed value of the given width (`as u32`, `as u64`). */
  function Unsigned(v: int, bits: nat): nat
    requires bits == 32 || bits == 64
  {
    v % (if bits == 32 then TWO_32 else TWO_32 * TWO_32)
  }

  /** The signed value of an unsigned bit pattern (`as i32`, `as i64`). */
  function Signed(u: nat, bits: nat): int
    requires bits == 32 || bits == 64
  {
    var m := if bits == 32 then TWO_32 else TWO_32 * TWO_32;
    if u >= m / 2 then u - m else u
  }

  /** `v as i32` for any integer v: keep the low 32 bits and reinterpret them as signed. */
  function WrapI32(v: int): (r: i32)
    ensures r % TWO_32 == v % TWO_32
  {
    var u := v % TWO_32;
    if u > I32_MAX then u - TWO_32 else u
  }

  lemma {:induction false} WrapI32Identity(v: int)
    requires I32_MIN <= v <= I32_MAX
    ensures WrapI32(v) == v
  {
    if v < 0 {
      ModUnique(v, TWO_32, -1, v + TWO_32);
    } else {
      ModUnique(v, TWO_32, 0, v);
    }
  }

  lemma U8OfI8OfIdentity(b: byte)
    ensures U8Of(I8Of(b)) == b
  {
  }

  lemma I8OfU8OfIdentity(v: i8)
    ensures I8Of(U8Of(v)) == v
  {
  }

  /** `as i32 as u32` followed by `as i32` is the identity on i32. */
  lemma {:induction false} SignedUnsigned32(v: i32)
    ensures Unsigned(v, 32) < TWO_32 && Signed(Unsigned(v, 32), 32) == v
  {
    if v < 0 {
      ModUnique(v, TWO_32, -1, v + TWO_32);
    } else {
      ModUnique(v, TWO_32, 0, v);
    }
  }

  lemma {:induction false} SignedUnsigned64(v: i64)
    ensures Unsigned(v, 64) < TWO_32 * TWO_32 && Signed(Unsigned(v, 64), 64) == v
  {
    var m := TWO_32 * TWO_32;
    if v < 0 {
      ModUnique(v, m, -1, v + m);
    } else {
      ModUnique(v, m, 0, v);
    }
  }
}
