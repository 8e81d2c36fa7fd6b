/** Bytes in memory and the little-endian integers stored in them. */
module Bytes {

  type Byte = x: int | 0 <= x < 256

  const TWO31: int := 0x8000_0000
  const TWO32: int := 0x1_0000_0000
  const TWO64: int := 0x1_0000_0000_0000_0000

  /** `m` with `row` written at offset `at`. */
  function Splice(m: seq<Byte>, at: int, row: seq<Byte>): (r: seq<Byte>)
    requires 0 <= at && at + |row| <= |m|
    ensures |r| == |m|
  {
    m[..at] + row + m[at + |row|..]
  }

  /** The n-byte little-endian form of x, modulo 256 to the n. */
  function Le(x: int, n: nat): (b: seq<Byte>)
    ensures |b| == n
    decreases n
  {
    if n == 0 then [] else [x % 256] + Le(x / 256, n - 1)
  }

  /** The number a little-endian byte sequence stands for. */
  function UInt(b: seq<Byte>): (x: int)
    ensures x >= 0
  {
    if b == [] then 0 else b[0] + 256 * UInt(b[1..])
  }

  function Pow256(n: nat): (p: int)
    ensures p >= 1
  {
    if n == 0 then 1 else 256 * Pow256(n - 1)
  }

  lemma {:induction false} UIntBound(b: seq<Byte>)
    ensures UInt(b) < Pow256(|b|)
  {
    if b != [] { UIntBound(b[1..]); }
  }

  /** Storing a number and loading it back gives it modulo the width. */
  lemma {:induction false} LoadStored(x: int, n: nat)
    ensures UInt(Le(x, n)) == x % Pow256(n)
    decreases n
  {
    if n > 0 {
      LoadStored(x / 256, n - 1);
      var b := Le(x, n);
      assert b[0] == x % 256 && b[1..] == Le(x / 256, n - 1);
      ModSplit(x, Pow256(n - 1));
    }
  }

  lemma ModSplit(x: int, p: int)
    requires p >= 1
    ensures x % (256 * p) == x % 256 + 256 * ((x / 256) % p)
  {
    var q, r := x / 256, x % 256;
    var a, b := q / p, q % p;
    assert x == (256 * p) * a + (256 * b + r) by {
      assert q == p * a + b;
      assert 256 * q == 256 * (p * a) + 256 * b;
      assert 256 * (p * a) == (256 * p) * a;
    }
    assert 0 <= 256 * b + r < 256 * p;
    ModUnique(x, 256 * p, a, 256 * b + r);
  }

  lemma ModUnique(x: int, m: int, a: int, b: int)
    requires m >= 1 && x == m * a + b && 0 <= b < m
    ensures x % m == b
  {
    var d := x / m - a;
    assert m * d == b - x % m by {
      assert x == m * (x / m) + x % m;
      assert m * d == m * (x / m) - m * a;
    }
    SmallMultiple(m, d);
  }

  lemma SmallMultiple(m: int, d: int)
    requires m >= 1 && -m < m * d < m
    ensures d == 0
  {
    Sign(m, d - 1);
    Sign(m, d + 1);
  }

  lemma Sign(m: int, x: int)
    requires m >= 1
    ensures x >= 0 ==> m * x >= 0
    ensures x <= 0 ==> m * x <= 0
  {
  }

  /** Two's complement reading of an unsigned number below 2 * half. */
  function Signed(u: int, half: int): (r: int) {
    if u < half then u else u - 2 * half
  }

  /** A LONG in memory. */
  function Int32(b: seq<Byte>): (x: int)
    requires |b| == 4
  {
    Signed(UInt(b), TWO31)
  }

  function Int8(b: Byte): (r: int) { Signed(b, 128) }

  predicate Fits32(x: int) { -TWO31 <= x < TWO31 }

  lemma Pow256Values()
    ensures Pow256(1) == 256 && Pow256(2) == 0x1_0000 && Pow256(4) == TWO32 && Pow256(8) == TWO64
  {
    assert Pow256(3) == 0x100_0000 && Pow256(6) == 0x1_0000_0000_0000;
  }

  /** A 32-bit value survives being written as a displacement. */
  lemma StoreInt32(x: int)
    requires Fits32(x)
    ensures Int32(Le(x, 4)) == x
  {
    LoadStored(x, 4);
    Pow256Values();
  }

  lemma StoreAddress(x: int)
    ensures UInt(Le(x, 8)) == x % TWO64
  {
    LoadStored(x, 8);
    Pow256Values();
  }
}
