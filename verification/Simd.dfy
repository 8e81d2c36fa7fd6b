/** The vector instructions the row kernels of yuv.c are written in. A 128-bit lane is a
    sequence of 16 bytes, or of 8 signed words where only word operations touch it. An
    AVX2 register is a pair of lanes, because all but three of the AVX2 instructions
    used there work lane by lane. */
module Simd {
  import opened Bytes

  type Word = x: int | -32768 <= x < 32768

  type XmmB = b: seq<Byte> | |b| == 16 witness seq(16, _ => 0)
  type XmmW = w: seq<Word> | |w| == 8 witness seq(8, _ => 0)

  /** A 256-bit register: low lane, high lane. */
  datatype Ymm = Ymm(lo: XmmB, hi: XmmB)
  datatype YmmW = YmmW(lo: XmmW, hi: XmmW)

  // ---- scalars -------------------------------------------------------------

  function Wrap8(x: int): (r: Byte) { x % 256 }

  function Wrap16(x: int): (r: Word) { (x + 32768) % 65536 - 32768 }

  function Clamp(lo: int, hi: int, x: int): (r: int)
    requires lo <= hi
  {
    if x < lo then lo else if x > hi then hi else x
  }

  function Add8(a: int, b: int): (r: Byte) { Wrap8(a + b) }

  function Sub8(a: int, b: int): (r: Byte) { Wrap8(a - b) }

  function Add16(a: int, b: int): (r: Word) { Wrap16(a + b) }

  /** Two unsigned bytes times two signed bytes, added with saturation. */
  function Madd2(u0: Byte, u1: Byte, s0: Byte, s1: Byte): (r: Word) {
    Clamp(-32768, 32767, u0 * Int8(s0) + u1 * Int8(s1))
  }

  /** The upper byte of a word. */
  function HighByte(x: int): (r: Byte) { x % 65536 / 256 }

  /** The word divided by 256, rounded down. */
  function ShiftDown(x: Word): (r: Word) { x / 256 }

  function ClampU8(x: Word): (r: Byte) { Clamp(0, 255, x) }

  function ClampS8(x: Word): (r: Byte) { Wrap8(Clamp(-128, 127, x)) }

  /** One byte of pavgb: the sum and one more, shifted right. */
  function Avg(a: Byte, b: Byte): (r: Byte) { (a + b + 1) / 2 }

  // ---- lane instructions ---------------------------------------------------

  function Psubb(a: XmmB, b: XmmB): (r: XmmB) {
    seq(16, i requires 0 <= i < 16 => Sub8(a[i], b[i]))
  }

  function Paddb(a: XmmB, b: XmmB): (r: XmmB) {
    seq(16, i requires 0 <= i < 16 => Add8(a[i], b[i]))
  }

  function Pavgb(a: XmmB, b: XmmB): (r: XmmB) {
    seq(16, i requires 0 <= i < 16 => Avg(a[i], b[i]))
  }

  /** Unsigned bytes of `u` times signed bytes of `s`, neighbours added. */
  function Pmaddubsw(u: XmmB, s: XmmB): (r: XmmW) {
    seq(8, i requires 0 <= i < 8 => Madd2(u[2 * i], u[2 * i + 1], s[2 * i], s[2 * i + 1]))
  }

  /** Horizontal add: four sums from `a`, then four from `b`; wraps. */
  function Phaddw(a: XmmW, b: XmmW): (r: XmmW) {
    seq(8, i requires 0 <= i < 8 =>
      if i < 4 then Add16(a[2 * i], a[2 * i + 1]) else Add16(b[2 * i - 8], b[2 * i - 7]))
  }

  function Paddw(a: XmmW, b: XmmW): (r: XmmW) {
    seq(8, i requires 0 <= i < 8 => Add16(a[i], b[i]))
  }

  /** Logical shift right by 8: the word is taken as unsigned. */
  function Psrlw8(a: XmmW): (r: XmmW) {
    seq(8, i requires 0 <= i < 8 => HighByte(a[i]))
  }

  /** Arithmetic shift right by 8: the sign is kept. */
  function Psraw8(a: XmmW): (r: XmmW) {
    seq(8, i requires 0 <= i < 8 => ShiftDown(a[i]))
  }

  function Packuswb(a: XmmW, b: XmmW): (r: XmmB) {
    seq(16, i requires 0 <= i < 16 => if i < 8 then ClampU8(a[i]) else ClampU8(b[i - 8]))
  }

  function Packsswb(a: XmmW, b: XmmW): (r: XmmB) {
    seq(16, i requires 0 <= i < 16 => if i < 8 then ClampS8(a[i]) else ClampS8(b[i - 8]))
  }

  function Dword(a: XmmB, d: nat): (r: seq<Byte>)
    requires d < 4
    ensures |r| == 4
  {
    a[4 * d..4 * d + 4]
  }

  function Join4(a: seq<Byte>, b: seq<Byte>, c: seq<Byte>, d: seq<Byte>): (r: XmmB)
    requires |a| == |b| == |c| == |d| == 4
  {
    a + b + c + d
  }

  /** Doublewords p, q of `a`, then p, q of `b`: shufps with immediate 0x88 (0, 2) or
      0xdd (1, 3). */
  function Shufps(p: nat, q: nat, a: XmmB, b: XmmB): (r: XmmB)
    requires p < 4 && q < 4
  {
    Join4(Dword(a, p), Dword(a, q), Dword(b, p), Dword(b, q))
  }

  // ---- AVX2: lane by lane --------------------------------------------------

  function VPsubb(a: Ymm, b: Ymm): (r: Ymm) { Ymm(Psubb(a.lo, b.lo), Psubb(a.hi, b.hi)) }
  function VPaddb(a: Ymm, b: Ymm): (r: Ymm) { Ymm(Paddb(a.lo, b.lo), Paddb(a.hi, b.hi)) }
  function VPavgb(a: Ymm, b: Ymm): (r: Ymm) { Ymm(Pavgb(a.lo, b.lo), Pavgb(a.hi, b.hi)) }
  function VPmaddubsw(u: Ymm, s: Ymm): (r: YmmW) { YmmW(Pmaddubsw(u.lo, s.lo), Pmaddubsw(u.hi, s.hi)) }
  function VPhaddw(a: YmmW, b: YmmW): (r: YmmW) { YmmW(Phaddw(a.lo, b.lo), Phaddw(a.hi, b.hi)) }
  function VPaddw(a: YmmW, b: YmmW): (r: YmmW) { YmmW(Paddw(a.lo, b.lo), Paddw(a.hi, b.hi)) }
  function VPsrlw8(a: YmmW): (r: YmmW) { YmmW(Psrlw8(a.lo), Psrlw8(a.hi)) }
  function VPsraw8(a: YmmW): (r: YmmW) { YmmW(Psraw8(a.lo), Psraw8(a.hi)) }
  function VPackuswb(a: YmmW, b: YmmW): (r: Ymm) { Ymm(Packuswb(a.lo, b.lo), Packuswb(a.hi, b.hi)) }
  function VPacksswb(a: YmmW, b: YmmW): (r: Ymm) { Ymm(Packsswb(a.lo, b.lo), Packsswb(a.hi, b.hi)) }
  function VShufps(p: nat, q: nat, a: Ymm, b: Ymm): (r: Ymm)
    requires p < 4 && q < 4
  {
    Ymm(Shufps(p, q, a.lo, b.lo), Shufps(p, q, a.hi, b.hi))
  }

  // ---- AVX2: across lanes --------------------------------------------------

  function AnyDword(a: Ymm, d: nat): (r: seq<Byte>)
    requires d < 8
    ensures |r| == 4
  {
    if d < 4 then Dword(a.lo, d) else Dword(a.hi, d - 4)
  }

  function Qword(a: Ymm, q: nat): (r: seq<Byte>)
    requires q < 4
    ensures |r| == 8
  {
    var l := if q < 2 then a.lo else a.hi;
    if q % 2 == 0 then l[..8] else l[8..]
  }

  predicate Indices(idx: seq<nat>, n: nat, bound: nat) {
    |idx| == n && forall k :: 0 <= k < n ==> idx[k] < bound
  }

  /** Doublewords gathered across the whole register. */
  function VPermd(idx: seq<nat>, a: Ymm): (r: Ymm)
    requires Indices(idx, 8, 8)
  {
    Ymm(Join4(AnyDword(a, idx[0]), AnyDword(a, idx[1]), AnyDword(a, idx[2]), AnyDword(a, idx[3])),
        Join4(AnyDword(a, idx[4]), AnyDword(a, idx[5]), AnyDword(a, idx[6]), AnyDword(a, idx[7])))
  }

  /** Quadwords gathered across the whole register. */
  function VPermq(idx: seq<nat>, a: Ymm): (r: Ymm)
    requires Indices(idx, 4, 4)
  {
    Ymm(Qword(a, idx[0]) + Qword(a, idx[1]), Qword(a, idx[2]) + Qword(a, idx[3]))
  }

  function Gather(a: XmmB, ctrl: seq<nat>): (r: XmmB)
    requires Indices(ctrl, 16, 16)
  {
    var r: seq<Byte> := seq(16, i requires 0 <= i < 16 => var b: Byte := a[ctrl[i]]; b);
    r
  }

  /** XmmB gathered inside each lane by one control lane (all control bytes are below
      16, so none is zeroed). */
  function VPshufb(a: Ymm, ctrl: seq<nat>): (r: Ymm)
    requires Indices(ctrl, 16, 16)
  {
    Ymm(Gather(a.lo, ctrl), Gather(a.hi, ctrl))
  }
}
