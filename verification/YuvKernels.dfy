module YuvKernels {
  import opened Bytes
  import opened Simd
  import opened I420

  /** Coefficients of the four bytes of a pixel, in memory order. */
  function CoeffY(f: Format): (c: seq<Byte>)
    ensures |c| == 4
  {
    match f
    case BGRA => [0, 66, 129, 25]
    case ARGB => [25, 129, 66, 0]
    case ABGR => [66, 129, 25, 0]
  }

  function CoeffU(f: Format): (c: seq<int>)
    ensures |c| == 4 && forall i :: 0 <= i < 4 ==> -128 <= c[i] < 128
  {
    match f
    case BGRA => [0, -38, -74, 112]
    case ARGB => [112, -74, -38, 0]
    case ABGR => [-38, -74, 112, 0]
  }

  function CoeffV(f: Format): (c: seq<int>)
    ensures |c| == 4 && forall i :: 0 <= i < 4 ==> -128 <= c[i] < 128
  {
    match f
    case BGRA => [0, 112, -94, -18]
    case ARGB => [-18, -94, 112, 0]
    case ABGR => [112, -94, -18, 0]
  }

  /** Signed coefficients as the bytes the constant holds. */
  function AsBytes(c: seq<int>): (b: seq<Byte>)
    requires |c| == 4
  {
    [Wrap8(c[0]), Wrap8(c[1]), Wrap8(c[2]), Wrap8(c[3])]
  }

  function Coeff(f: Format, part: Part): (c: seq<Byte>)
    ensures |c| == 4
  {
    AsBytes(if part.PartU? then CoeffU(f) else CoeffV(f))
  }

  /** A pixel's four coefficients in every doubleword of a lane. */
  function Rep(c: seq<Byte>): (r: XmmB)
    requires |c| == 4
  {
    Join4(c, c, c, c)
  }

  function Fill8(b: Byte): (r: XmmB) { seq(16, i requires 0 <= i < 16 => b) }

  function Fill16(w: Word): (r: XmmW) { seq(8, i requires 0 <= i < 8 => w) }

  /** Register r of a block of pixels. */
  function Reg(px: seq<Byte>, r: nat): (res: XmmB)
    requires 16 * r + 16 <= |px|
  {
    px[16 * r..16 * r + 16]
  }

  function Reg2(px: seq<Byte>, r: nat): (res: Ymm)
    requires 32 * r + 32 <= |px|
  {
    Ymm(Reg(px, 2 * r), Reg(px, 2 * r + 1))
  }

  // ---- luma ----------------------------------------------------------------

  /** One iteration of RGBTOY: 16 pixels to 16 luma bytes. */
  function YBlockSsse3(f: Format, px: seq<Byte>): (r: XmmB)
    requires |px| == 64
  {
    var xmm4 := Rep(CoeffY(f));
    var xmm5 := Fill8(0x80);
    var xmm7 := Fill16(0x7e80);
    var xmm0 := Psubb(Reg(px, 0), xmm5);
    var xmm1 := Psubb(Reg(px, 1), xmm5);
    var xmm2 := Psubb(Reg(px, 2), xmm5);
    var xmm3 := Psubb(Reg(px, 3), xmm5);
    var w6 := Pmaddubsw(xmm4, xmm0);
    var w0 := Pmaddubsw(xmm4, xmm1);
    var w1 := Pmaddubsw(xmm4, xmm2);
    var w2 := Pmaddubsw(xmm4, xmm3);
    var w6 := Phaddw(w6, w0);
    var w1 := Phaddw(w1, w2);
    var w6 := Psrlw8(Paddw(w6, xmm7));
    var w1 := Psrlw8(Paddw(w1, xmm7));
    Packuswb(w6, w1)
  }

  /** One iteration of RGBTOY_AVX2: 32 pixels to 32 luma bytes. */
  function YBlockAvx2(f: Format, px: seq<Byte>): (r: Ymm)
    requires |px| == 128
  {
    var ymm4 := Ymm(Rep(CoeffY(f)), Rep(CoeffY(f)));
    var ymm5 := Ymm(Fill8(0x80), Fill8(0x80));
    var ymm7 := YmmW(Fill16(0x7e80), Fill16(0x7e80));
    var ymm0 := VPsubb(Reg2(px, 0), ymm5);
    var ymm1 := VPsubb(Reg2(px, 1), ymm5);
    var ymm2 := VPsubb(Reg2(px, 2), ymm5);
    var ymm3 := VPsubb(Reg2(px, 3), ymm5);
    var w0 := VPmaddubsw(ymm4, ymm0);
    var w1 := VPmaddubsw(ymm4, ymm1);
    var w2 := VPmaddubsw(ymm4, ymm2);
    var w3 := VPmaddubsw(ymm4, ymm3);
    var w0 := VPhaddw(w0, w1);
    var w2 := VPhaddw(w2, w3);
    var w0 := VPsrlw8(VPaddw(w0, ymm7));
    var w2 := VPsrlw8(VPaddw(w2, ymm7));
    UnmutateY(VPackuswb(w0, w2))
  }

  /** kPermdARGBToY_AVX. */
  function PermdY(): (c: seq<nat>)
    ensures Indices(c, 8, 8)
  {
    [0, 4, 1, 5, 2, 6, 3, 7]
  }

  function UnmutateY(a: Ymm): (r: Ymm) {
    VPermd(PermdY(), a)
  }

  /** No product pair of a luma pixel saturates. */
  lemma LumaMadd(a: Byte, b: Byte)
    ensures Madd2(0, 66, Sub8(a, 0x80), Sub8(b, 0x80)) == 66 * b - 8448
    ensures Madd2(129, 25, Sub8(a, 0x80), Sub8(b, 0x80)) == 129 * a + 25 * b - 19712
    ensures Madd2(25, 129, Sub8(a, 0x80), Sub8(b, 0x80)) == 25 * a + 129 * b - 19712
    ensures Madd2(66, 0, Sub8(a, 0x80), Sub8(b, 0x80)) == 66 * a - 8448
    ensures Madd2(66, 129, Sub8(a, 0x80), Sub8(b, 0x80)) == 66 * a + 129 * b - 24960
    ensures Madd2(25, 0, Sub8(a, 0x80), Sub8(b, 0x80)) == 25 * a - 3200
  {
    assert Int8(Sub8(a, 0x80)) == a - 128 && Int8(Sub8(b, 0x80)) == b - 128;
  }

  /** The two words pmaddubsw makes of a pixel add up to its luma sum, biased by the sum
      of the coefficients times 128. */
  lemma LumaScalar(f: Format, p: Pixel)
    ensures var k := CoeffY(f);
      Madd2(k[0], k[1], Sub8(p[0], 0x80), Sub8(p[1], 0x80))
      + Madd2(k[2], k[3], Sub8(p[2], 0x80), Sub8(p[3], 0x80))
      == YSum(Red(f, p), Green(f, p), Blue(f, p)) - 28160
  {
    hide Madd2, Sub8;
    LumaMadd(p[0], p[1]);
    LumaMadd(p[2], p[3]);
    match f case BGRA => case ARGB => case ABGR =>
  }

  /** From the biased sum, which fits a word, to the luma byte. */
  lemma LumaFinish(f: Format, p: Pixel)
    ensures ClampU8(HighByte(Add16(Wrap16(YSum(Red(f, p), Green(f, p), Blue(f, p)) - 28160), 0x7e80))) == Luma(f, p)
  {
    hide ClampU8, HighByte, Add16, Wrap16, Red, Green, Blue;
    LumaOfSum(YSum(Red(f, p), Green(f, p), Blue(f, p)));
  }

  lemma LumaOfSum(s: int)
    requires 0 <= s <= 56100
    ensures ClampU8(HighByte(Add16(Wrap16(s - 28160), 0x7e80))) == (s + 128) / 256 + 16
  {
    hide ClampU8, HighByte;
    BiasedWord(s);
    LumaByte(s, Add16(Wrap16(s - 28160), 0x7e80));
  }

  lemma BiasedWord(s: int)
    requires 0 <= s <= 56100
    ensures var w := Add16(Wrap16(s - 28160), 0x7e80); w == s + 4224 || w == s + 4224 - 65536
  {
    assert Wrap16(s - 28160) == s - 28160;
  }

  lemma LumaByte(s: int, w: Word)
    requires 0 <= s <= 56100 && (w == s + 4224 || w == s + 4224 - 65536)
    ensures ClampU8(HighByte(w)) == (s + 128) / 256 + 16
  {
    assert w % 65536 == s + 128 + 4096;
  }

  /** The luma words two pixel registers give inside one lane. */
  function LumaWords(f: Format, a: XmmB, b: XmmB): (r: XmmW) {
    Psrlw8(Paddw(Phaddw(Pmaddubsw(Rep(CoeffY(f)), Psubb(a, Fill8(0x80))),
                        Pmaddubsw(Rep(CoeffY(f)), Psubb(b, Fill8(0x80)))), Fill16(0x7e80)))
  }

  lemma RepAt(c: seq<Byte>, p: nat)
    requires |c| == 4 && p < 4
    ensures Rep(c)[4 * p] == c[0] && Rep(c)[4 * p + 1] == c[1]
    ensures Rep(c)[4 * p + 2] == c[2] && Rep(c)[4 * p + 3] == c[3]
  {
  }

  lemma BiasedSum(f: Format, x: XmmB, p: nat)
    requires p < 4
    ensures var w := Pmaddubsw(Rep(CoeffY(f)), Psubb(x, Fill8(0x80)));
            var q := PixelAt(x, 4 * p);
            (w[2 * p] as int) + (w[2 * p + 1] as int) == YSum(Red(f, q), Green(f, q), Blue(f, q)) - 28160
  {
    hide Rep, Madd2, Sub8, CoeffY, YSum, Red, Green, Blue;
    LumaScalar(f, PixelAt(x, 4 * p));
    RepAt(CoeffY(f), p);
  }

  lemma LumaWordsCorrect(f: Format, a: XmmB, b: XmmB, j: nat)
    requires j < 4
    ensures ClampU8(LumaWords(f, a, b)[j]) == Luma(f, PixelAt(a, 4 * j))
    ensures ClampU8(LumaWords(f, a, b)[4 + j]) == Luma(f, PixelAt(b, 4 * j))
  {
    hide Rep, Fill8, CoeffY, Pmaddubsw, Psubb, HighByte, Wrap16, Luma, ClampU8, YSum, Red, Green, Blue, PixelAt;
    BiasedSum(f, a, j);
    LumaFinish(f, PixelAt(a, 4 * j));
    BiasedSum(f, b, j);
    LumaFinish(f, PixelAt(b, 4 * j));
  }

  /** Dwords of the packed luma words: four pixels per source register. */
  lemma PackedLuma(f: Format, a: XmmB, b: XmmB, c: XmmB, d: XmmB, j: nat)
    requires j < 4
    ensures var r := Packuswb(LumaWords(f, a, b), LumaWords(f, c, d));
            && r[j] == Luma(f, PixelAt(a, 4 * j)) && r[4 + j] == Luma(f, PixelAt(b, 4 * j))
            && r[8 + j] == Luma(f, PixelAt(c, 4 * j)) && r[12 + j] == Luma(f, PixelAt(d, 4 * j))
  {
    hide LumaWords, Luma, PixelAt, ClampU8;
    LumaWordsCorrect(f, a, b, j);
    LumaWordsCorrect(f, c, d, j);
  }

  lemma RegPixel(px: seq<Byte>, r: nat, j: nat)
    requires 16 * r + 16 <= |px| && j < 4
    ensures PixelAt(Reg(px, r), 4 * j) == PixelAt(px, 4 * (4 * r + j))
  {
  }

  /** The SSSE3 block puts the luma of pixel i at byte i. */
  lemma YBlockSsse3Correct(f: Format, px: seq<Byte>, r: nat, j: nat)
    requires |px| == 64 && r < 4 && j < 4
    ensures YBlockSsse3(f, px)[4 * r + j] == Luma(f, PixelAt(px, 4 * (4 * r + j)))
  {
    hide LumaWords, Luma, PixelAt, Packuswb;
    assert YBlockSsse3(f, px) == Packuswb(LumaWords(f, Reg(px, 0), Reg(px, 1)),
                                          LumaWords(f, Reg(px, 2), Reg(px, 3))) by {
      YBlockSsse3Shape(f, px);
    }
    PackedLuma(f, Reg(px, 0), Reg(px, 1), Reg(px, 2), Reg(px, 3), j);
    RegPixel(px, r, j);
  }

  lemma YBlockSsse3Shape(f: Format, px: seq<Byte>)
    requires |px| == 64
    ensures YBlockSsse3(f, px) == Packuswb(LumaWords(f, Reg(px, 0), Reg(px, 1)), LumaWords(f, Reg(px, 2), Reg(px, 3)))
  {
    hide Packuswb, Psrlw8, Paddw, Phaddw, Pmaddubsw, Psubb, Rep, Fill8, Fill16, CoeffY;
  }

  lemma YBlockAvx2Shape(f: Format, px: seq<Byte>)
    requires |px| == 128
    ensures YBlockAvx2(f, px) == UnmutateY(
      Ymm(Packuswb(LumaWords(f, Reg(px, 0), Reg(px, 2)), LumaWords(f, Reg(px, 4), Reg(px, 6))),
          Packuswb(LumaWords(f, Reg(px, 1), Reg(px, 3)), LumaWords(f, Reg(px, 5), Reg(px, 7)))))
  {
    hide Packuswb, Psrlw8, Paddw, Phaddw, Pmaddubsw, Psubb, Rep, Fill8, Fill16, CoeffY, UnmutateY, Reg;
  }

  lemma Join4At(a: seq<Byte>, b: seq<Byte>, c: seq<Byte>, d: seq<Byte>, j: nat)
    requires |a| == |b| == |c| == |d| == 4 && j < 4
    ensures var r := Join4(a, b, c, d);
            r[j] == a[j] && r[4 + j] == b[j] && r[8 + j] == c[j] && r[12 + j] == d[j]
  {
  }

  lemma DwordAt(a: Ymm, d: nat, j: nat)
    requires d < 4 && j < 4
    ensures AnyDword(a, d)[j] == a.lo[4 * d + j] && AnyDword(a, 4 + d)[j] == a.hi[4 * d + j]
  {
  }

  /** vpermd undoes the lane order of vphaddw and vpackuswb. */
  lemma Unmutate(a: Ymm, r: nat, j: nat)
    requires r < 8 && j < 4
    ensures Flat(UnmutateY(a))[4 * r + j]
         == if r % 2 == 0 then a.lo[4 * (r / 2) + j] else a.hi[4 * (r / 2) + j]
  {
    hide Join4, AnyDword;
    DwordAt(a, r / 2, j);
    Join4At(AnyDword(a, 0), AnyDword(a, 4), AnyDword(a, 1), AnyDword(a, 5), j);
    Join4At(AnyDword(a, 2), AnyDword(a, 6), AnyDword(a, 3), AnyDword(a, 7), j);
  }

  function Flat(y: Ymm): (b: seq<Byte>)
    ensures |b| == 32
  {
    y.lo + y.hi
  }

  /** The AVX2 block puts the luma of pixel i at byte i. */
  lemma YBlockAvx2Correct(f: Format, px: seq<Byte>, r: nat, j: nat)
    requires |px| == 128 && r < 8 && j < 4
    ensures Flat(YBlockAvx2(f, px))[4 * r + j] == Luma(f, PixelAt(px, 4 * (4 * r + j)))
  {
    hide LumaWords, Luma, PixelAt, Packuswb, UnmutateY, YBlockAvx2, Flat, Reg;
    YBlockAvx2Shape(f, px);
    PackedLuma(f, Reg(px, 0), Reg(px, 2), Reg(px, 4), Reg(px, 6), j);
    PackedLuma(f, Reg(px, 1), Reg(px, 3), Reg(px, 5), Reg(px, 7), j);
    RegPixel(px, r, j);
    Unmutate(Ymm(Packuswb(LumaWords(f, Reg(px, 0), Reg(px, 2)), LumaWords(f, Reg(px, 4), Reg(px, 6))),
          Packuswb(LumaWords(f, Reg(px, 1), Reg(px, 3)), LumaWords(f, Reg(px, 5), Reg(px, 7)))), r, j);
  }

  // ---- chroma --------------------------------------------------------------

  /** One iteration of the SSSE3 chroma row: two rows of 16 pixels to 8 U bytes followed
      by 8 V bytes. */
  function UVBlockSsse3(f: Format, m0: seq<Byte>, m1: seq<Byte>): (r: XmmB)
    requires |m0| == |m1| == 64
  {
    var xmm3 := Rep(Coeff(f, PartV));
    var xmm4 := Rep(Coeff(f, PartU));
    var xmm5 := Fill8(128);
    var xmm0 := Pavgb(Reg(m0, 0), Reg(m1, 0));
    var xmm1 := Pavgb(Reg(m0, 1), Reg(m1, 1));
    var xmm2 := Pavgb(Reg(m0, 2), Reg(m1, 2));
    var xmm6 := Pavgb(Reg(m0, 3), Reg(m1, 3));
    var xmm7 := Shufps(1, 3, xmm0, xmm1);
    var xmm0 := Shufps(0, 2, xmm0, xmm1);
    var xmm0 := Pavgb(xmm0, xmm7);
    var xmm7 := Shufps(1, 3, xmm2, xmm6);
    var xmm2 := Shufps(0, 2, xmm2, xmm6);
    var xmm2 := Pavgb(xmm2, xmm7);
    var w1 := Pmaddubsw(xmm0, xmm3);
    var w6 := Pmaddubsw(xmm2, xmm3);
    var w0 := Pmaddubsw(xmm0, xmm4);
    var w2 := Pmaddubsw(xmm2, xmm4);
    var w0 := Phaddw(w0, w2);
    var w1 := Phaddw(w1, w6);
    Paddb(Packsswb(Psraw8(w0), Psraw8(w1)), xmm5)
  }

  /** Control of the chroma vpshufb, the same in both lanes. */
  function ShufUV(): (c: seq<nat>)
    ensures Indices(c, 16, 16)
  {
    [0, 1, 8, 9, 2, 3, 10, 11, 4, 5, 12, 13, 6, 7, 14, 15]
  }

  /** First half of an iteration of the AVX2 chroma row: two rows of 32 pixels averaged
      down to the 16 chroma colours, four in each lane of ymm0 and ymm2. */
  function UVHalvesAvx2(m0: seq<Byte>, m1: seq<Byte>): (r: (Ymm, Ymm))
    requires |m0| == |m1| == 128
  {
    var ymm0 := VPavgb(Reg2(m0, 0), Reg2(m1, 0));
    var ymm1 := VPavgb(Reg2(m0, 1), Reg2(m1, 1));
    var ymm2 := VPavgb(Reg2(m0, 2), Reg2(m1, 2));
    var ymm3 := VPavgb(Reg2(m0, 3), Reg2(m1, 3));
    var ymm4 := VShufps(0, 2, ymm0, ymm1);
    var ymm0 := VShufps(1, 3, ymm0, ymm1);
    var ymm0 := VPavgb(ymm0, ymm4);
    var ymm4 := VShufps(0, 2, ymm2, ymm3);
    var ymm2 := VShufps(1, 3, ymm2, ymm3);
    (ymm0, VPavgb(ymm2, ymm4))
  }

  /** Second half: 16 chroma colours to 16 U bytes in the low lane and 16 V bytes in the
      high lane. */
  function UVPackAvx2(f: Format, ymm0: Ymm, ymm2: Ymm): (r: Ymm) {
    var ymm5 := Ymm(Fill8(128), Fill8(128));
    var ymm6 := Ymm(Rep(Coeff(f, PartV)), Rep(Coeff(f, PartV)));
    var ymm7 := Ymm(Rep(Coeff(f, PartU)), Rep(Coeff(f, PartU)));
    var w1 := VPmaddubsw(ymm0, ymm7);
    var w3 := VPmaddubsw(ymm2, ymm7);
    var w0 := VPmaddubsw(ymm0, ymm6);
    var w2 := VPmaddubsw(ymm2, ymm6);
    var w1 := VPsraw8(VPhaddw(w1, w3));
    var w0 := VPsraw8(VPhaddw(w0, w2));
    VPaddb(UnmutateUV(VPacksswb(w1, w0)), ymm5)
  }

  function UnmutateUV(a: Ymm): (r: Ymm) {
    VPshufb(VPermq([0, 2, 1, 3], a), ShufUV())
  }

  function UVBlockAvx2(f: Format, m0: seq<Byte>, m1: seq<Byte>): (r: Ymm)
    requires |m0| == |m1| == 128
  {
    var (ymm0, ymm2) := UVHalvesAvx2(m0, m1);
    UVPackAvx2(f, ymm0, ymm2)
  }

  /** The colour of the chroma sample whose two columns start at byte `at` of two rows. */
  function Blend2(m0: seq<Byte>, m1: seq<Byte>, at: int): (r: Pixel)
    requires 0 <= at && at + 8 <= |m0| && at + 8 <= |m1|
  {
    Blend(PixelAt(m0, at), PixelAt(m1, at), PixelAt(m0, at + 4), PixelAt(m1, at + 4))
  }

  /** No product pair of a chroma pixel saturates. */
  lemma ChromaMadd(a: Byte, b: Byte)
    ensures Madd2(a, b, 0, Wrap8(-38)) == -38 * b && Madd2(a, b, Wrap8(-74), 112) == 112 * b - 74 * a
    ensures Madd2(a, b, 112, Wrap8(-74)) == 112 * a - 74 * b && Madd2(a, b, Wrap8(-38), 0) == -38 * a
    ensures Madd2(a, b, Wrap8(-38), Wrap8(-74)) == -38 * a - 74 * b && Madd2(a, b, 112, 0) == 112 * a
  {
  }

  lemma ChromaMaddV(a: Byte, b: Byte)
    ensures Madd2(a, b, 0, 112) == 112 * b && Madd2(a, b, Wrap8(-94), Wrap8(-18)) == -94 * a - 18 * b
    ensures Madd2(a, b, Wrap8(-18), Wrap8(-94)) == -18 * a - 94 * b
    ensures Madd2(a, b, 112, 0) == 112 * a && Madd2(a, b, 112, Wrap8(-94)) == 112 * a - 94 * b
    ensures Madd2(a, b, Wrap8(-18), 0) == -18 * a
  {
  }

  function ChromaSum(f: Format, part: Part, p: Pixel): (r: int) {
    if part.PartU? then USum(Red(f, p), Green(f, p), Blue(f, p)) else VSum(Red(f, p), Green(f, p), Blue(f, p))
  }

  lemma WrapSmall()
    ensures Wrap8(0) == 0 && Wrap8(112) == 112
  {
  }

  lemma ChromaScalar(f: Format, part: Part, p: Pixel)
    ensures var k := Coeff(f, part);
      (Madd2(p[0], p[1], k[0], k[1]) as int) + (Madd2(p[2], p[3], k[2], k[3]) as int) == ChromaSum(f, part, p)
  {
    hide Madd2, Wrap8;
    WrapSmall();
    ChromaMadd(p[0], p[1]);
    ChromaMadd(p[2], p[3]);
    ChromaMaddV(p[0], p[1]);
    ChromaMaddV(p[2], p[3]);
    match f case BGRA => case ARGB => case ABGR =>
  }

  lemma ChromaInt(s: int)
    requires -28560 <= s <= 28560
    ensures Add8(ClampS8(ShiftDown(Wrap16(s))), 128) == s / 256 + 128
  {
    assert Wrap16(s) == s;
  }

  lemma ChromaFinish(f: Format, part: Part, p: Pixel)
    ensures Add8(ClampS8(ShiftDown(Wrap16(ChromaSum(f, part, p)))), 128) == Chroma(f, part, p)
  {
    ChromaInt(ChromaSum(f, part, p));
  }

  /** The chroma words of one part that two registers of chroma colours give. */
  function ChromaWords(f: Format, part: Part, a: XmmB, b: XmmB): (r: XmmW) {
    Psraw8(Phaddw(Pmaddubsw(a, Rep(Coeff(f, part))), Pmaddubsw(b, Rep(Coeff(f, part)))))
  }

  lemma ChromaPair(f: Format, part: Part, x: XmmB, p: nat)
    requires p < 4
    ensures var w := Pmaddubsw(x, Rep(Coeff(f, part)));
            (w[2 * p] as int) + (w[2 * p + 1] as int) == ChromaSum(f, part, PixelAt(x, 4 * p))
  {
    hide Rep, Madd2, Coeff, ChromaSum;
    ChromaScalar(f, part, PixelAt(x, 4 * p));
    RepAt(Coeff(f, part), p);
  }

  lemma ChromaWordsCorrect(f: Format, part: Part, a: XmmB, b: XmmB, j: nat)
    requires j < 4
    ensures var w := ChromaWords(f, part, a, b);
            && Add8(ClampS8(w[j]), 128) == Chroma(f, part, PixelAt(a, 4 * j))
            && Add8(ClampS8(w[4 + j]), 128) == Chroma(f, part, PixelAt(b, 4 * j))
  {
    hide Rep, Coeff, Pmaddubsw, ShiftDown, Wrap16, Chroma, ClampS8, Add8, ChromaSum, PixelAt;
    ChromaPair(f, part, a, j);
    ChromaFinish(f, part, PixelAt(a, 4 * j));
    ChromaPair(f, part, b, j);
    ChromaFinish(f, part, PixelAt(b, 4 * j));
  }

  /** The four chroma colours of two registers of averaged pixels. */
  function Halve(a: XmmB, b: XmmB): (r: XmmB) {
    Pavgb(Shufps(0, 2, a, b), Shufps(1, 3, a, b))
  }

  lemma HalveAt(a: XmmB, b: XmmB, k: nat, j: nat)
    requires k < 2 && j < 4
    ensures Halve(a, b)[4 * k + j] == Avg(a[8 * k + j], a[8 * k + 4 + j])
    ensures Halve(a, b)[8 + 4 * k + j] == Avg(b[8 * k + j], b[8 * k + 4 + j])
  {
    hide Avg, Join4, Dword;
    Join4At(Dword(a, 0), Dword(a, 2), Dword(b, 0), Dword(b, 2), j);
    Join4At(Dword(a, 1), Dword(a, 3), Dword(b, 1), Dword(b, 3), j);
    DwordAt(Ymm(a, b), 2 * k, j);
    DwordAt(Ymm(a, b), 2 * k + 1, j);
  }

  lemma AvgIsMean(a: Byte, b: Byte)
    ensures Avg(a, b) == Mean(a, b)
  {
  }

  lemma HalveCorrect(a0: XmmB, a1: XmmB, b0: XmmB, b1: XmmB, k: nat)
    requires k < 2
    ensures var h := Halve(Pavgb(a0, a1), Pavgb(b0, b1));
            && PixelAt(h, 4 * k) == Blend2(a0, a1, 8 * k)
            && PixelAt(h, 8 + 4 * k) == Blend2(b0, b1, 8 * k)
  {
    hide Avg, Mean, Halve;
    forall a: Byte, b: Byte
      ensures Avg(a, b) == Mean(a, b)
    {
      AvgIsMean(a, b);
    }
    HalveAt(Pavgb(a0, a1), Pavgb(b0, b1), k, 0);
    HalveAt(Pavgb(a0, a1), Pavgb(b0, b1), k, 1);
    HalveAt(Pavgb(a0, a1), Pavgb(b0, b1), k, 2);
    HalveAt(Pavgb(a0, a1), Pavgb(b0, b1), k, 3);
  }

  lemma RegBlend(m0: seq<Byte>, m1: seq<Byte>, r: nat, k: nat)
    requires |m0| == |m1| && 16 * r + 16 <= |m0| && k < 2
    ensures Blend2(Reg(m0, r), Reg(m1, r), 8 * k) == Blend2(m0, m1, 8 * (2 * r + k))
  {
    hide MeanPixel;
  }

  /** Four averaged registers p, q, s, t of two rows. */
  function Averaged(m0: seq<Byte>, m1: seq<Byte>, p: nat, q: nat): (r: XmmB)
    requires |m0| == |m1| && 16 * p + 16 <= |m0| && 16 * q + 16 <= |m0|
  {
    Halve(Pavgb(Reg(m0, p), Reg(m1, p)), Pavgb(Reg(m0, q), Reg(m1, q)))
  }

  /** XmmB of one part from four registers: two samples from each. */
  lemma ChromaOfRegs(f: Format, part: Part, m0: seq<Byte>, m1: seq<Byte>, p: nat, q: nat, s: nat, t: nat, k: nat)
    requires |m0| == |m1| && k < 2
    requires 16 * p + 16 <= |m0| && 16 * q + 16 <= |m0| && 16 * s + 16 <= |m0| && 16 * t + 16 <= |m0|
    ensures var w := ChromaWords(f, part, Averaged(m0, m1, p, q), Averaged(m0, m1, s, t));
            && Add8(ClampS8(w[k]), 128) == Sample(f, part, m0, m1, 2 * p + k)
            && Add8(ClampS8(w[2 + k]), 128) == Sample(f, part, m0, m1, 2 * q + k)
            && Add8(ClampS8(w[4 + k]), 128) == Sample(f, part, m0, m1, 2 * s + k)
            && Add8(ClampS8(w[6 + k]), 128) == Sample(f, part, m0, m1, 2 * t + k)
  {
    hide ChromaWords, Halve, Pavgb, Reg, Chroma, ClampS8, Add8, Blend2, PixelAt;
    var h, g := Averaged(m0, m1, p, q), Averaged(m0, m1, s, t);
    ChromaWordsCorrect(f, part, h, g, k);
    ChromaWordsCorrect(f, part, h, g, 2 + k);
    HalveCorrect(Reg(m0, p), Reg(m1, p), Reg(m0, q), Reg(m1, q), k);
    HalveCorrect(Reg(m0, s), Reg(m1, s), Reg(m0, t), Reg(m1, t), k);
    RegBlend(m0, m1, p, k);
    RegBlend(m0, m1, q, k);
    RegBlend(m0, m1, s, k);
    RegBlend(m0, m1, t, k);
  }

  /** Sample c of a block that holds its pixels in pairs. */
  function Sample(f: Format, part: Part, m0: seq<Byte>, m1: seq<Byte>, c: nat): (r: Byte)
    requires |m0| == |m1| && 8 * c + 8 <= |m0|
  {
    Chroma(f, part, Blend2(m0, m1, 8 * c))
  }

  lemma UVBlockSsse3Shape(f: Format, m0: seq<Byte>, m1: seq<Byte>)
    requires |m0| == |m1| == 64
    ensures UVBlockSsse3(f, m0, m1) == Paddb(Packsswb(
              ChromaWords(f, PartU, Averaged(m0, m1, 0, 1), Averaged(m0, m1, 2, 3)),
              ChromaWords(f, PartV, Averaged(m0, m1, 0, 1), Averaged(m0, m1, 2, 3))), Fill8(128))
  {
    hide Paddb, Packsswb, Psraw8, Phaddw, Pmaddubsw, Pavgb, Rep, Coeff, Fill8, Reg, Shufps;
  }

  lemma PackedChroma(u: XmmW, v: XmmW, j: nat)
    requires j < 8
    ensures var r := Paddb(Packsswb(u, v), Fill8(128));
            r[j] == Add8(ClampS8(u[j]), 128) && r[8 + j] == Add8(ClampS8(v[j]), 128)
  {
    hide Add8, ClampS8;
  }

  /** The SSSE3 block puts U sample c at byte c and V sample c at byte 8 + c. */
  lemma UVBlockSsse3Correct(f: Format, m0: seq<Byte>, m1: seq<Byte>, r: nat, k: nat)
    requires |m0| == |m1| == 64 && r < 4 && k < 2
    ensures UVBlockSsse3(f, m0, m1)[2 * r + k] == Sample(f, PartU, m0, m1, 2 * r + k)
    ensures UVBlockSsse3(f, m0, m1)[8 + 2 * r + k] == Sample(f, PartV, m0, m1, 2 * r + k)
  {
    hide ChromaWords, Averaged, Sample, Add8, ClampS8, Paddb, Packsswb, Fill8, UVBlockSsse3;
    UVBlockSsse3Shape(f, m0, m1);
    ChromaOfRegs(f, PartU, m0, m1, 0, 1, 2, 3, k);
    ChromaOfRegs(f, PartV, m0, m1, 0, 1, 2, 3, k);
    PackedChroma(ChromaWords(f, PartU, Averaged(m0, m1, 0, 1), Averaged(m0, m1, 2, 3)),
                 ChromaWords(f, PartV, Averaged(m0, m1, 0, 1), Averaged(m0, m1, 2, 3)), 2 * r + k);
  }

  lemma PavgbComm(a: XmmB, b: XmmB)
    ensures Pavgb(a, b) == Pavgb(b, a)
  {
  }

  lemma UVHalvesShape(m0: seq<Byte>, m1: seq<Byte>)
    requires |m0| == |m1| == 128
    ensures UVHalvesAvx2(m0, m1).0 == Ymm(Averaged(m0, m1, 0, 2), Averaged(m0, m1, 1, 3))
    ensures UVHalvesAvx2(m0, m1).1 == Ymm(Averaged(m0, m1, 4, 6), Averaged(m0, m1, 5, 7))
  {
    hide Pavgb, Shufps, Reg;
    SwapHalves(m0, m1, 0, 2);
    SwapHalves(m0, m1, 1, 3);
    SwapHalves(m0, m1, 4, 6);
    SwapHalves(m0, m1, 5, 7);
  }

  lemma SwapHalves(m0: seq<Byte>, m1: seq<Byte>, p: nat, q: nat)
    requires |m0| == |m1| && 16 * p + 16 <= |m0| && 16 * q + 16 <= |m0|
    ensures var a, b := Pavgb(Reg(m0, p), Reg(m1, p)), Pavgb(Reg(m0, q), Reg(m1, q));
            Pavgb(Shufps(1, 3, a, b), Shufps(0, 2, a, b)) == Averaged(m0, m1, p, q)
  {
    hide Pavgb, Shufps, Reg;
    var a, b := Pavgb(Reg(m0, p), Reg(m1, p)), Pavgb(Reg(m0, q), Reg(m1, q));
    PavgbComm(Shufps(1, 3, a, b), Shufps(0, 2, a, b));
  }

  /** vpermq and vpshufb undo the lane order of vphaddw and vpacksswb. */
  lemma UnmutateUVAt(a: Ymm, r: nat, k: nat)
    requires r < 8 && k < 2
    ensures var l := if r % 2 == 0 then a.lo else a.hi;
            UnmutateUV(a).lo[2 * r + k] == l[2 * (r / 2) + k] && UnmutateUV(a).hi[2 * r + k] == l[8 + 2 * (r / 2) + k]
  {
    var b := VPermq([0, 2, 1, 3], a);
    assert b.lo == a.lo[..8] + a.hi[..8] && b.hi == a.lo[8..] + a.hi[8..];
    UnshuffleAt(b.lo, r, k);
    UnshuffleAt(b.hi, r, k);
  }

  lemma UnshuffleAt(b: XmmB, r: nat, k: nat)
    requires r < 8 && k < 2
    ensures Gather(b, ShufUV())[2 * r + k] == if r % 2 == 0 then b[2 * (r / 2) + k] else b[8 + 2 * (r / 2) + k]
  {
    assert ShufUV()[2 * r + k] == if r % 2 == 0 then 2 * (r / 2) + k else 8 + 2 * (r / 2) + k;
  }

  lemma UVPackShape(f: Format, a: Ymm, b: Ymm)
    ensures UVPackAvx2(f, a, b) == VPaddb(UnmutateUV(Ymm(
              Packsswb(ChromaWords(f, PartU, a.lo, b.lo), ChromaWords(f, PartV, a.lo, b.lo)),
              Packsswb(ChromaWords(f, PartU, a.hi, b.hi), ChromaWords(f, PartV, a.hi, b.hi)))),
                Ymm(Fill8(128), Fill8(128)))
  {
    hide Paddb, Packsswb, Psraw8, Phaddw, Pmaddubsw, Rep, Coeff, Fill8, UnmutateUV;
  }

  lemma UVPackAt(f: Format, a: Ymm, b: Ymm, r: nat, i: nat, k: nat)
    requires r < 8 && k < 2 && i == 2 * (r / 2) + k < 8
    ensures var x, y := if r % 2 == 0 then a.lo else a.hi, if r % 2 == 0 then b.lo else b.hi;
            && UVPackAvx2(f, a, b).lo[2 * r + k] == Add8(ClampS8(ChromaWords(f, PartU, x, y)[i]), 128)
            && UVPackAvx2(f, a, b).hi[2 * r + k] == Add8(ClampS8(ChromaWords(f, PartV, x, y)[i]), 128)
  {
    hide ChromaWords, Add8, ClampS8, UnmutateUV, UVPackAvx2;
    UVPackShape(f, a, b);
    UnmutateUVAt(Ymm(Packsswb(ChromaWords(f, PartU, a.lo, b.lo), ChromaWords(f, PartV, a.lo, b.lo)),
                     Packsswb(ChromaWords(f, PartU, a.hi, b.hi), ChromaWords(f, PartV, a.hi, b.hi))), r, k);
  }

  /** The AVX2 block puts U sample c at byte c of the low lane and V sample c at byte c of
      the high lane. */
  lemma UVBlockAvx2Correct(f: Format, m0: seq<Byte>, m1: seq<Byte>, r: nat, k: nat)
    requires |m0| == |m1| == 128 && r < 8 && k < 2
    ensures UVBlockAvx2(f, m0, m1).lo[2 * r + k] == Sample(f, PartU, m0, m1, 2 * r + k)
    ensures UVBlockAvx2(f, m0, m1).hi[2 * r + k] == Sample(f, PartV, m0, m1, 2 * r + k)
  {
    hide ChromaWords, Averaged, Sample, Add8, ClampS8, UVPackAvx2, UVHalvesAvx2;
    UVHalvesShape(m0, m1);
    UVPackAt(f, UVHalvesAvx2(m0, m1).0, UVHalvesAvx2(m0, m1).1, r, 2 * (r / 2) + k, k);
    if r % 2 == 0 {
      ChromaOfRegs(f, PartU, m0, m1, 0, 2, 4, 6, k);
      ChromaOfRegs(f, PartV, m0, m1, 0, 2, 4, 6, k);
    } else {
      ChromaOfRegs(f, PartU, m0, m1, 1, 3, 5, 7, k);
      ChromaOfRegs(f, PartV, m0, m1, 1, 3, 5, 7, k);
    }
  }
}
