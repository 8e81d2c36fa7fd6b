/** What the conversion to I420 means: integer luma and chroma of one colour, with no
    vector instruction in sight. */
module I420 {
  import opened Bytes

  /** The three pixel layouts, named by libyuv's register order (memory holds the
      letters right to left). */
  datatype Format = BGRA | ARGB | ABGR

  /** Four bytes in memory order. */
  type Pixel = p: seq<Byte> | |p| == 4 witness [0, 0, 0, 0]

  /** The pixel at byte offset `at`. */
  function PixelAt(m: seq<Byte>, at: int): (p: Pixel)
    requires 0 <= at && at + 4 <= |m|
  {
    [m[at], m[at + 1], m[at + 2], m[at + 3]]
  }

  function Red(f: Format, p: Pixel): (r: Byte) {
    match f case BGRA => p[1] case ARGB => p[2] case ABGR => p[0]
  }

  function Green(f: Format, p: Pixel): (r: Byte) {
    match f case BGRA => p[2] case ARGB => p[1] case ABGR => p[1]
  }

  function Blue(f: Format, p: Pixel): (r: Byte) {
    match f case BGRA => p[3] case ARGB => p[0] case ABGR => p[2]
  }

  function YSum(r: int, g: int, b: int): (res: int) { 66 * r + 129 * g + 25 * b }

  function USum(r: int, g: int, b: int): (res: int) { 112 * b - 74 * g - 38 * r }

  function VSum(r: int, g: int, b: int): (res: int) { 112 * r - 94 * g - 18 * b }

  /** Luma, chroma-blue and chroma-red; the ranges are those of studio swing. */
  function Luma(f: Format, p: Pixel): (y: Byte)
    ensures 16 <= y <= 235
  {
    (YSum(Red(f, p), Green(f, p), Blue(f, p)) + 128) / 256 + 16
  }

  function ChromaU(f: Format, p: Pixel): (u: Byte)
    ensures 16 <= u <= 239
  {
    USum(Red(f, p), Green(f, p), Blue(f, p)) / 256 + 128
  }

  function ChromaV(f: Format, p: Pixel): (v: Byte)
    ensures 16 <= v <= 239
  {
    VSum(Red(f, p), Green(f, p), Blue(f, p)) / 256 + 128
  }

  /** The nearest integer to the mean of two bytes, halves upward. */
  function Mean(a: Byte, b: Byte): (r: Byte)
    ensures 2 * r - 1 <= a + b <= 2 * r
  {
    if a <= b then a + (b - a) / 2 + (b - a) % 2 else b + (a - b) / 2 + (a - b) % 2
  }

  function MeanPixel(p: Pixel, q: Pixel): (r: Pixel) {
    [Mean(p[0], q[0]), Mean(p[1], q[1]), Mean(p[2], q[2]), Mean(p[3], q[3])]
  }

  /** The colour a chroma sample is taken from: pixels a and c stand in the upper row, b
      and d below them; each column is averaged first. */
  function Blend(a: Pixel, b: Pixel, c: Pixel, d: Pixel): (r: Pixel) {
    MeanPixel(MeanPixel(a, b), MeanPixel(c, d))
  }

  /** What rounding twice gives: each byte of a blend is the nearest integer to the mean of its
      two column means, halves upward, and so it never lies below the mean of the four pixels
      and at most one above it. */
  lemma BlendRounds(a: Pixel, b: Pixel, c: Pixel, d: Pixel, k: nat)
    requires k < 4
    ensures var u, v, r := Mean(a[k], b[k]), Mean(c[k], d[k]), Blend(a, b, c, d)[k];
      && 2 * u - 1 <= a[k] + b[k] <= 2 * u && 2 * v - 1 <= c[k] + d[k] <= 2 * v && 2 * r - 1 <= u + v <= 2 * r
      && 4 * r - 4 <= a[k] + b[k] + c[k] + d[k] <= 4 * r
  {
    hide Mean;
  }

  /** Luma is within one, and chroma within two, of the levels of ITU-R BT.601 for 8-bit studio
      swing, such as 16 + 65.481 * r / 255 + 128.553 * g / 255 + 24.966 * b / 255. */
  lemma NearBt601(f: Format, p: Pixel, r: Byte, g: Byte, b: Byte)
    requires Shows(f, p, r, g, b)
    ensures -255000 <= 255000 * (Luma(f, p) - 16) - (65481 * r + 128553 * g + 24966 * b) <= 255000
    ensures -510000 <= 255000 * (ChromaU(f, p) - 128) - (112000 * b - 37797 * r - 74203 * g) <= 510000
    ensures -510000 <= 255000 * (ChromaV(f, p) - 128) - (112000 * r - 93786 * g - 18214 * b) <= 510000
  {
    assert Red(f, p) == r && Green(f, p) == g && Blue(f, p) == b by {
      match f case ARGB => case ABGR => case BGRA =>
    }
    Floor(YSum(r, g, b) + 128);
    Floor(USum(r, g, b));
    Floor(VSum(r, g, b));
  }

  lemma Floor(x: int)
    ensures 256 * (x / 256) <= x <= 256 * (x / 256) + 255
  {
  }

  /** The colour of four bytes in memory: blue, green, red for ARGB, and so on. */
  predicate Shows(f: Format, p: Pixel, r: Byte, g: Byte, b: Byte) {
    match f
    case ARGB => p[..3] == [b, g, r]
    case ABGR => p[..3] == [r, g, b]
    case BGRA => p[1..] == [r, g, b]
  }

  /** Every grey has no colour: both chroma levels are 128. */
  lemma GreyIsNeutral(f: Format, p: Pixel, v: Byte)
    requires Shows(f, p, v, v, v)
    ensures ChromaU(f, p) == ChromaV(f, p) == 128
  {
    match f case ARGB => case ABGR => case BGRA =>
  }

  datatype Part = PartU | PartV

  function Chroma(f: Format, part: Part, p: Pixel): (r: Byte) {
    if part.PartU? then ChromaU(f, p) else ChromaV(f, p)
  }

  // ---- rows ----------------------------------------------------------------

  /** Luma of w pixels starting at offset p. */
  function LumaRow(f: Format, m: seq<Byte>, p: int, w: nat): (r: seq<Byte>)
    requires 0 <= p && p + 4 * w <= |m|
    ensures |r| == w
  {
    seq(w, i requires 0 <= i < w => Luma(f, PixelAt(m, p + 4 * i)))
  }

  /** The column right of an even column, or the column itself at the end of an odd row. */
  function NextColumn(w: nat, c: nat): (x: nat)
    requires 2 * c < w
    ensures x < w
  {
    if 2 * c + 1 < w then 2 * c + 1 else 2 * c
  }

  /** Sample c of one chroma part from the rows at p and q of w pixels each. */
  function ChromaAt(f: Format, part: Part, m: seq<Byte>, p: int, q: int, w: nat, c: nat): (r: Byte)
    requires 0 <= p && p + 4 * w <= |m| && 0 <= q && q + 4 * w <= |m| && 2 * c < w
  {
    var x := NextColumn(w, c);
    Chroma(f, part, Blend(PixelAt(m, p + 8 * c), PixelAt(m, q + 8 * c), PixelAt(m, p + 4 * x), PixelAt(m, q + 4 * x)))
  }

  /** Chroma samples of a row of w pixels: SS(w, 1). */
  function Samples(w: nat): (n: nat)
    ensures w <= 2 * n <= w + 1
  {
    (w + 1) / 2
  }

  function ChromaRow(f: Format, part: Part, m: seq<Byte>, p: int, q: int, w: nat): (r: seq<Byte>)
    requires 0 <= p && p + 4 * w <= |m| && 0 <= q && q + 4 * w <= |m|
    ensures |r| == Samples(w)
  {
    seq(Samples(w), c requires 0 <= c < Samples(w) => ChromaAt(f, part, m, p, q, w, c))
  }
}
