/** The planes the video encoder asks a conversion for, and for which picture sizes they
    come out right. */
module EncoderPlanes {
  import opened Bytes
  import opened Simd
  import opened I420
  import opened YuvKernels
  import opened YuvRows
  import opened YuvFrame
  import opened YuvConvert

  /** Planes packed one after the other, chroma stride width >> 1 and chroma plane size
      (width * height) >> 2, as VideoEncoder lays them out. */
  function EncoderTarget(w: nat, h: nat): (t: Target) {
    Target(0, w, w * h, w / 2, w * h + w * h / 4, w / 2)
  }

  // ---- when rows overlap ---------------------------------------------------

  /** That layout keeps its rows apart exactly for even width and even height: otherwise a
      chroma row runs into the next row or into the next plane. */
  lemma RowsApartIffEven(sp: int, ss: int, w: nat, h: nat)
    requires w > 0 && h > 0
    ensures Disjoint(Upright(sp, ss, EncoderTarget(w, h), w, h)) <==> w % 2 == 0 && h % 2 == 0
  {
    var g := Upright(sp, ss, EncoderTarget(w, h), w, h);
    if w % 2 == 0 && h % 2 == 0 {
      forall q, r | IsRow(g, q) && IsRow(g, r) && q != r
        ensures Clear(g, q, r)
      {
        EvenLayout(g, w / 2, h / 2, q, r);
      }
    } else {
      OddLayout(g, sp, ss, w, h);
    }
  }

  lemma Distributes(a: nat, b: nat, n: nat)
    ensures (a + b) * n == a * n + b * n && a * n >= 0
  {
  }

  lemma Rows(k: nat, l: nat, n: nat)
    requires k < l
    ensures k * n + n <= l * n
  {
    var d := l - k - 1;
    assert l * n == (d + (k + 1)) * n;
    Distributes(d, k + 1, n);
    Distributes(k, 1, n);
  }

  /** Where the rows of the even layout start. */
  lemma EvenStart(g: Frame, a: nat, b: nat, q: Row)
    requires a > 0 && b > 0
    requires g == Upright(g.sp, g.ss, EncoderTarget(2 * a, 2 * b), 2 * a, 2 * b)
    ensures Start(g, q) == match q.plane
      case PY => q.k * (2 * a)
      case PU => 4 * (a * b) + q.k * a
      case PV => 5 * (a * b) + q.k * a
    ensures Length(g, q.plane) == if q.plane.PY? then 2 * a else a
    ensures Count(g, q.plane) == if q.plane.PY? then 2 * b else b
  {
    assert 2 * a * (2 * b) == 4 * (a * b);
  }

  lemma EvenLayout(g: Frame, a: nat, b: nat, q: Row, r: Row)
    requires a > 0 && b > 0
    requires g == Upright(g.sp, g.ss, EncoderTarget(2 * a, 2 * b), 2 * a, 2 * b)
    requires IsRow(g, q) && IsRow(g, r) && q != r
    ensures Clear(g, q, r)
  {
    hide Start, Length, Count;
    EvenStart(g, a, b, q);
    EvenStart(g, a, b, r);
    if q.plane == r.plane {
      if q.k < r.k { EvenSamePlane(g, a, b, q, r); } else { EvenSamePlane(g, a, b, r, q); }
    } else {
      RowsIn(q, a, b);
      RowsIn(r, a, b);
    }
  }

  lemma EvenSamePlane(g: Frame, a: nat, b: nat, q: Row, r: Row)
    requires a > 0 && b > 0
    requires g == Upright(g.sp, g.ss, EncoderTarget(2 * a, 2 * b), 2 * a, 2 * b)
    requires q.plane == r.plane && q.k < r.k
    ensures Start(g, q) + Length(g, q.plane) <= Start(g, r)
  {
    hide Start, Length, Count;
    EvenStart(g, a, b, q);
    EvenStart(g, a, b, r);
    Rows(q.k, r.k, if q.plane.PY? then 2 * a else a);
  }

  /** A row stays inside its plane of the even layout. */
  lemma RowsIn(q: Row, a: nat, b: nat)
    requires a > 0 && q.k < if q.plane.PY? then 2 * b else b
    ensures q.plane.PY? ==> 0 <= q.k * (2 * a) && q.k * (2 * a) + 2 * a <= 4 * (a * b)
    ensures !q.plane.PY? ==> 0 <= q.k * a && q.k * a + a <= a * b
  {
    if q.plane.PY? {
      Rows(q.k, 2 * b, 2 * a);
      assert 2 * b * (2 * a) == 4 * (a * b);
    } else {
      Rows(q.k, b, a);
    }
  }

  lemma OddLayout(g: Frame, sp: int, ss: int, w: nat, h: nat)
    requires w > 0 && h > 0 && (w % 2 == 1 || h % 2 == 1)
    requires g == Upright(sp, ss, EncoderTarget(w, h), w, h)
    ensures !Disjoint(g)
  {
    if w % 2 == 1 && h > 2 {
      var q, r := Row(PU, 0), Row(PU, 1);
      assert IsRow(g, q) && IsRow(g, r) && !Clear(g, q, r);
    } else if w % 2 == 1 {
      OddWidthLowFrame(g, sp, ss, w, h);
      var q, r := Row(PU, 0), Row(PV, 0);
      assert IsRow(g, q) && IsRow(g, r) && !Clear(g, q, r);
    } else {
      OddHeight(g, sp, ss, w / 2, h / 2);
      var q, r := Row(PU, h / 2), Row(PV, 0);
      assert IsRow(g, q) && IsRow(g, r) && !Clear(g, q, r);
    }
  }

  lemma OddWidthLowFrame(g: Frame, sp: int, ss: int, w: nat, h: nat)
    requires 0 < h <= 2 && w % 2 == 1
    requires g == Upright(sp, ss, EncoderTarget(w, h), w, h)
    ensures Start(g, Row(PU, 0)) <= Start(g, Row(PV, 0)) < Start(g, Row(PU, 0)) + Samples(w)
  {
    assert Start(g, Row(PU, 0)) == w * h && Start(g, Row(PV, 0)) == w * h + w * h / 4;
    QuarterOfLow(w, h, w * h);
  }

  lemma QuarterOfLow(w: nat, h: nat, n: nat)
    requires 0 < h <= 2 && w % 2 == 1 && n == w * h
    ensures 0 <= n / 4 < Samples(w)
  {
    assert n <= 2 * w;
  }

  lemma OddHeight(g: Frame, sp: int, ss: int, a: nat, b: nat)
    requires a > 0
    requires g == Upright(sp, ss, EncoderTarget(2 * a, 2 * b + 1), 2 * a, 2 * b + 1)
    ensures Start(g, Row(PU, b)) <= Start(g, Row(PV, 0)) < Start(g, Row(PU, b)) + a
  {
    assert 2 * a * (2 * b + 1) == 4 * (b * a) + 2 * a;
    assert (4 * (b * a) + 2 * a) / 4 == b * a + 2 * a / 4;
  }

  // ---- what that means for the picture -------------------------------------

  /** The conversion of a mapped texture of pitch ss into the encoder's frame buffer. */
  function EncoderFrame(ss: int, w: nat, h: nat): (g: Frame)
    requires w > 0 && h > 0
  {
    Upright(0, ss, EncoderTarget(w, h), w, h)
  }

  lemma SourceFits(ss: int, w: nat, h: nat, y: nat)
    requires 4 * w <= ss && y < h
    ensures 0 <= y * ss && y * ss + 4 * w <= h * ss
  {
    Rows(y, h, ss);
  }

  /** The buffer of four bytes a pixel holds every row, whatever the size. */
  lemma BufferFits(ss: int, w: nat, h: nat)
    requires w > 0 && h > 0 && 4 * w <= ss
    ensures 0 <= ss * h && Fits(EncoderFrame(ss, w, h), ss * h, 4 * (w * h))
  {
    var g := EncoderFrame(ss, w, h);
    forall y: int | 0 <= y < h
      ensures 0 <= SrcRow(g, y) && SrcRow(g, y) + 4 * w <= ss * h
    {
      SourceFits(ss, w, h, y);
    }
    forall r | IsRow(g, r)
      ensures 0 <= Start(g, r) && Start(g, r) + Length(g, r.plane) <= 4 * (w * h)
    {
      if r.plane.PY? {
        Rows(r.k, h, w);
      } else {
        ChromaRowEnds(w, h, r.k);
      }
    }
    SourceFits(ss, w, h, 0);
  }

  lemma ChromaRowEnds(w: nat, h: nat, k: nat)
    requires w > 0 && k < Samples(h)
    ensures 0 <= k * (w / 2) && k * (w / 2) + Samples(w) <= w * h
  {
    var n := w / 2;
    assert w == 2 * n || w == 2 * n + 1;
    assert k < h && k * w == k * n + k * (w - n);
    assert k * (w - n) >= 0;
    Rows(k, h, w);
  }

  /** The byte of a pixel that holds blue. */
  function BlueAt(f: Format): (i: nat) { match f case BGRA => 3 case ARGB => 0 case ABGR => 2 }

  /** A picture whose first two rows are blue and whose other rows are black. */
  function BlueTop(f: Format, ss: nat, h: nat): (m: seq<Byte>)
    ensures |m| == ss * h
  {
    seq(ss * h, i requires 0 <= i < ss * h =>
      if i < ss then (if i % 4 == BlueAt(f) then 255 else 0)
      else if i < 2 * ss then (if (i - ss) % 4 == BlueAt(f) then 255 else 0)
      else 0)
  }

  /** A pixel without red, green and alpha. */
  predicate IsColour(f: Format, p: Pixel, blue: Byte) {
    && p[0] == (if BlueAt(f) == 0 then blue else 0) && p[1] == (if BlueAt(f) == 1 then blue else 0)
    && p[2] == (if BlueAt(f) == 2 then blue else 0) && p[3] == (if BlueAt(f) == 3 then blue else 0)
  }

  lemma RowOffset(ss: nat, h: nat, y: nat, c: nat) returns (at: nat)
    requires y < h && c < ss
    ensures at == y * ss + c < ss * h
    ensures y == 0 ==> at == c
    ensures y == 1 ==> at == ss + c
    ensures y >= 2 ==> at >= 2 * ss
  {
    Rows(y, h, ss);
    at := y * ss + c;
    if y >= 2 {
      Distributes(y - 2, 2, ss);
    }
  }

  lemma BlueTopByte(f: Format, ss: nat, h: nat, y: nat, c: nat)
    requires y < h && c < ss
    ensures 0 <= y * ss && y * ss + c < ss * h
    ensures BlueTop(f, ss, h)[y * ss + c] == if y < 2 && c % 4 == BlueAt(f) then 255 else 0
  {
    hide BlueAt;
    var at := RowOffset(ss, h, y, c);
    BlueTopIndex(f, ss, h, at);
  }

  lemma BlueTopIndex(f: Format, ss: nat, h: nat, at: nat)
    requires at < ss * h
    ensures BlueTop(f, ss, h)[at] ==
      if (at < ss && at % 4 == BlueAt(f)) || (ss <= at < 2 * ss && (at - ss) % 4 == BlueAt(f)) then 255 else 0
  {
    hide BlueAt;
  }

  lemma BlueTopAt(f: Format, ss: nat, w: nat, h: nat, y: nat, x: nat)
    requires 4 * w <= ss && y < h && x < w
    ensures 0 <= y * ss && y * ss + 4 * x + 4 <= ss * h
    ensures IsColour(f, PixelAt(BlueTop(f, ss, h), y * ss + 4 * x), if y < 2 then 255 else 0)
  {
    hide BlueTop, BlueAt;
    SourceFits(ss, w, h, y);
    BlueTopByte(f, ss, h, y, 4 * x);
    BlueTopByte(f, ss, h, y, 4 * x + 1);
    BlueTopByte(f, ss, h, y, 4 * x + 2);
    BlueTopByte(f, ss, h, y, 4 * x + 3);
    ColourOfBytes(f, BlueTop(f, ss, h), y * ss + 4 * x, x, y < 2);
  }

  lemma ColourOfBytes(f: Format, m: seq<Byte>, at: nat, x: nat, top: bool)
    requires at + 4 <= |m|
    requires m[at] == (if top && 4 * x % 4 == BlueAt(f) then 255 else 0)
    requires m[at + 1] == (if top && (4 * x + 1) % 4 == BlueAt(f) then 255 else 0)
    requires m[at + 2] == (if top && (4 * x + 2) % 4 == BlueAt(f) then 255 else 0)
    requires m[at + 3] == (if top && (4 * x + 3) % 4 == BlueAt(f) then 255 else 0)
    ensures IsColour(f, PixelAt(m, at), if top then 255 else 0)
  {
    hide BlueAt;
  }

  lemma MeanSelf(b: Byte)
    ensures Mean(b, b) == b
  {
  }

  lemma FlatBlend(p: Pixel)
    ensures Blend(p, p, p, p) == p
  {
    hide Mean;
    MeanSelf(p[0]);
    MeanSelf(p[1]);
    MeanSelf(p[2]);
    MeanSelf(p[3]);
    assert MeanPixel(p, p) == p;
  }

  lemma ColourParts(f: Format, p: Pixel, blue: Byte)
    requires IsColour(f, p, blue)
    ensures Red(f, p) == Green(f, p) == 0 && Blue(f, p) == blue
  {
    match f case BGRA => case ARGB => case ABGR =>
  }

  lemma BlueSums(b: int)
    ensures USum(0, 0, b) == 112 * b && VSum(0, 0, b) == -18 * b
  {
  }

  lemma FlatChroma(f: Format, p: Pixel, blue: Byte)
    requires IsColour(f, p, blue)
    ensures blue == 255 ==> Chroma(f, PartU, p) == 239 && Chroma(f, PartV, p) == 110
    ensures blue == 0 ==> Chroma(f, PartU, p) == Chroma(f, PartV, p) == 128
  {
    hide Red, Green, Blue, IsColour, USum, VSum;
    ColourParts(f, p, blue);
    BlueSums(blue);
  }

  /** A chroma sample of that picture, whose four pixels are all blue or all black. */
  lemma BlueTopSample(f: Format, ss: nat, w: nat, h: nat, k: nat, x: nat)
    requires w > 0 && h > 0 && 4 * w <= ss && k < Samples(h) && x < Samples(w)
    ensures var p, q := 2 * k * ss, NextColumn(h, k) * ss;
      && 0 <= p && p + 4 * w <= ss * h && 0 <= q && q + 4 * w <= ss * h
      && ChromaAt(f, PartU, BlueTop(f, ss, h), p, q, w, x) == (if k == 0 then 239 else 128)
      && ChromaAt(f, PartV, BlueTop(f, ss, h), p, q, w, x) == (if k == 0 then 110 else 128)
  {
    hide BlueTop, Blend, Chroma, IsColour, PixelAt;
    var m, d, z, blue := BlueTop(f, ss, h), NextColumn(h, k), NextColumn(w, x), if k == 0 then 255 else 0;
    SourceFits(ss, w, h, 2 * k);
    SourceFits(ss, w, h, d);
    BlueTopAt(f, ss, w, h, 2 * k, 2 * x);
    BlueTopAt(f, ss, w, h, d, 2 * x);
    BlueTopAt(f, ss, w, h, 2 * k, z);
    BlueTopAt(f, ss, w, h, d, z);
    var a := PixelAt(m, 2 * k * ss + 8 * x);
    OneColour(f, a, PixelAt(m, d * ss + 8 * x), blue);
    OneColour(f, a, PixelAt(m, 2 * k * ss + 4 * z), blue);
    OneColour(f, a, PixelAt(m, d * ss + 4 * z), blue);
    FlatBlend(a);
    FlatChroma(f, a, blue);
  }

  /** The chroma rows of that picture: the first is blue, all others are black. */
  lemma BlueTopChroma(f: Format, ss: nat, w: nat, h: nat, n: nat, k: nat, x: nat)
    requires w > 0 && h > 0 && 4 * w <= ss && k < Samples(h) && x < Samples(w)
    requires Fits(EncoderFrame(ss, w, h), ss * h, n)
    ensures var g, m := EncoderFrame(ss, w, h), BlueTop(f, ss, h);
      && IsRow(g, Row(PU, k)) && IsRow(g, Row(PV, k))
      && Wanted(f, g, m, n, Row(PU, k))[x] == (if k == 0 then 239 else 128)
      && Wanted(f, g, m, n, Row(PV, k))[x] == (if k == 0 then 110 else 128)
  {
    hide BlueTop, ChromaAt, Fits;
    var g := EncoderFrame(ss, w, h);
    assert IsRow(g, Row(PU, k)) && IsRow(g, Row(PV, k));
    BlueTopSample(f, ss, w, h, k, x);
  }

  lemma OneColour(f: Format, p: Pixel, q: Pixel, blue: Byte)
    requires IsColour(f, p, blue) && IsColour(f, q, blue)
    ensures p == q
  {
  }

  lemma RowByte(f: Format, g: Frame, src: seq<Byte>, before: seq<Byte>, after: seq<Byte>, q: Row, i: nat)
    requires Fits(g, |src|, |before|) && IsRow(g, q) && i < Length(g, q.plane)
    ensures 0 <= Start(g, q) && Start(g, q) + i < |before|
    ensures IsI420(f, g, src, before, after) ==>
      |after| == |before| && after[Start(g, q) + i] == Wanted(f, g, src, |before|, q)[i]
  {
    hide Wanted, Start, Length;
    if IsI420(f, g, src, before, after) {
      assert after[Start(g, q)..Start(g, q) + Length(g, q.plane)][i] == after[Start(g, q) + i];
    }
  }

  /** Two rows that want different values of one byte cannot both be in place. */
  lemma Conflict(f: Format, g: Frame, src: seq<Byte>, before: seq<Byte>, after: seq<Byte>, q: Row, i: nat, r: Row,
                 j: nat)
    requires Fits(g, |src|, |before|) && IsRow(g, q) && IsRow(g, r) && i < Length(g, q.plane) && j < Length(g, r.plane)
    requires Start(g, q) + i == Start(g, r) + j
    requires Wanted(f, g, src, |before|, q)[i] != Wanted(f, g, src, |before|, r)[j]
    ensures !IsI420(f, g, src, before, after)
  {
    hide Wanted, Start, Length, Fits, IsI420;
    RowByte(f, g, src, before, after, q, i);
    RowByte(f, g, src, before, after, r, j);
  }

  /** For an odd width or height the picture with the blue top has no I420 image in the
      encoder's layout at all, so no conversion gives it. */
  lemma OddSizeHasNoImage(f: Format, ss: nat, w: nat, h: nat, before: seq<Byte>, after: seq<Byte>)
    requires w > 0 && h > 0 && 4 * w <= ss && |before| == 4 * (w * h)
    requires w % 2 == 1 || h % 2 == 1
    ensures Fits(EncoderFrame(ss, w, h), ss * h, |before|)
    ensures !IsI420(f, EncoderFrame(ss, w, h), BlueTop(f, ss, h), before, after)
  {
    hide Wanted, IsI420, Fits, BlueTop;
    BufferFits(ss, w, h);
    var g, m, n := EncoderFrame(ss, w, h), BlueTop(f, ss, h), |before|;
    if w % 2 == 1 && h > 2 {
      BlueTopChroma(f, ss, w, h, n, 0, w / 2);
      BlueTopChroma(f, ss, w, h, n, 1, 0);
      Conflict(f, g, m, before, after, Row(PU, 0), w / 2, Row(PU, 1), 0);
    } else if w % 2 == 1 {
      OddWidthLowFrame(g, 0, ss, w, h);
      var i := Start(g, Row(PV, 0)) - Start(g, Row(PU, 0));
      BlueTopChroma(f, ss, w, h, n, 0, i);
      BlueTopChroma(f, ss, w, h, n, 0, 0);
      Conflict(f, g, m, before, after, Row(PU, 0), i, Row(PV, 0), 0);
    } else {
      OddHeight(g, 0, ss, w / 2, h / 2);
      var i := Start(g, Row(PV, 0)) - Start(g, Row(PU, h / 2));
      BlueTopChroma(f, ss, w, h, n, h / 2, i);
      BlueTopChroma(f, ss, w, h, n, 0, 0);
      Conflict(f, g, m, before, after, Row(PU, h / 2), i, Row(PV, 0), 0);
    }
  }

  /** The encoder's frame is the I420 image of every picture exactly when width and height
      are even. */
  lemma ImageIffEven(isa: Isa, f: Format, ss: nat, w: nat, h: nat, before: seq<Byte>)
    requires w > 0 && h > 0 && 4 * w <= ss && |before| == 4 * (w * h)
    ensures Fits(EncoderFrame(ss, w, h), ss * h, |before|)
    ensures (forall src: seq<Byte> | |src| == ss * h ::
               IsI420(f, EncoderFrame(ss, w, h), src, before, Converted(isa, f, EncoderFrame(ss, w, h), src, before)))
            <==> w % 2 == 0 && h % 2 == 0
  {
    hide IsI420, Converted, Disjoint, BlueTop;
    var g := EncoderFrame(ss, w, h);
    BufferFits(ss, w, h);
    RowsApartIffEven(0, ss, w, h);
    if w % 2 == 0 && h % 2 == 0 {
      forall src: seq<Byte> | |src| == ss * h
        ensures IsI420(f, g, src, before, Converted(isa, f, g, src, before))
      {
        ConvertedIsI420(isa, f, g, src, before);
      }
    } else {
      var m := BlueTop(f, ss, h);
      OddSizeHasNoImage(f, ss, w, h, before, Converted(isa, f, g, m, before));
    }
  }

  // ---- where every byte of it stands ---------------------------------------

  /** The pixel in column x and row y of a mapped texture. */
  predicate Texel(src: seq<Byte>, ss: nat, x: nat, y: nat, p: Pixel) {
    && 0 <= y * ss + 4 * x && y * ss + 4 * x + 4 <= |src|
    && p == [src[y * ss + 4 * x], src[y * ss + 4 * x + 1], src[y * ss + 4 * x + 2], src[y * ss + 4 * x + 3]]
  }

  /** In a frame of even size the luma of pixel (x, y) stands at y * w + x. */
  lemma EncoderLuma(isa: Isa, f: Format, ss: nat, w: nat, h: nat, src: seq<Byte>, before: seq<Byte>, x: nat, y: nat,
                    p: Pixel)
    requires w % 2 == 0 && h % 2 == 0 && 4 * w <= ss && |before| == 4 * (w * h) && |src| == ss * h
    requires x < w && y < h && Texel(src, ss, x, y, p) && Fits(EncoderFrame(ss, w, h), |src|, |before|)
    ensures var m := Converted(isa, f, EncoderFrame(ss, w, h), src, before);
      0 <= y * w + x < |m| && m[y * w + x] == Luma(f, p)
  {
    hide IsI420, Converted, Disjoint, Luma, Fits;
    var g := EncoderFrame(ss, w, h);
    RowsApartIffEven(0, ss, w, h);
    ConvertedIsI420(isa, f, g, src, before);
    LumaByteAt(f, g, src, before, Converted(isa, f, g, src, before), x, y);
  }

  /** The U samples stand behind the w * h luma bytes and the V samples a quarter as far on, w / 2
      to a row. */
  lemma EncoderChroma(isa: Isa, f: Format, ss: nat, w: nat, h: nat, src: seq<Byte>, before: seq<Byte>, c: nat, r: nat,
                      p: Pixel, q: Pixel, s: Pixel, t: Pixel)
    requires w % 2 == 0 && h % 2 == 0 && 4 * w <= ss && |before| == 4 * (w * h) && |src| == ss * h
    requires 2 * c < w && 2 * r < h && Fits(EncoderFrame(ss, w, h), |src|, |before|)
    requires Texel(src, ss, 2 * c, 2 * r, p) && Texel(src, ss, 2 * c, 2 * r + 1, q)
    requires Texel(src, ss, 2 * c + 1, 2 * r, s) && Texel(src, ss, 2 * c + 1, 2 * r + 1, t)
    ensures var m, u := Converted(isa, f, EncoderFrame(ss, w, h), src, before), w * h + r * (w / 2) + c;
      var v := u + w * h / 4;
      && 0 <= u < |m| && 0 <= v < |m|
      && m[u] == ChromaU(f, Blend(p, q, s, t)) && m[v] == ChromaV(f, Blend(p, q, s, t))
  {
    hide IsI420, Converted, Disjoint, ChromaU, ChromaV, Blend, Fits, IsPixel;
    var g := EncoderFrame(ss, w, h);
    RowsApartIffEven(0, ss, w, h);
    ConvertedIsI420(isa, f, g, src, before);
    TexelIsPixel(ss, w, h, src, 2 * c, 2 * r, p);
    TexelIsPixel(ss, w, h, src, 2 * c, 2 * r + 1, q);
    TexelIsPixel(ss, w, h, src, 2 * c + 1, 2 * r, s);
    TexelIsPixel(ss, w, h, src, 2 * c + 1, 2 * r + 1, t);
    ChromaBytesAt(f, g, src, before, Converted(isa, f, g, src, before), c, r, p, q, s, t);
  }

  lemma TexelIsPixel(ss: nat, w: nat, h: nat, src: seq<Byte>, x: nat, y: nat, p: Pixel)
    requires x < w && y < h && Texel(src, ss, x, y, p)
    ensures IsPixel(EncoderFrame(ss, w, h), src, x, y, p)
  {
  }
}
