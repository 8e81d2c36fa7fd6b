/** BGRAToI420, ARGBToI420 and ABGRToI420, and what a whole conversion means. */
module YuvConvert {
  import opened Bytes
  import opened Simd
  import opened I420
  import opened YuvKernels
  import opened YuvRows
  import opened YuvFrame

  /** The destination of a conversion; the three entry points share it. */
  datatype Target = Target(yp: int, ys: int, up: int, us: int, vp: int, vs: int)

  /** The frame the loops see: a negative height starts at the last row and walks up. */
  function Upright(sp: int, ss: int, t: Target, width: int, height: int): (r: Frame)
    requires width > 0 && height != 0
  {
    if height > 0 then Frame(sp, ss, t.yp, t.ys, t.up, t.us, t.vp, t.vs, width, height)
    else Frame(sp + (-height - 1) * ss, -ss, t.yp, t.ys, t.up, t.us, t.vp, t.vs, width, -height)
  }

  /** Memory after a whole conversion. */
  ghost function Converted(isa: Isa, f: Format, g: Frame, src: seq<Byte>, dst: seq<Byte>): (r: seq<Byte>)
    requires Fits(g, |src|, |dst|)
    ensures |r| == |dst|
  {
    ScheduleIsEveryRow(g, Row(PY, 0));
    Written(isa, f, g, src, Schedule(g.h), dst)
  }

  /** `after` holds the I420 image of the source and differs from `before` nowhere else. */
  ghost predicate IsI420(f: Format, g: Frame, src: seq<Byte>, before: seq<Byte>, after: seq<Byte>)
    requires Fits(g, |src|, |before|)
  {
    && |after| == |before|
    && (forall r :: IsRow(g, r) ==>
       after[Start(g, r)..Start(g, r) + Length(g, r.plane)] == Wanted(f, g, src, |before|, r))
    && (forall a: nat :: a < |before| && (forall r :: IsRow(g, r) ==> Outside(g, a, r)) ==> after[a] == before[a])
  }

  /** Every byte of the three planes is the scalar conversion of its pixels, and no byte
      outside the rows changes. */
  lemma ConvertedIsI420(isa: Isa, f: Format, g: Frame, src: seq<Byte>, dst: seq<Byte>)
    requires Fits(g, |src|, |dst|) && Disjoint(g)
    ensures IsI420(f, g, src, dst, Converted(isa, f, g, src, dst))
  {
    hide Wanted, Start, Length, Written;
    ScheduleIsEveryRow(g, Row(PY, 0));
    var after := Converted(isa, f, g, src, dst);
    forall r | IsRow(g, r)
      ensures after[Start(g, r)..Start(g, r) + Length(g, r.plane)] == Wanted(f, g, src, |dst|, r)
    {
      ScheduleIsEveryRow(g, r);
      RowsLand(isa, f, g, src, Schedule(g.h), dst, r);
    }
    forall a: nat | a < |dst| && (forall r :: IsRow(g, r) ==> Outside(g, a, r))
      ensures after[a] == dst[a]
    {
      OthersStay(isa, f, g, src, Schedule(g.h), dst, a);
    }
  }

  /** Byte (x, y) of the Y plane in an I420 image: the luma of pixel (x, y). */
  lemma LumaByteAt(f: Format, g: Frame, src: seq<Byte>, before: seq<Byte>, after: seq<Byte>, x: nat, y: nat)
    requires Fits(g, |src|, |before|) && IsI420(f, g, src, before, after) && x < g.w && y < g.h
    ensures var from, to := g.sp + y * g.ss + 4 * x, g.yp + y * g.ys + x;
      && 0 <= from && from + 4 <= |src| && 0 <= to < |after|
      && after[to] == Luma(f, [src[from], src[from + 1], src[from + 2], src[from + 3]])
  {
    hide Luma, Fits, IsI420, PixelAt;
    LumaByteIs(f, g, src, before, after, x, y);
    assert PixelAt(src, SrcRow(g, y) + 4 * x) == [src[SrcRow(g, y) + 4 * x], src[SrcRow(g, y) + 4 * x + 1],
                                                  src[SrcRow(g, y) + 4 * x + 2], src[SrcRow(g, y) + 4 * x + 3]]
    by {
      PixelIs(src, SrcRow(g, y) + 4 * x);
    }
  }

  lemma PixelIs(m: seq<Byte>, at: int)
    requires 0 <= at && at + 4 <= |m|
    ensures PixelAt(m, at) == [m[at], m[at + 1], m[at + 2], m[at + 3]]
  {
  }

  lemma LumaByteIs(f: Format, g: Frame, src: seq<Byte>, before: seq<Byte>, after: seq<Byte>, x: nat, y: nat)
    requires Fits(g, |src|, |before|) && IsI420(f, g, src, before, after) && x < g.w && y < g.h
    ensures 0 <= SrcRow(g, y) && SrcRow(g, y) + 4 * g.w <= |src| && 0 <= Start(g, Row(PY, y)) + x < |after|
    ensures after[Start(g, Row(PY, y)) + x] == Luma(f, PixelAt(src, SrcRow(g, y) + 4 * x))
  {
    hide Luma, SrcRow, Start, PixelAt;
    var r := Row(PY, y);
    assert IsRow(g, r) && 0 <= SrcRow(g, y) && SrcRow(g, y) + 4 * g.w <= |src|;
    assert after[Start(g, r)..Start(g, r) + g.w][x] == Wanted(f, g, src, |before|, r)[x];
  }

  /** The pixel in column x and row y, or the last one of an odd width or height. */
  ghost predicate IsPixel(g: Frame, src: seq<Byte>, x: nat, y: nat, p: Pixel)
    requires g.w > 0 && g.h > 0
  {
    var from := g.sp + (if y < g.h then y else g.h - 1) * g.ss + 4 * (if x < g.w then x else g.w - 1);
    0 <= from && from + 4 <= |src| && p == [src[from], src[from + 1], src[from + 2], src[from + 3]]
  }

  lemma HasPixel(g: Frame, src: seq<Byte>, n: nat, x: nat, y: nat)
    requires Fits(g, |src|, n) && x < g.w && y < g.h
    ensures 0 <= SrcRow(g, y) && SrcRow(g, y) + 4 * g.w <= |src|
    ensures IsPixel(g, src, x, y, PixelAt(src, SrcRow(g, y) + 4 * x))
    ensures x == g.w - 1 ==> IsPixel(g, src, x + 1, y, PixelAt(src, SrcRow(g, y) + 4 * x))
    ensures y == g.h - 1 ==> IsPixel(g, src, x, y + 1, PixelAt(src, SrcRow(g, y) + 4 * x))
    ensures x == g.w - 1 && y == g.h - 1 ==> IsPixel(g, src, x + 1, y + 1, PixelAt(src, SrcRow(g, y) + 4 * x))
  {
  }

  /** Bytes (c, r) of the U and V planes: the chroma of the blend of pixels (2c, 2r) to
      (2c + 1, 2r + 1). */
  lemma ChromaBytesAt(f: Format, g: Frame, src: seq<Byte>, before: seq<Byte>, after: seq<Byte>, c: nat, r: nat,
                      p: Pixel, q: Pixel, s: Pixel, t: Pixel)
    requires Fits(g, |src|, |before|) && IsI420(f, g, src, before, after) && 2 * c < g.w && 2 * r < g.h
    requires IsPixel(g, src, 2 * c, 2 * r, p) && IsPixel(g, src, 2 * c, 2 * r + 1, q)
    requires IsPixel(g, src, 2 * c + 1, 2 * r, s) && IsPixel(g, src, 2 * c + 1, 2 * r + 1, t)
    ensures var u, v := g.up + r * g.us + c, g.vp + r * g.vs + c;
      && 0 <= u < |after| && 0 <= v < |after|
      && after[u] == ChromaU(f, Blend(p, q, s, t)) && after[v] == ChromaV(f, Blend(p, q, s, t))
  {
    hide Blend, ChromaU, ChromaV, IsPixel, PixelAt, Fits, IsI420, SrcRow;
    Corners(g, src, |before|, c, r, p, q, s, t);
    assert IsRow(g, Row(PU, r)) && IsRow(g, Row(PV, r));
    ChromaByteIs(f, g, src, before, after, Row(PU, r), c);
    ChromaByteIs(f, g, src, before, after, Row(PV, r), c);
  }

  lemma Corners(g: Frame, src: seq<Byte>, n: nat, c: nat, r: nat, p: Pixel, q: Pixel, s: Pixel, t: Pixel)
    requires Fits(g, |src|, n) && 2 * c < g.w && 2 * r < g.h
    requires IsPixel(g, src, 2 * c, 2 * r, p) && IsPixel(g, src, 2 * c, 2 * r + 1, q)
    requires IsPixel(g, src, 2 * c + 1, 2 * r, s) && IsPixel(g, src, 2 * c + 1, 2 * r + 1, t)
    ensures var x, y := NextColumn(g.w, c), NextColumn(g.h, r); var a, b := SrcRow(g, 2 * r), SrcRow(g, y);
      && 0 <= a && a + 4 * g.w <= |src| && 0 <= b && b + 4 * g.w <= |src|
      && p == PixelAt(src, a + 8 * c) && q == PixelAt(src, b + 8 * c)
      && s == PixelAt(src, a + 4 * x) && t == PixelAt(src, b + 4 * x)
  {
    hide IsPixel, PixelAt, SrcRow, Fits;
    var x, y := NextColumn(g.w, c), NextColumn(g.h, r);
    HasPixel(g, src, n, 2 * c, 2 * r);
    HasPixel(g, src, n, 2 * c, y);
    HasPixel(g, src, n, x, 2 * r);
    HasPixel(g, src, n, x, y);
    OnePixel(g, src, 2 * c, 2 * r, p, PixelAt(src, SrcRow(g, 2 * r) + 4 * (2 * c)));
    OnePixel(g, src, 2 * c, 2 * r + 1, q, PixelAt(src, SrcRow(g, y) + 4 * (2 * c)));
    OnePixel(g, src, 2 * c + 1, 2 * r, s, PixelAt(src, SrcRow(g, 2 * r) + 4 * x));
    OnePixel(g, src, 2 * c + 1, 2 * r + 1, t, PixelAt(src, SrcRow(g, y) + 4 * x));
  }

  lemma OnePixel(g: Frame, src: seq<Byte>, x: nat, y: nat, p: Pixel, q: Pixel)
    requires g.w > 0 && g.h > 0 && IsPixel(g, src, x, y, p) && IsPixel(g, src, x, y, q)
    ensures p == q
  {
  }

  lemma ChromaByteIs(f: Format, g: Frame, src: seq<Byte>, before: seq<Byte>, after: seq<Byte>, row: Row, c: nat)
    requires Fits(g, |src|, |before|) && IsI420(f, g, src, before, after) && IsRow(g, row) && !row.plane.PY?
    requires 2 * c < g.w
    ensures var y := NextColumn(g.h, row.k);
      && 0 <= SrcRow(g, 2 * row.k) && SrcRow(g, 2 * row.k) + 4 * g.w <= |src|
      && 0 <= SrcRow(g, y) && SrcRow(g, y) + 4 * g.w <= |src| && 0 <= Start(g, row) + c < |after|
      && after[Start(g, row) + c] == ChromaAt(f, if row.plane.PU? then PartU else PartV, src,
                                              SrcRow(g, 2 * row.k), SrcRow(g, y), g.w, c)
  {
    hide ChromaAt, SrcRow, Start;
    var n := Samples(g.w);
    assert 0 <= SrcRow(g, 2 * row.k) && SrcRow(g, 2 * row.k) + 4 * g.w <= |src|;
    assert after[Start(g, row)..Start(g, row) + n][c] == Wanted(f, g, src, |before|, row)[c];
  }

  method ToI420(isa: Isa, f: Format, src: array<Byte>, sp: int, ss: int, dst: array<Byte>, t: Target, width: int,
                height: int) returns (code: int)
    requires src != dst
    requires width > 0 && height != 0 ==> Fits(Upright(sp, ss, t, width, height), src.Length, dst.Length)
    modifies dst
    ensures width <= 0 || height == 0 ==> code == -1 && dst[..] == old(dst[..])
    ensures width > 0 && height != 0 ==> code == 0
    ensures width > 0 && height != 0 ==>
      var g := Upright(sp, ss, t, width, height);
      && dst[..] == Converted(isa, f, g, src[..], old(dst[..]))
      && (Disjoint(g) ==> IsI420(f, g, src[..], old(dst[..]), dst[..]))
  {
    hide Written, Fits, Disjoint, IsI420;
    if width <= 0 || height == 0 {
      return -1;
    }
    var h, s, stride := height, sp, ss;
    if h < 0 {
      h := -h;
      s := s + (h - 1) * stride;
      stride := -stride;
    }
    var exact := if isa.SSSE3? then width % 16 == 0 else width % 32 == 0;
    var g := Frame(s, stride, t.yp, t.ys, t.up, t.us, t.vp, t.vs, width, h);
    ghost var before := dst[..];
    ghost var m := src[..];
    ConvertRows(isa, exact, f, src, dst, g);
    assert src[..] == m;
    if Disjoint(g) {
      ConvertedIsI420(isa, f, g, m, before);
    }
    code := 0;
  }

  method BGRAToI420(src: array<Byte>, sp: int, ss: int, dst: array<Byte>, t: Target, width: int, height: int)
    returns (code: int)
    requires src != dst
    requires width > 0 && height != 0 ==> Fits(Upright(sp, ss, t, width, height), src.Length, dst.Length)
    modifies dst
    ensures width <= 0 || height == 0 ==> code == -1 && dst[..] == old(dst[..])
    ensures width > 0 && height != 0 ==> code == 0
    ensures width > 0 && height != 0 ==>
      var g := Upright(sp, ss, t, width, height);
      && dst[..] == Converted(SSSE3, BGRA, g, src[..], old(dst[..]))
      && (Disjoint(g) ==> IsI420(BGRA, g, src[..], old(dst[..]), dst[..]))
  {
    code := ToI420(SSSE3, BGRA, src, sp, ss, dst, t, width, height);
  }

  method ARGBToI420(src: array<Byte>, sp: int, ss: int, dst: array<Byte>, t: Target, width: int, height: int)
    returns (code: int)
    requires src != dst
    requires width > 0 && height != 0 ==> Fits(Upright(sp, ss, t, width, height), src.Length, dst.Length)
    modifies dst
    ensures width <= 0 || height == 0 ==> code == -1 && dst[..] == old(dst[..])
    ensures width > 0 && height != 0 ==> code == 0
    ensures width > 0 && height != 0 ==>
      var g := Upright(sp, ss, t, width, height);
      && dst[..] == Converted(AVX2, ARGB, g, src[..], old(dst[..]))
      && (Disjoint(g) ==> IsI420(ARGB, g, src[..], old(dst[..]), dst[..]))
  {
    code := ToI420(AVX2, ARGB, src, sp, ss, dst, t, width, height);
  }

  method ABGRToI420(src: array<Byte>, sp: int, ss: int, dst: array<Byte>, t: Target, width: int, height: int)
    returns (code: int)
    requires src != dst
    requires width > 0 && height != 0 ==> Fits(Upright(sp, ss, t, width, height), src.Length, dst.Length)
    modifies dst
    ensures width <= 0 || height == 0 ==> code == -1 && dst[..] == old(dst[..])
    ensures width > 0 && height != 0 ==> code == 0
    ensures width > 0 && height != 0 ==>
      var g := Upright(sp, ss, t, width, height);
      && dst[..] == Converted(SSSE3, ABGR, g, src[..], old(dst[..]))
      && (Disjoint(g) ==> IsI420(ABGR, g, src[..], old(dst[..]), dst[..]))
  {
    code := ToI420(SSSE3, ABGR, src, sp, ss, dst, t, width, height);
  }

  // ---- equal images give equal planes --------------------------------------

  ghost predicate SameColour(f: Format, p: Pixel, e: Format, q: Pixel) {
    Red(f, p) == Red(e, q) && Green(f, p) == Green(e, q) && Blue(f, p) == Blue(e, q)
  }

  /** Two frames that write to the same place. */
  ghost predicate SameTarget(g: Frame, k: Frame) {
    k == g.(sp := k.sp, ss := k.ss)
  }

  ghost predicate SamePixel(f: Format, g: Frame, src: seq<Byte>, e: Format, k: Frame, tgt: seq<Byte>, x: int, y: int) {
    && 0 <= SrcRow(g, y) + 4 * x && SrcRow(g, y) + 4 * x + 4 <= |src|
    && 0 <= SrcRow(k, y) + 4 * x && SrcRow(k, y) + 4 * x + 4 <= |tgt|
    && SameColour(f, PixelAt(src, SrcRow(g, y) + 4 * x), e, PixelAt(tgt, SrcRow(k, y) + 4 * x))
  }

  /** The two sources show the same picture, each in its own layout. */
  ghost predicate SamePicture(f: Format, g: Frame, src: seq<Byte>, e: Format, k: Frame, tgt: seq<Byte>) {
    forall x, y :: 0 <= x < g.w && 0 <= y < g.h ==> SamePixel(f, g, src, e, k, tgt, x, y)
  }

  lemma BlendSame(f: Format, a: Pixel, b: Pixel, c: Pixel, d: Pixel, e: Format, p: Pixel, q: Pixel, r: Pixel, s: Pixel)
    requires SameColour(f, a, e, p) && SameColour(f, b, e, q) && SameColour(f, c, e, r) && SameColour(f, d, e, s)
    ensures SameColour(f, Blend(a, b, c, d), e, Blend(p, q, r, s))
  {
    hide Mean;
  }

  lemma WantedSame(f: Format, g: Frame, src: seq<Byte>, e: Format, k: Frame, tgt: seq<Byte>, n: nat, r: Row)
    requires Fits(g, |src|, n) && Fits(k, |tgt|, n) && IsRow(g, r)
    requires SameTarget(g, k) && SamePicture(f, g, src, e, k, tgt)
    ensures IsRow(k, r) && Wanted(f, g, src, n, r) == Wanted(e, k, tgt, n, r)
  {
    hide Fits, SamePixel, SrcRow, Luma, ChromaAt, Start;
    assert IsRow(k, r);
    var a, b := Wanted(f, g, src, n, r), Wanted(e, k, tgt, n, r);
    forall i | 0 <= i < |a|
      ensures a[i] == b[i]
    {
      if r.plane.PY? {
        LumaSame(f, g, src, e, k, tgt, n, r.k, i);
      } else {
        ChromaSame(f, if r.plane.PU? then PartU else PartV, g, src, e, k, tgt, n, r.k, i);
      }
    }
  }

  lemma LumaSame(f: Format, g: Frame, src: seq<Byte>, e: Format, k: Frame, tgt: seq<Byte>, n: nat, y: nat, x: nat)
    requires Fits(g, |src|, n) && Fits(k, |tgt|, n) && y < g.h && x < g.w
    requires SameTarget(g, k) && SamePicture(f, g, src, e, k, tgt)
    ensures 0 <= SrcRow(g, y) && SrcRow(g, y) + 4 * g.w <= |src| && 0 <= SrcRow(k, y) && SrcRow(k, y) + 4 * g.w <= |tgt|
    ensures Luma(f, PixelAt(src, SrcRow(g, y) + 4 * x)) == Luma(e, PixelAt(tgt, SrcRow(k, y) + 4 * x))
  {
    hide PixelAt, SrcRow, Red, Green, Blue;
    assert SamePixel(f, g, src, e, k, tgt, x, y);
  }

  lemma PixelSame(f: Format, g: Frame, src: seq<Byte>, e: Format, k: Frame, tgt: seq<Byte>, x: int, y: int)
    requires SamePicture(f, g, src, e, k, tgt) && 0 <= x < g.w && 0 <= y < g.h
    ensures 0 <= SrcRow(g, y) + 4 * x && SrcRow(g, y) + 4 * x + 4 <= |src|
    ensures 0 <= SrcRow(k, y) + 4 * x && SrcRow(k, y) + 4 * x + 4 <= |tgt|
    ensures SameColour(f, PixelAt(src, SrcRow(g, y) + 4 * x), e, PixelAt(tgt, SrcRow(k, y) + 4 * x))
  {
    hide PixelAt, SrcRow, SameColour;
    assert SamePixel(f, g, src, e, k, tgt, x, y);
  }

  lemma SameChroma(f: Format, part: Part, p: Pixel, e: Format, q: Pixel)
    requires SameColour(f, p, e, q)
    ensures Chroma(f, part, p) == Chroma(e, part, q)
  {
    hide Red, Green, Blue;
  }

  lemma ChromaSame(f: Format, part: Part, g: Frame, src: seq<Byte>, e: Format, k: Frame, tgt: seq<Byte>, n: nat,
                   c: nat, x: nat)
    requires Fits(g, |src|, n) && Fits(k, |tgt|, n) && c < Samples(g.h) && x < Samples(g.w)
    requires SameTarget(g, k) && SamePicture(f, g, src, e, k, tgt)
    ensures var d := NextColumn(g.h, c);
      && 0 <= SrcRow(g, 2 * c) && SrcRow(g, 2 * c) + 4 * g.w <= |src| && 0 <= SrcRow(k, 2 * c)
         && SrcRow(k, 2 * c) + 4 * g.w <= |tgt|
      && 0 <= SrcRow(g, d) && SrcRow(g, d) + 4 * g.w <= |src| && 0 <= SrcRow(k, d) && SrcRow(k, d) + 4 * g.w <= |tgt|
      && ChromaAt(f, part, src, SrcRow(g, 2 * c), SrcRow(g, d), g.w, x)
         == ChromaAt(e, part, tgt, SrcRow(k, 2 * c), SrcRow(k, d), g.w, x)
  {
    hide PixelAt, SrcRow, Chroma, Blend, SamePicture, SameColour;
    var d, z := NextColumn(g.h, c), NextColumn(g.w, x);
    PixelSame(f, g, src, e, k, tgt, 2 * x, 2 * c);
    PixelSame(f, g, src, e, k, tgt, 2 * x, d);
    PixelSame(f, g, src, e, k, tgt, z, 2 * c);
    PixelSame(f, g, src, e, k, tgt, z, d);
    var p, q, s, t := SrcRow(g, 2 * c), SrcRow(g, d), SrcRow(k, 2 * c), SrcRow(k, d);
    var a, b := PixelAt(src, p + 8 * x), PixelAt(src, q + 8 * x);
    var u, v := PixelAt(tgt, s + 8 * x), PixelAt(tgt, t + 8 * x);
    BlendSame(f, a, b, PixelAt(src, p + 4 * z), PixelAt(src, q + 4 * z),
              e, u, v, PixelAt(tgt, s + 4 * z), PixelAt(tgt, t + 4 * z));
    SameChroma(f, part, Blend(a, b, PixelAt(src, p + 4 * z), PixelAt(src, q + 4 * z)),
               e, Blend(u, v, PixelAt(tgt, s + 4 * z), PixelAt(tgt, t + 4 * z)));
  }

  /** A row call on the same picture writes the same bytes: in the same instruction set
      always, in different ones when it does not write over itself. */
  lemma PutSame(isa: Isa, f: Format, g: Frame, src: seq<Byte>, other: Isa, e: Format, k: Frame, tgt: seq<Byte>,
                m: seq<Byte>, z: Write)
    requires Fits(g, |src|, |m|) && Fits(k, |tgt|, |m|) && IsWrite(g, z)
    requires SameTarget(g, k) && SamePicture(f, g, src, e, k, tgt) && (isa == other || PairsApart(g))
    ensures IsWrite(k, z) && Put(isa, f, g, src, m, z) == Put(other, e, k, tgt, m, z)
  {
    hide SamePicture, Wanted, Splice, InBlocks, Start;
    match z
    case LumaLine(y) =>
      var r := Row(PY, y);
      assert IsRow(g, r);
      WantedSame(f, g, src, e, k, tgt, |m|, r);
      SameStart(g, k, r);
    case ChromaPair(c) =>
      var u, v := Row(PU, c), Row(PV, c);
      assert IsRow(g, u) && IsRow(g, v);
      WantedSame(f, g, src, e, k, tgt, |m|, u);
      WantedSame(f, g, src, e, k, tgt, |m|, v);
      SameStart(g, k, u);
      SameStart(g, k, v);
      if isa != other {
        var wu, wv := Wanted(f, g, src, |m|, u), Wanted(f, g, src, |m|, v);
        InBlocksApart(isa, wu, wv, m, Start(g, u), Start(g, v));
        InBlocksApart(other, wu, wv, m, Start(g, u), Start(g, v));
      }
  }

  lemma SameStart(g: Frame, k: Frame, r: Row)
    requires SameTarget(g, k)
    ensures Start(g, r) == Start(k, r)
  {
  }

  lemma {:induction false} WrittenSame(isa: Isa, f: Format, g: Frame, src: seq<Byte>, other: Isa, e: Format, k: Frame,
                                       tgt: seq<Byte>,
                                       s: seq<Write>, dst: seq<Byte>)
    requires Fits(g, |src|, |dst|) && Fits(k, |tgt|, |dst|) && AllWrites(g, s)
    requires SameTarget(g, k) && SamePicture(f, g, src, e, k, tgt) && (isa == other || PairsApart(g))
    ensures AllWrites(k, s) && Written(isa, f, g, src, s, dst) == Written(other, e, k, tgt, s, dst)
  {
    hide Fits, SamePicture, Put, PairsApart;
    if s != [] {
      var z, t := s[|s| - 1], s[..|s| - 1];
      WrittenSame(isa, f, g, src, other, e, k, tgt, t, dst);
      PutSame(isa, f, g, src, other, e, k, tgt, Written(isa, f, g, src, t, dst), z);
      assert forall i :: 0 <= i < |s| ==> IsWrite(g, s[i]) ==> IsWrite(k, s[i]);
    }
  }

  /** Two sources that show the same picture convert to the same bytes, whatever their
      pixel layout, pointer and stride; and whichever row functions run, unless a pair's U
      and V rows overlap, where the block size decides which of them is seen. */
  lemma SamePictureSamePlanes(isa: Isa, f: Format, g: Frame, src: seq<Byte>, other: Isa, e: Format, k: Frame,
                              tgt: seq<Byte>, dst: seq<Byte>)
    requires Fits(g, |src|, |dst|) && Fits(k, |tgt|, |dst|)
    requires SameTarget(g, k) && SamePicture(f, g, src, e, k, tgt) && (isa == other || PairsApart(g))
    ensures Converted(isa, f, g, src, dst) == Converted(other, e, k, tgt, dst)
  {
    ScheduleIsEveryRow(g, Row(PY, 0));
    WrittenSame(isa, f, g, src, other, e, k, tgt, Schedule(g.h), dst);
  }

  // ---- consequences --------------------------------------------------------

  /** Pixel (x, y) of `swapped` is that of `src` with its first and third byte exchanged. */
  ghost predicate RedBlueSwapped(g: Frame, src: seq<Byte>, swapped: seq<Byte>, x: int, y: int) {
    var at := SrcRow(g, y) + 4 * x;
    && 0 <= at && at + 4 <= |src| && at + 4 <= |swapped|
    && PixelAt(swapped, at) == [src[at + 2], src[at + 1], src[at], src[at + 3]]
  }

  /** The SSSE3 path on a picture with red and blue exchanged in memory writes the same
      bytes as the AVX2 path on the picture itself, for every size and stride that keeps the
      two chroma rows of each pair apart. */
  lemma VectorPathsAgree(g: Frame, src: seq<Byte>, swapped: seq<Byte>, dst: seq<Byte>)
    requires Fits(g, |src|, |dst|) && PairsApart(g) && |swapped| == |src|
    requires forall x, y :: 0 <= x < g.w && 0 <= y < g.h ==> RedBlueSwapped(g, src, swapped, x, y)
    ensures Converted(SSSE3, ABGR, g, swapped, dst) == Converted(AVX2, ARGB, g, src, dst)
  {
    hide SrcRow, Converted, PairsApart;
    forall x, y | 0 <= x < g.w && 0 <= y < g.h
      ensures SamePixel(ABGR, g, swapped, ARGB, g, src, x, y)
    {
      assert RedBlueSwapped(g, src, swapped, x, y);
    }
    SamePictureSamePlanes(SSSE3, ABGR, g, swapped, AVX2, ARGB, g, src, dst);
  }

  /** Converting with height -h equals converting the row-reversed picture with height h. */
  lemma NegativeHeightFlips(isa: Isa, f: Format, sp: int, ss: int, src: seq<Byte>, rp: int, rs: int,
                            reversed: seq<Byte>,
                            t: Target, w: int, h: int, dst: seq<Byte>)
    requires w > 0 && h > 0
    requires Fits(Upright(sp, ss, t, w, -h), |src|, |dst|) && Fits(Upright(rp, rs, t, w, h), |reversed|, |dst|)
    requires var g, k := Upright(sp, ss, t, w, h), Upright(rp, rs, t, w, h);
      forall x, y :: 0 <= x < w && 0 <= y < h ==> SamePixelFlipped(g, src, k, reversed, x, y)
    ensures Converted(isa, f, Upright(sp, ss, t, w, -h), src, dst)
      == Converted(isa, f, Upright(rp, rs, t, w, h), reversed, dst)
  {
    var g, k := Upright(sp, ss, t, w, h), Upright(rp, rs, t, w, h);
    var d := Upright(sp, ss, t, w, -h);
    forall x, y | 0 <= x < w && 0 <= y < h
      ensures SamePixel(f, d, src, f, k, reversed, x, y)
    {
      assert SamePixelFlipped(g, src, k, reversed, x, y);
      FlippedRow(sp, ss, t, w, h, y);
    }
    hide Converted;
    SamePictureSamePlanes(isa, f, d, src, isa, f, k, reversed, dst);
  }

  ghost predicate SamePixelFlipped(g: Frame, src: seq<Byte>, k: Frame, tgt: seq<Byte>, x: int, y: int) {
    && 0 <= SrcRow(g, g.h - 1 - y) + 4 * x && SrcRow(g, g.h - 1 - y) + 4 * x + 4 <= |src|
    && 0 <= SrcRow(k, y) + 4 * x && SrcRow(k, y) + 4 * x + 4 <= |tgt|
    && PixelAt(tgt, SrcRow(k, y) + 4 * x) == PixelAt(src, SrcRow(g, g.h - 1 - y) + 4 * x)
  }

  lemma FlippedRow(sp: int, ss: int, t: Target, w: int, h: int, y: int)
    requires w > 0 && h > 0
    ensures SrcRow(Upright(sp, ss, t, w, -h), y) == SrcRow(Upright(sp, ss, t, w, h), h - 1 - y)
  {
  }
}
