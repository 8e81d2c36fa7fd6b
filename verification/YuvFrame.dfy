/** The frame loops of yuv.c. Source and destination pointers are offsets into two
    separate buffers; the three planes share the destination buffer, so they may lie
    anywhere in it, even on top of each other. */
module YuvFrame {
  import opened Bytes
  import opened Simd
  import opened I420
  import opened YuvKernels
  import opened YuvRows

  /** Pointers, strides and size of one conversion, height already made positive. */
  datatype Frame = Frame(sp: int, ss: int, yp: int, ys: int, up: int, us: int, vp: int, vs: int, w: nat, h: nat)

  datatype Plane = PY | PU | PV

  /** Row k of a plane. */
  datatype Row = Row(plane: Plane, k: nat)

  function SrcRow(g: Frame, y: int): (r: int) { g.sp + y * g.ss }

  function Start(g: Frame, r: Row): (res: int) {
    match r.plane
    case PY => g.yp + r.k * g.ys
    case PU => g.up + r.k * g.us
    case PV => g.vp + r.k * g.vs
  }

  function Length(g: Frame, p: Plane): (r: nat) {
    if p.PY? then g.w else Samples(g.w)
  }

  function Count(g: Frame, p: Plane): (r: nat) {
    if p.PY? then g.h else Samples(g.h)
  }

  ghost predicate IsRow(g: Frame, r: Row) { r.k < Count(g, r.plane) }

  /** Every source row can be read and every destination row written. */
  ghost predicate Fits(g: Frame, srcLen: nat, dstLen: nat) {
    && (forall y :: 0 <= y < g.h ==> 0 <= SrcRow(g, y) && SrcRow(g, y) + 4 * g.w <= srcLen)
    && (forall r :: IsRow(g, r) ==> 0 <= Start(g, r) && Start(g, r) + Length(g, r.plane) <= dstLen)
  }

  /** What belongs in a row: luma of its source row, or chroma of its two source rows
      (the last row of an odd frame counts twice). */
  ghost function Wanted(f: Format, g: Frame, src: seq<Byte>, dstLen: nat, r: Row): (b: seq<Byte>)
    requires Fits(g, |src|, dstLen) && IsRow(g, r)
    ensures |b| == Length(g, r.plane)
  {
    match r.plane
    case PY => LumaRow(f, src, SrcRow(g, r.k), g.w)
    case PU => ChromaRow(f, PartU, src, SrcRow(g, 2 * r.k), SrcRow(g, NextColumn(g.h, r.k)), g.w)
    case PV => ChromaRow(f, PartV, src, SrcRow(g, 2 * r.k), SrcRow(g, NextColumn(g.h, r.k)), g.w)
  }

  // ---- the order of the writes ---------------------------------------------

  /** One row call: both chroma rows of a pair, or one luma row. */
  datatype Write = ChromaPair(k: nat) | LumaLine(y: nat)

  ghost predicate IsWrite(g: Frame, z: Write) {
    match z
    case ChromaPair(k) => k < Samples(g.h)
    case LumaLine(y) => y < g.h
  }

  /** The call that writes a row. */
  function WriterOf(r: Row): (z: Write) { if r.plane.PY? then LumaLine(r.k) else ChromaPair(r.k) }

  ghost function Pairs(i: nat): (s: seq<Write>) {
    if i == 0 then [] else Pairs(i - 1) + [ChromaPair(i - 1), LumaLine(2 * i - 2), LumaLine(2 * i - 1)]
  }

  ghost function Schedule(h: nat): (s: seq<Write>) {
    Pairs(h / 2) + if h % 2 == 1 then [ChromaPair(h / 2), LumaLine(h - 1)] else []
  }

  ghost predicate AllWrites(g: Frame, s: seq<Write>) { forall i :: 0 <= i < |s| ==> IsWrite(g, s[i]) }

  /** Memory m after one row call. */
  ghost function Put(isa: Isa, f: Format, g: Frame, src: seq<Byte>, m: seq<Byte>, z: Write): (n: seq<Byte>)
    requires Fits(g, |src|, |m|) && IsWrite(g, z)
    ensures |n| == |m|
  {
    match z
    case ChromaPair(k) =>
      var u, v := Row(PU, k), Row(PV, k);
      assert IsRow(g, u) && IsRow(g, v);
      InBlocks(isa, Wanted(f, g, src, |m|, u), Wanted(f, g, src, |m|, v), m, Start(g, u), Start(g, v))
    case LumaLine(y) =>
      var r := Row(PY, y);
      assert IsRow(g, r);
      Splice(m, Start(g, r), Wanted(f, g, src, |m|, r))
  }

  /** Memory after the row calls of s in order. */
  ghost function Written(isa: Isa, f: Format, g: Frame, src: seq<Byte>, s: seq<Write>, dst: seq<Byte>): (r: seq<Byte>)
    requires Fits(g, |src|, |dst|) && AllWrites(g, s)
    ensures |r| == |dst|
  {
    if s == [] then dst else Put(isa, f, g, src, Written(isa, f, g, src, s[..|s| - 1], dst), s[|s| - 1])
  }

  lemma WrittenNext(isa: Isa, f: Format, g: Frame, src: seq<Byte>, s: seq<Write>, z: Write, dst: seq<Byte>)
    requires Fits(g, |src|, |dst|) && AllWrites(g, s) && IsWrite(g, z)
    ensures AllWrites(g, s + [z])
    ensures Written(isa, f, g, src, s + [z], dst) == Put(isa, f, g, src, Written(isa, f, g, src, s, dst), z)
  {
    hide Put, Fits;
    assert (s + [z])[..|s + [z]| - 1] == s;
  }

  // ---- what the result holds -----------------------------------------------

  ghost predicate Clear(g: Frame, q: Row, r: Row) {
    Start(g, q) + Length(g, q.plane) <= Start(g, r) || Start(g, r) + Length(g, r.plane) <= Start(g, q)
  }

  /** No two rows of the destination overlap. */
  ghost predicate Disjoint(g: Frame) {
    forall q, r :: IsRow(g, q) && IsRow(g, r) && q != r ==> Clear(g, q, r)
  }

  /** The two chroma rows of every pair lie apart. */
  ghost predicate PairsApart(g: Frame) {
    forall k: nat :: k < Samples(g.h) ==> Apart(Start(g, Row(PU, k)), Start(g, Row(PV, k)), Samples(g.w))
  }

  lemma DisjointPairs(g: Frame)
    requires Disjoint(g)
    ensures PairsApart(g)
  {
    forall k: nat | k < Samples(g.h)
      ensures Apart(Start(g, Row(PU, k)), Start(g, Row(PV, k)), Samples(g.w))
    {
      assert IsRow(g, Row(PU, k)) && IsRow(g, Row(PV, k)) && Clear(g, Row(PU, k), Row(PV, k));
    }
  }

  ghost predicate Outside(g: Frame, a: int, r: Row) {
    a < Start(g, r) || Start(g, r) + Length(g, r.plane) <= a
  }

  /** With a pair's rows apart, its call is one splice for each. */
  lemma ChromaSplices(isa: Isa, f: Format, g: Frame, src: seq<Byte>, m: seq<Byte>, k: nat)
    requires Fits(g, |src|, |m|) && PairsApart(g) && k < Samples(g.h)
    ensures var u, v := Row(PU, k), Row(PV, k);
      && IsRow(g, u) && IsRow(g, v)
      && Put(isa, f, g, src, m, ChromaPair(k))
         == Splice(Splice(m, Start(g, u), Wanted(f, g, src, |m|, u)), Start(g, v), Wanted(f, g, src, |m|, v))
  {
    hide Wanted, InBlocks, Splice, Start;
    var u, v := Row(PU, k), Row(PV, k);
    assert IsRow(g, u) && IsRow(g, v);
    InBlocksApart(isa, Wanted(f, g, src, |m|, u), Wanted(f, g, src, |m|, v), m, Start(g, u), Start(g, v));
  }

  lemma SpliceKeepsRow(g: Frame, m: seq<Byte>, z: Row, row: seq<Byte>, q: Row)
    requires IsRow(g, q) && IsRow(g, z) && Clear(g, q, z) && |row| == Length(g, z.plane)
    requires 0 <= Start(g, z) && Start(g, z) + |row| <= |m| && 0 <= Start(g, q)
    requires Start(g, q) + Length(g, q.plane) <= |m|
    ensures Splice(m, Start(g, z), row)[Start(g, q)..Start(g, q) + Length(g, q.plane)]
         == m[Start(g, q)..Start(g, q) + Length(g, q.plane)]
  {
    SpliceElsewhere(m, Start(g, z), row, Start(g, q), Length(g, q.plane));
  }

  lemma SpliceLands(g: Frame, m: seq<Byte>, q: Row, row: seq<Byte>)
    requires |row| == Length(g, q.plane) && 0 <= Start(g, q) && Start(g, q) + |row| <= |m|
    ensures Splice(m, Start(g, q), row)[Start(g, q)..Start(g, q) + Length(g, q.plane)] == row
  {
    SpliceAt(m, Splice(m, Start(g, q), row), Start(g, q), row);
  }

  /** A row call puts its own rows in place and leaves every other row. */
  lemma PutRow(isa: Isa, f: Format, g: Frame, src: seq<Byte>, m: seq<Byte>, z: Write, q: Row)
    requires Fits(g, |src|, |m|) && Disjoint(g) && IsWrite(g, z) && IsRow(g, q)
    ensures var at, end := Start(g, q), Start(g, q) + Length(g, q.plane);
      Put(isa, f, g, src, m, z)[at..end] == if z == WriterOf(q) then Wanted(f, g, src, |m|, q) else m[at..end]
  {
    hide Wanted, Splice, Start, Length, Clear;
    match z
    case LumaLine(y) =>
      var r := Row(PY, y);
      assert IsRow(g, r) && (q != r ==> Clear(g, q, r));
      if q == r {
        SpliceLands(g, m, r, Wanted(f, g, src, |m|, r));
      } else {
        SpliceKeepsRow(g, m, r, Wanted(f, g, src, |m|, r), q);
      }
    case ChromaPair(k) =>
      var u, v := Row(PU, k), Row(PV, k);
      DisjointPairs(g);
      ChromaSplices(isa, f, g, src, m, k);
      var wu, wv := Wanted(f, g, src, |m|, u), Wanted(f, g, src, |m|, v);
      var mid := Splice(m, Start(g, u), wu);
      if q == v {
        SpliceLands(g, mid, v, wv);
      } else {
        assert Clear(g, q, v);
        SpliceKeepsRow(g, mid, v, wv, q);
        if q == u {
          SpliceLands(g, m, u, wu);
        } else {
          assert Clear(g, q, u);
          SpliceKeepsRow(g, m, u, wu, q);
        }
      }
  }

  lemma {:induction false} RowsLand(isa: Isa, f: Format, g: Frame, src: seq<Byte>, s: seq<Write>, dst: seq<Byte>,
                                    q: Row)
    requires Fits(g, |src|, |dst|) && AllWrites(g, s) && Disjoint(g) && IsRow(g, q) && WriterOf(q) in s
    ensures Written(isa, f, g, src, s, dst)[Start(g, q)..Start(g, q) + Length(g, q.plane)]
      == Wanted(f, g, src, |dst|, q)
  {
    hide Put, Wanted, Start, Length, Disjoint;
    var z, t := s[|s| - 1], s[..|s| - 1];
    PutRow(isa, f, g, src, Written(isa, f, g, src, t, dst), z, q);
    if z != WriterOf(q) {
      RowsLand(isa, f, g, src, t, dst, q);
    }
  }

  /** A row call stays inside its rows, overlapping or not. */
  lemma PutElsewhere(isa: Isa, f: Format, g: Frame, src: seq<Byte>, m: seq<Byte>, z: Write, a: nat)
    requires Fits(g, |src|, |m|) && IsWrite(g, z) && a < |m|
    requires forall r :: IsRow(g, r) ==> Outside(g, a, r)
    ensures Put(isa, f, g, src, m, z)[a] == m[a]
  {
    hide Wanted, InBlocks, Start, BlockOf;
    match z
    case LumaLine(y) =>
      assert Outside(g, a, Row(PY, y));
    case ChromaPair(k) =>
      var u, v := Row(PU, k), Row(PV, k);
      assert Outside(g, a, u) && Outside(g, a, v);
      InBlocksAt(isa, Wanted(f, g, src, |m|, u), Wanted(f, g, src, |m|, v), m, Start(g, u), Start(g, v), a);
  }

  /** Bytes outside every row keep their value, disjoint rows or not. */
  lemma {:induction false} OthersStay(isa: Isa, f: Format, g: Frame, src: seq<Byte>, s: seq<Write>, dst: seq<Byte>,
                                      a: nat)
    requires Fits(g, |src|, |dst|) && AllWrites(g, s) && a < |dst|
    requires forall r :: IsRow(g, r) ==> Outside(g, a, r)
    ensures Written(isa, f, g, src, s, dst)[a] == dst[a]
  {
    hide Put, Outside;
    if s != [] {
      var z, t := s[|s| - 1], s[..|s| - 1];
      OthersStay(isa, f, g, src, t, dst, a);
      PutElsewhere(isa, f, g, src, Written(isa, f, g, src, t, dst), z, a);
    }
  }

  ghost function Pair(i: nat): (s: seq<Write>)
    requires i > 0
  {
    [ChromaPair(i - 1), LumaLine(2 * i - 2), LumaLine(2 * i - 1)]
  }

  lemma PairsAreWrites(g: Frame, i: nat)
    requires 2 * i <= g.h
    ensures AllWrites(g, Pairs(i))
  {
    if i > 0 {
      PairsAreWrites(g, i - 1);
      assert Pairs(i) == Pairs(i - 1) + Pair(i);
      assert forall j :: 0 <= j < 3 ==> IsWrite(g, Pair(i)[j]);
    }
  }

  lemma PairsHaveRow(i: nat, r: Row)
    requires r.k < if r.plane.PY? then 2 * i else i
    ensures WriterOf(r) in Pairs(i)
  {
    assert Pairs(i) == Pairs(i - 1) + Pair(i);
    if r.k < if r.plane.PY? then 2 * (i - 1) else i - 1 {
      PairsHaveRow(i - 1, r);
    } else {
      var p, z := Pair(i), WriterOf(r);
      assert z == p[0] || z == p[1] || z == p[2];
    }
  }

  /** The schedule writes exactly the rows there are. */
  lemma ScheduleIsEveryRow(g: Frame, r: Row)
    ensures AllWrites(g, Schedule(g.h))
    ensures IsRow(g, r) <==> WriterOf(r) in Schedule(g.h)
  {
    PairsAreWrites(g, g.h / 2);
    var last := if g.h % 2 == 1 then [ChromaPair(g.h / 2), LumaLine(g.h - 1)] else [];
    assert forall j :: 0 <= j < |last| ==> IsWrite(g, last[j]);
    assert Schedule(g.h) == Pairs(g.h / 2) + last;
    if IsRow(g, r) {
      if r.k < if r.plane.PY? then 2 * (g.h / 2) else g.h / 2 {
        PairsHaveRow(g.h / 2, r);
      } else {
        assert WriterOf(r) == last[0] || WriterOf(r) == last[1];
      }
    }
  }

  // ---- the frame loop ------------------------------------------------------

  /** A chroma row call: `exact` is the choice made once per frame between the vector row
      and its any-width wrapper. */
  method UVRow(isa: Isa, exact: bool, f: Format, src: array<Byte>, sp: int, stride: int, dst: array<Byte>, up: int,
               vp: int, width: nat)
    requires src != dst && 0 < width && (exact ==> Whole(isa, width))
    requires 0 <= sp && sp + 4 * width <= src.Length
    requires 0 <= sp + stride && sp + stride + 4 * width <= src.Length
    requires 0 <= up && up + Samples(width) <= dst.Length && 0 <= vp && vp + Samples(width) <= dst.Length
    modifies dst
    ensures dst[..] == WithChroma(isa, f, src[..], sp, sp + stride, width, old(dst[..]), up, vp)
  {
    hide WithChroma;
    ghost var m := src[..];
    if exact {
      UVRowKernel(isa, f, src, sp, stride, dst, up, vp, width);
    } else {
      UVRowAny(isa, f, src, sp, stride, dst, up, vp, width);
    }
    assert src[..] == m;
  }

  method YRow(isa: Isa, exact: bool, f: Format, src: array<Byte>, sp: int, dst: array<Byte>, dp: int, width: nat)
    requires src != dst && 0 < width && (exact ==> Whole(isa, width))
    requires 0 <= sp && sp + 4 * width <= src.Length && 0 <= dp && dp + width <= dst.Length
    modifies dst
    ensures dst[..] == Splice(old(dst[..]), dp, LumaRow(f, src[..], sp, width))
  {
    hide Splice, LumaRow;
    ghost var m := src[..];
    if exact {
      YRowKernel(isa, f, src, sp, dst, dp, width);
    } else {
      YRowAny(isa, f, src, sp, dst, dp, width);
    }
    assert src[..] == m;
  }

  /** The three row calls of pair i, in the order they are made. */
  lemma PairWritten(isa: Isa, f: Format, g: Frame, src: seq<Byte>, i: nat, dst: seq<Byte>)
    requires Fits(g, |src|, |dst|) && 2 * i + 2 <= g.h
    ensures AllWrites(g, Pairs(i)) && AllWrites(g, Pairs(i + 1))
    ensures forall z :: z in Pair(i + 1) ==> IsWrite(g, z)
    ensures Written(isa, f, g, src, Pairs(i + 1), dst)
         == Put(isa, f, g, src, Put(isa, f, g, src, Put(isa, f, g, src, Written(isa, f, g, src, Pairs(i), dst),
              ChromaPair(i)), LumaLine(2 * i)), LumaLine(2 * i + 1))
  {
    hide Put, Fits, AllWrites;
    PairsAreWrites(g, i);
    var s := Pairs(i);
    WrittenNext(isa, f, g, src, s, ChromaPair(i), dst);
    WrittenNext(isa, f, g, src, s + [ChromaPair(i)], LumaLine(2 * i), dst);
    WrittenNext(isa, f, g, src, s + [ChromaPair(i)] + [LumaLine(2 * i)], LumaLine(2 * i + 1), dst);
    assert s + [ChromaPair(i)] + [LumaLine(2 * i)] + [LumaLine(2 * i + 1)] == Pairs(i + 1);
  }

  /** The two row calls an odd height leaves. */
  lemma LastWritten(isa: Isa, f: Format, g: Frame, src: seq<Byte>, dst: seq<Byte>)
    requires Fits(g, |src|, |dst|) && g.h % 2 == 1
    ensures AllWrites(g, Pairs(g.h / 2)) && AllWrites(g, Schedule(g.h))
    ensures Samples(g.h) == g.h / 2 + 1
    ensures Written(isa, f, g, src, Schedule(g.h), dst)
         == Put(isa, f, g, src, Put(isa, f, g, src, Written(isa, f, g, src, Pairs(g.h / 2), dst),
              ChromaPair(g.h / 2)), LumaLine(g.h - 1))
  {
    hide Put, Fits, AllWrites;
    PairsAreWrites(g, g.h / 2);
    var s, i := Pairs(g.h / 2), g.h / 2;
    WrittenNext(isa, f, g, src, s, ChromaPair(i), dst);
    WrittenNext(isa, f, g, src, s + [ChromaPair(i)], LumaLine(g.h - 1), dst);
    assert s + [ChromaPair(i)] + [LumaLine(g.h - 1)] == Schedule(g.h);
  }

  lemma ChromaPut(isa: Isa, f: Format, g: Frame, src: seq<Byte>, m: seq<Byte>, k: nat)
    requires Fits(g, |src|, |m|) && k < Samples(g.h)
    ensures IsRow(g, Row(PU, k)) && IsRow(g, Row(PV, k))
    ensures var p, q := SrcRow(g, 2 * k), SrcRow(g, NextColumn(g.h, k));
            && 0 <= p && p + 4 * g.w <= |src| && 0 <= q && q + 4 * g.w <= |src|
            && 0 <= Start(g, Row(PU, k)) && Start(g, Row(PU, k)) + Samples(g.w) <= |m|
            && 0 <= Start(g, Row(PV, k)) && Start(g, Row(PV, k)) + Samples(g.w) <= |m|
            && WithChroma(isa, f, src, p, q, g.w, m, Start(g, Row(PU, k)), Start(g, Row(PV, k)))
               == Put(isa, f, g, src, m, ChromaPair(k))
  {
    hide Start, SrcRow, InBlocks, ChromaRow;
    assert IsRow(g, Row(PU, k)) && IsRow(g, Row(PV, k));
  }

  lemma LumaPut(isa: Isa, f: Format, g: Frame, src: seq<Byte>, m: seq<Byte>, y: nat)
    requires Fits(g, |src|, |m|) && y < g.h
    ensures IsRow(g, Row(PY, y))
    ensures var p, d := SrcRow(g, y), Start(g, Row(PY, y));
            && 0 <= p && p + 4 * g.w <= |src| && 0 <= d && d + g.w <= |m|
            && Splice(m, d, LumaRow(f, src, p, g.w)) == Put(isa, f, g, src, m, LumaLine(y))
  {
    hide Start, SrcRow, Splice, LumaRow;
    assert IsRow(g, Row(PY, y));
  }

  /** The bodies of the loops in BGRAToI420, ARGBtoI420_aligned, ARGBtoI420_unaligned and
      ABGRToI420. */
  method ConvertRows(isa: Isa, exact: bool, f: Format, src: array<Byte>, dst: array<Byte>, g: Frame)
    requires src != dst && g.w > 0 && g.h > 0 && (exact ==> Whole(isa, g.w))
    requires Fits(g, src.Length, dst.Length)
    modifies dst
    ensures AllWrites(g, Schedule(g.h))
    ensures dst[..] == Written(isa, f, g, src[..], Schedule(g.h), old(dst[..]))
  {
    hide Splice, LumaRow, WithChroma, Put, Whole, Start, SrcRow, Fits;
    ghost var m := src[..];
    ghost var before := dst[..];
    var s, yd, ud, vd := g.sp, g.yp, g.up, g.vp;
    var y := 0;
    ghost var i := 0;
    PairsAreWrites(g, 0);
    PointersStart(g);
    while y < g.h - 1
      invariant y == 2 * i && y <= g.h
      invariant s == SrcRow(g, 2 * i) && yd == Start(g, Row(PY, 2 * i))
      invariant ud == Start(g, Row(PU, i)) && vd == Start(g, Row(PV, i))
      invariant AllWrites(g, Pairs(i)) && src[..] == m
      invariant dst[..] == Written(isa, f, g, m, Pairs(i), before)
    {
      PairWritten(isa, f, g, m, i, before);
      PointersAdvance(g, i);
      ghost var m0 := dst[..];
      ChromaPut(isa, f, g, m, m0, i);
      UVRow(isa, exact, f, src, s, g.ss, dst, ud, vd, g.w);
      ghost var m1 := dst[..];
      LumaPut(isa, f, g, m, m1, 2 * i);
      YRow(isa, exact, f, src, s, dst, yd, g.w);
      ghost var m2 := dst[..];
      LumaPut(isa, f, g, m, m2, 2 * i + 1);
      YRow(isa, exact, f, src, s + g.ss, dst, yd + g.ys, g.w);
      s, yd, ud, vd := s + g.ss * 2, yd + g.ys * 2, ud + g.us, vd + g.vs;
      y := y + 2;
      i := i + 1;
    }
    if g.h % 2 == 1 {
      LastWritten(isa, f, g, m, before);
      ghost var m0 := dst[..];
      ChromaPut(isa, f, g, m, m0, i);
      UVRow(isa, exact, f, src, s, 0, dst, ud, vd, g.w);
      ghost var m1 := dst[..];
      LumaPut(isa, f, g, m, m1, 2 * i);
      YRow(isa, exact, f, src, s, dst, yd, g.w);
    } else {
      assert Schedule(g.h) == Pairs(i);
    }
  }

  lemma PointersStart(g: Frame)
    ensures SrcRow(g, 0) == g.sp && Start(g, Row(PY, 0)) == g.yp && Start(g, Row(PU, 0)) == g.up
    ensures Start(g, Row(PV, 0)) == g.vp
  {
  }

  /** Adding the strides moves every pointer to the next pair of rows. */
  lemma PointersAdvance(g: Frame, i: nat)
    ensures SrcRow(g, 2 * i) + g.ss == SrcRow(g, 2 * i + 1)
    ensures SrcRow(g, 2 * i) + g.ss * 2 == SrcRow(g, 2 * (i + 1))
    ensures Start(g, Row(PY, 2 * i)) + g.ys == Start(g, Row(PY, 2 * i + 1))
    ensures Start(g, Row(PY, 2 * i)) + g.ys * 2 == Start(g, Row(PY, 2 * (i + 1)))
    ensures Start(g, Row(PU, i)) + g.us == Start(g, Row(PU, i + 1))
    ensures Start(g, Row(PV, i)) + g.vs == Start(g, Row(PV, i + 1))
  {
  }
}
