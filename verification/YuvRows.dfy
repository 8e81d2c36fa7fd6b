/** The row functions of yuv.c: the vector loops, which need a width that is a multiple of
    their block, and the "any width" wrappers that run the same loops on a scratch
    buffer for the last, partial block. */
module YuvRows {
  import opened Bytes
  import opened Simd
  import opened I420
  import opened YuvKernels

  /** Which instruction set a row function is written in. */
  datatype Isa = SSSE3 | AVX2

  /** Pixels per block: MASK + 1 in the wrappers. */
  function Step(isa: Isa): (n: nat)
    ensures n == 16 || n == 32
  {
    if isa.SSSE3? then 16 else 32
  }

  /** Chroma samples per block. */
  function Half(isa: Isa): (n: nat)
    ensures 2 * n == Step(isa)
  {
    if isa.SSSE3? then 8 else 16
  }

  /** n pixels are whole blocks (IS_ALIGNED). */
  predicate Whole(isa: Isa, n: nat) {
    if isa.SSSE3? then n % 16 == 0 else n % 32 == 0
  }

  lemma WholeStep(isa: Isa, n: nat)
    requires Whole(isa, n) && n > 0
    ensures n >= Step(isa) && Whole(isa, n - Step(isa))
  {
  }

  lemma WholeEven(isa: Isa, n: nat)
    requires Whole(isa, n)
    ensures 2 * Samples(n) == n
  {
    hide Samples;
    EvenCount(n, Samples(n));
  }

  lemma EvenCount(n: nat, s: nat)
    requires n % 16 == 0 || n % 32 == 0
    requires n <= 2 * s <= n + 1
    ensures 2 * s == n
  {
  }

  function YBlock(isa: Isa, f: Format, px: seq<Byte>): (r: seq<Byte>)
    requires |px| == 4 * Step(isa)
    ensures |r| == Step(isa)
  {
    if isa.SSSE3? then YBlockSsse3(f, px) else Flat(YBlockAvx2(f, px))
  }

  lemma YBlockIsLuma(isa: Isa, f: Format, m: seq<Byte>, p: int)
    requires 0 <= p && p + 4 * Step(isa) <= |m|
    ensures YBlock(isa, f, m[p..p + 4 * Step(isa)]) == LumaRow(f, m, p, Step(isa))
  {
    hide YBlockSsse3, YBlockAvx2, Luma, Flat;
    var px := m[p..p + 4 * Step(isa)];
    forall i | 0 <= i < Step(isa)
      ensures YBlock(isa, f, px)[i] == Luma(f, PixelAt(m, p + 4 * i))
    {
      assert 4 * (i / 4) + i % 4 == i;
      if isa.SSSE3? {
        YBlockSsse3Correct(f, px, i / 4, i % 4);
      } else {
        YBlockAvx2Correct(f, px, i / 4, i % 4);
      }
      assert PixelAt(px, 4 * i) == PixelAt(m, p + 4 * i);
    }
  }

  // ---- lemmas about rows ---------------------------------------------------

  lemma LumaRowJoin(f: Format, m: seq<Byte>, p: int, a: nat, b: nat)
    requires 0 <= p && p + 4 * (a + b) <= |m|
    ensures LumaRow(f, m, p, a) + LumaRow(f, m, p + 4 * a, b) == LumaRow(f, m, p, a + b)
  {
    hide Luma, PixelAt;
  }

  lemma LumaRowLocal(f: Format, m: seq<Byte>, p: int, k: seq<Byte>, q: int, w: nat)
    requires 0 <= p && p + 4 * w <= |m| && 0 <= q && q + 4 * w <= |k|
    requires m[p..p + 4 * w] == k[q..q + 4 * w]
    ensures LumaRow(f, m, p, w) == LumaRow(f, k, q, w)
  {
    hide Luma;
    forall i | 0 <= i < w
      ensures PixelAt(m, p + 4 * i) == PixelAt(k, q + 4 * i)
    {
      SameBytes(m, p, k, q, 4 * w, 4 * i);
    }
  }

  lemma SameBytes(m: seq<Byte>, p: int, k: seq<Byte>, q: int, n: nat, at: nat)
    requires 0 <= p && p + n <= |m| && 0 <= q && q + n <= |k|
    requires m[p..p + n] == k[q..q + n] && at + 4 <= n
    ensures PixelAt(m, p + at) == PixelAt(k, q + at)
  {
    var a, b := m[p..p + n], k[q..q + n];
    assert a[at] == m[p + at] && a[at + 1] == m[p + at + 1] && a[at + 2] == m[p + at + 2] && a[at + 3] == m[p + at + 3];
    assert b[at] == k[q + at] && b[at + 1] == k[q + at + 1] && b[at + 2] == k[q + at + 2] && b[at + 3] == k[q + at + 3];
  }

  lemma SpliceTwice(m: seq<Byte>, at: int, a: seq<Byte>, b: seq<Byte>)
    requires 0 <= at && at + |a| + |b| <= |m|
    ensures Splice(Splice(m, at, a), at + |a|, b) == Splice(m, at, a + b)
  {
  }

  lemma SpliceElsewhere(m: seq<Byte>, at: int, a: seq<Byte>, p: int, n: nat)
    requires 0 <= at && at + |a| <= |m| && 0 <= p && p + n <= |m|
    requires at + |a| <= p || p + n <= at
    ensures Splice(m, at, a)[p..p + n] == m[p..p + n]
  {
  }

  /** A vector store, or memcpy from bytes already loaded. */
  method Store(dst: array<Byte>, at: int, row: seq<Byte>)
    requires 0 <= at && at + |row| <= dst.Length
    modifies dst
    ensures dst[..] == Splice(old(dst[..]), at, row)
  {
    forall i | 0 <= i < |row| {
      dst[at + i] := row[i];
    }
  }

  /** One more block extends the row written so far. */
  lemma YRowStep(isa: Isa, f: Format, m: seq<Byte>, before: seq<Byte>, sp: int, dp: int, done: nat)
    requires 0 <= sp && sp + 4 * (done + Step(isa)) <= |m|
    requires 0 <= dp && dp + done + Step(isa) <= |before|
    ensures var s := sp + 4 * done;
            Splice(Splice(before, dp, LumaRow(f, m, sp, done)), dp + done, YBlock(isa, f, m[s..s + 4 * Step(isa)]))
            == Splice(before, dp, LumaRow(f, m, sp, done + Step(isa)))
  {
    hide YBlock, Luma, PixelAt, Splice, LumaRow;
    var s := sp + 4 * done;
    YBlockIsLuma(isa, f, m, s);
    LumaRowJoin(f, m, sp, done, Step(isa));
    SpliceTwice(before, dp, LumaRow(f, m, sp, done), LumaRow(f, m, s, Step(isa)));
  }

  /** BGRAToYRow_SSSE3, ARGBToYRow_AVX2 and ABGRToYRow_SSSE3. */
  method YRowKernel(isa: Isa, f: Format, src: array<Byte>, sp: int, dst: array<Byte>, dp: int, width: nat)
    requires 0 < width && Whole(isa, width)
    requires 0 <= sp && sp + 4 * width <= src.Length && 0 <= dp && dp + width <= dst.Length
    requires src != dst || sp + 4 * width <= dp
    modifies dst
    ensures dst[..] == Splice(old(dst[..]), dp, LumaRow(f, old(src[..]), sp, width))
  {
    hide Luma, YBlock, PixelAt, LumaRow, Splice, Whole;
    var s, d, n := sp, dp, width;
    ghost var m := src[..];
    ghost var before := dst[..];
    LumaRowNone(f, m, sp, before, dp);
    while n > 0
      invariant 0 <= n <= width && Whole(isa, n)
      invariant s == sp + 4 * (width - n) && d == dp + (width - n)
      invariant dst[..] == Splice(before, dp, LumaRow(f, m, sp, width - n))
      invariant src != dst ==> src[..] == m
    {
      WholeStep(isa, n);
      var px := src[s..s + 4 * Step(isa)];
      var block := YBlock(isa, f, px);
      assert px == m[s..s + 4 * Step(isa)] by {
        assert px == src[..][s..s + 4 * Step(isa)];
        if src == dst {
          SpliceElsewhere(before, dp, LumaRow(f, m, sp, width - n), s, 4 * Step(isa));
        }
      }
      Store(dst, d, block);
      YRowStep(isa, f, m, before, sp, dp, width - n);
      s, d, n := s + 4 * Step(isa), d + Step(isa), n - Step(isa);
    }
  }

  lemma LumaRowNone(f: Format, m: seq<Byte>, p: int, k: seq<Byte>, at: int)
    requires 0 <= p <= |m| && 0 <= at <= |k|
    ensures LumaRow(f, m, p, 0) == [] && Splice(k, at, []) == k
  {
  }

  // ---- chroma --------------------------------------------------------------

  function UVBlock(isa: Isa, f: Format, part: Part, m0: seq<Byte>, m1: seq<Byte>): (r: seq<Byte>)
    requires |m0| == |m1| == 4 * Step(isa)
    ensures |r| == Half(isa)
  {
    if isa.SSSE3? then
      if part.PartU? then UVBlockSsse3(f, m0, m1)[..8] else UVBlockSsse3(f, m0, m1)[8..]
    else
      if part.PartU? then UVBlockAvx2(f, m0, m1).lo else UVBlockAvx2(f, m0, m1).hi
  }

  /** One sample of a block, whichever instruction set made it. */
  lemma UVBlockAt(isa: Isa, f: Format, part: Part, m0: seq<Byte>, m1: seq<Byte>, c: nat)
    requires |m0| == |m1| == 4 * Step(isa) && c < Half(isa)
    ensures UVBlock(isa, f, part, m0, m1)[c] == Sample(f, part, m0, m1, c)
  {
    hide UVBlockSsse3, UVBlockAvx2, Sample;
    assert 2 * (c / 2) + c % 2 == c;
    if isa.SSSE3? {
      UVBlockSsse3Correct(f, m0, m1, c / 2, c % 2);
    } else {
      UVBlockAvx2Correct(f, m0, m1, c / 2, c % 2);
    }
  }

  lemma SampleIsChromaAt(f: Format, part: Part, m: seq<Byte>, p: int, q: int, w: nat, c: nat)
    requires 0 <= p && p + 4 * w <= |m| && 0 <= q && q + 4 * w <= |m| && 2 * c + 2 <= w
    ensures Sample(f, part, m[p..p + 4 * w], m[q..q + 4 * w], c) == ChromaAt(f, part, m, p, q, w, c)
  {
    hide Chroma, MeanPixel;
  }

  lemma UVBlockIsChroma(isa: Isa, f: Format, part: Part, m: seq<Byte>, p: int, q: int)
    requires 0 <= p && p + 4 * Step(isa) <= |m| && 0 <= q && q + 4 * Step(isa) <= |m|
    ensures UVBlock(isa, f, part, m[p..p + 4 * Step(isa)], m[q..q + 4 * Step(isa)])
         == ChromaRow(f, part, m, p, q, Step(isa))
  {
    hide UVBlock, ChromaAt, Sample;
    var m0, m1 := m[p..p + 4 * Step(isa)], m[q..q + 4 * Step(isa)];
    forall c | 0 <= c < Half(isa)
      ensures UVBlock(isa, f, part, m0, m1)[c] == ChromaAt(f, part, m, p, q, Step(isa), c)
    {
      UVBlockAt(isa, f, part, m0, m1, c);
      SampleIsChromaAt(f, part, m, p, q, Step(isa), c);
    }
  }

  /** A chroma row can be cut at an even column. */
  lemma ChromaRowJoin(f: Format, part: Part, m: seq<Byte>, p: int, q: int, a: nat, b: nat)
    requires 2 * Samples(a) == a
    requires 0 <= p && p + 4 * (a + b) <= |m| && 0 <= q && q + 4 * (a + b) <= |m|
    ensures ChromaRow(f, part, m, p, q, a) + ChromaRow(f, part, m, p + 4 * a, q + 4 * a, b)
         == ChromaRow(f, part, m, p, q, a + b)
  {
    hide ChromaAt;
    var l := ChromaRow(f, part, m, p, q, a) + ChromaRow(f, part, m, p + 4 * a, q + 4 * a, b);
    var r := ChromaRow(f, part, m, p, q, a + b);
    assert |l| == |r|;
    forall c | 0 <= c < |r|
      ensures l[c] == r[c]
    {
      ChromaAtJoin(f, part, m, p, q, a, b, c);
    }
  }

  lemma ChromaAtJoin(f: Format, part: Part, m: seq<Byte>, p: int, q: int, a: nat, b: nat, c: nat)
    requires 2 * Samples(a) == a && 2 * c < a + b
    requires 0 <= p && p + 4 * (a + b) <= |m| && 0 <= q && q + 4 * (a + b) <= |m|
    ensures c < Samples(a) ==> ChromaAt(f, part, m, p, q, a + b, c) == ChromaAt(f, part, m, p, q, a, c)
    ensures c >= Samples(a) ==>
      ChromaAt(f, part, m, p, q, a + b, c) == ChromaAt(f, part, m, p + 4 * a, q + 4 * a, b, c - Samples(a))
  {
    hide Chroma, Blend, PixelAt;
    if c >= Samples(a) {
      assert NextColumn(a + b, c) == a + NextColumn(b, c - Samples(a));
    }
  }

  /** The regions of n bytes at a and b do not meet. */
  predicate Apart(a: int, b: int, n: int) {
    a + n <= b || b + n <= a
  }

  /** Memory after the rows us at up and vs at vp have been stored the way the vector loops
      do it: a block of U, the block of V beside it, then the next block of each. */
  function InBlocks(isa: Isa, us: seq<Byte>, vs: seq<Byte>, before: seq<Byte>, up: int, vp: int): (r: seq<Byte>)
    requires |us| == |vs| && 0 <= up && up + |us| <= |before| && 0 <= vp && vp + |vs| <= |before|
    ensures |r| == |before|
    decreases |us|
  {
    if us == [] then before
    else
      var b := if |us| < Half(isa) then |us| else Half(isa);
      InBlocks(isa, us[b..], vs[b..], Splice(Splice(before, up, us[..b]), vp, vs[..b]), up + b, vp + b)
  }

  /** The number of the block a chroma sample is stored with. */
  function BlockOf(isa: Isa, i: nat): (b: nat) { if isa.SSSE3? then i / 8 else i / 16 }

  /** What a byte holds that is byte i of the U row and byte j of the V row, where an index
      outside the row means that the row does not reach the byte. */
  function LastStored(isa: Isa, us: seq<Byte>, vs: seq<Byte>, was: Byte, i: int, j: int): (b: Byte) {
    var inU, inV := 0 <= i < |us|, 0 <= j < |vs|;
    if inV && (inU ==> BlockOf(isa, i) <= BlockOf(isa, j)) then vs[j] else if inU then us[i] else was
  }

  /** The rows may lie on top of each other: a byte of both keeps the sample whose block
      comes later, and V's when they are of one block. */
  lemma {:induction false} InBlocksAt(isa: Isa, us: seq<Byte>, vs: seq<Byte>, before: seq<Byte>, up: int, vp: int,
                                      a: nat)
    requires |us| == |vs| && 0 <= up && up + |us| <= |before| && 0 <= vp && vp + |vs| <= |before|
    requires a < |before|
    ensures InBlocks(isa, us, vs, before, up, vp)[a] == LastStored(isa, us, vs, before[a], a - up, a - vp)
    decreases |us|
  {
    hide Splice, LastStored, BlockOf;
    if us == [] {
      NeverStored(isa, us, vs, before[a], a - up, a - vp);
    } else {
      var b := if |us| < Half(isa) then |us| else Half(isa);
      var m := Splice(Splice(before, up, us[..b]), vp, vs[..b]);
      InBlocksAt(isa, us[b..], vs[b..], m, up + b, vp + b, a);
      SplicedAt(before, up, us[..b], a);
      SplicedAt(Splice(before, up, us[..b]), vp, vs[..b], a);
      LastStoredStep(isa, us, vs, b, before[a], m[a], a - up, a - vp);
    }
  }

  lemma NeverStored(isa: Isa, us: seq<Byte>, vs: seq<Byte>, was: Byte, i: int, j: int)
    requires us == vs == []
    ensures LastStored(isa, us, vs, was, i, j) == was
  {
  }

  lemma SplicedAt(m: seq<Byte>, at: int, row: seq<Byte>, a: nat)
    requires 0 <= at && at + |row| <= |m| && a < |m|
    ensures Splice(m, at, row)[a] == if at <= a < at + |row| then row[a - at] else m[a]
  {
  }

  /** The first block of each row, then the rest of the rows. */
  lemma LastStoredStep(isa: Isa, us: seq<Byte>, vs: seq<Byte>, b: nat, was: Byte, now: Byte, i: int, j: int)
    requires |us| == |vs| && b == (if |us| < Half(isa) then |us| else Half(isa))
    requires now == if 0 <= j < b then vs[j] else if 0 <= i < b then us[i] else was
    ensures LastStored(isa, us[b..], vs[b..], now, i - b, j - b) == LastStored(isa, us, vs, was, i, j)
  {
    hide BlockOf;
    if b <= i < |us| && b <= j < |vs| {
      BlockBehind(isa, i);
      BlockBehind(isa, j);
    } else {
      BlockFirst(isa, i, j);
    }
  }

  lemma BlockBehind(isa: Isa, i: nat)
    requires Half(isa) <= i
    ensures BlockOf(isa, i) == BlockOf(isa, i - Half(isa)) + 1
  {
  }

  lemma BlockFirst(isa: Isa, i: int, j: int)
    ensures 0 <= i < Half(isa) && 0 <= j ==> BlockOf(isa, i) <= BlockOf(isa, j)
    ensures 0 <= j < Half(isa) <= i ==> BlockOf(isa, i) > BlockOf(isa, j)
  {
  }

  /** Rows that do not overlap end up whole, in either instruction set. */
  lemma InBlocksApart(isa: Isa, us: seq<Byte>, vs: seq<Byte>, before: seq<Byte>, up: int, vp: int)
    requires |us| == |vs| && 0 <= up && up + |us| <= |before| && 0 <= vp && vp + |vs| <= |before|
    requires Apart(up, vp, |us|)
    ensures InBlocks(isa, us, vs, before, up, vp) == Splice(Splice(before, up, us), vp, vs)
  {
    hide InBlocks, BlockOf;
    var r, w := InBlocks(isa, us, vs, before, up, vp), Splice(Splice(before, up, us), vp, vs);
    forall a | 0 <= a < |before|
      ensures r[a] == w[a]
    {
      InBlocksAt(isa, us, vs, before, up, vp, a);
    }
  }

  /** Rows that overlap can come out differently in the two instruction sets. */
  lemma BlockSizeMatters(before: seq<Byte>, us: seq<Byte>, vs: seq<Byte>)
    requires |us| == |vs| == 16 && |before| == 24 && us[8] != vs[0]
    ensures InBlocks(SSSE3, us, vs, before, 0, 8) != InBlocks(AVX2, us, vs, before, 0, 8)
  {
    hide InBlocks;
    InBlocksAt(SSSE3, us, vs, before, 0, 8, 8);
    InBlocksAt(AVX2, us, vs, before, 0, 8, 8);
  }

  /** Rows that start with whole blocks can be stored in two parts. */
  lemma {:induction false} InBlocksJoin(isa: Isa, w: nat, us: seq<Byte>, vs: seq<Byte>, before: seq<Byte>, up: int,
                                        vp: int)
    requires Whole(isa, w) && w == 2 * Samples(w) && Samples(w) <= |us| == |vs|
    requires 0 <= up && up + |us| <= |before| && 0 <= vp && vp + |vs| <= |before|
    ensures var n := Samples(w);
            InBlocks(isa, us, vs, before, up, vp)
            == InBlocks(isa, us[n..], vs[n..], InBlocks(isa, us[..n], vs[..n], before, up, vp), up + n, vp + n)
    decreases w
  {
    hide Splice, Whole, InBlocks, Samples;
    if w == 0 {
      assert us[0..] == us && vs[0..] == vs;
      NoBlocks(isa, before, up, vp);
    } else {
      WholeStep(isa, w);
      WholeEven(isa, w - Step(isa));
      var n, b := Samples(w), Half(isa);
      assert Samples(w - Step(isa)) == n - b;
      var m := Splice(Splice(before, up, us[..b]), vp, vs[..b]);
      InBlocksJoin(isa, w - Step(isa), us[b..], vs[b..], m, up + b, vp + b);
      JoinFirst(isa, n, us, vs, before, up, vp);
    }
  }

  /** The first block belongs to the first part. */
  lemma JoinFirst(isa: Isa, n: nat, us: seq<Byte>, vs: seq<Byte>, before: seq<Byte>, up: int, vp: int)
    requires Half(isa) <= n <= |us| == |vs|
    requires 0 <= up && up + |us| <= |before| && 0 <= vp && vp + |vs| <= |before|
    requires var b := Half(isa); var m := Splice(Splice(before, up, us[..b]), vp, vs[..b]);
      InBlocks(isa, us[b..], vs[b..], m, up + b, vp + b)
      == InBlocks(isa, us[b..][n - b..], vs[b..][n - b..],
                  InBlocks(isa, us[b..][..n - b], vs[b..][..n - b], m, up + b, vp + b), up + n, vp + n)
    ensures InBlocks(isa, us, vs, before, up, vp)
         == InBlocks(isa, us[n..], vs[n..], InBlocks(isa, us[..n], vs[..n], before, up, vp), up + n, vp + n)
  {
    hide Splice, InBlocks, Half;
    FirstBlock(isa, us, vs, before, up, vp);
    FirstBlock(isa, us[..n], vs[..n], before, up, vp);
    Cut(us, n, Half(isa));
    Cut(vs, n, Half(isa));
  }

  lemma NoBlocks(isa: Isa, before: seq<Byte>, up: int, vp: int)
    requires 0 <= up <= |before| && 0 <= vp <= |before|
    ensures InBlocks(isa, [], [], before, up, vp) == before
  {
  }

  lemma FirstBlock(isa: Isa, us: seq<Byte>, vs: seq<Byte>, before: seq<Byte>, up: int, vp: int)
    requires 0 < |us| == |vs| && 0 <= up && up + |us| <= |before| && 0 <= vp && vp + |vs| <= |before|
    ensures var b := if |us| < Half(isa) then |us| else Half(isa);
            InBlocks(isa, us, vs, before, up, vp)
            == InBlocks(isa, us[b..], vs[b..], Splice(Splice(before, up, us[..b]), vp, vs[..b]), up + b, vp + b)
  {
    hide Splice;
  }

  lemma Cut(s: seq<Byte>, n: nat, b: nat)
    requires b <= n <= |s|
    ensures s[b..][n - b..] == s[n..] && s[b..][..n - b] == s[..n][b..] && s[..n][..b] == s[..b]
  {
  }

  /** Memory after the U and V rows of one pair of rows have been written. */
  function WithChroma(isa: Isa, f: Format, m: seq<Byte>, p: int, q: int, w: nat, before: seq<Byte>, up: int,
                      vp: int): (r: seq<Byte>)
    requires 0 <= p && p + 4 * w <= |m| && 0 <= q && q + 4 * w <= |m|
    requires 0 <= up && up + Samples(w) <= |before| && 0 <= vp && vp + Samples(w) <= |before|
    ensures |r| == |before|
  {
    InBlocks(isa, ChromaRow(f, PartU, m, p, q, w), ChromaRow(f, PartV, m, p, q, w), before, up, vp)
  }

  /** Memory after one block of U bytes and one of V bytes have been stored. */
  function BlockStored(isa: Isa, f: Format, m0: seq<Byte>, m1: seq<Byte>, dst: seq<Byte>, u: int,
                       v: int): (r: seq<Byte>)
    requires |m0| == |m1| == 4 * Step(isa)
    requires 0 <= u && u + Half(isa) <= |dst| && 0 <= v && v + Half(isa) <= |dst|
    ensures |r| == |dst|
  {
    Splice(Splice(dst, u, UVBlock(isa, f, PartU, m0, m1)), v, UVBlock(isa, f, PartV, m0, m1))
  }

  /** One turn of the chroma loop: storing a block leaves the chroma of the remaining pixels
      to be stored. */
  lemma UVRowStep(isa: Isa, f: Format, m: seq<Byte>, m0: seq<Byte>, m1: seq<Byte>, dst: seq<Byte>,
                  s: int, t: int, n: nat, u: int, v: int)
    requires Step(isa) <= n
    requires 0 <= s && s + 4 * n <= |m| && 0 <= t && t + 4 * n <= |m|
    requires m0 == m[s..s + 4 * Step(isa)] && m1 == m[t..t + 4 * Step(isa)]
    requires 0 <= u && u + Samples(n) <= |dst| && 0 <= v && v + Samples(n) <= |dst|
    ensures Samples(n - Step(isa)) == Samples(n) - Half(isa)
    ensures WithChroma(isa, f, m, s, t, n, dst, u, v)
         == WithChroma(isa, f, m, s + 4 * Step(isa), t + 4 * Step(isa), n - Step(isa),
                       BlockStored(isa, f, m0, m1, dst, u, v), u + Half(isa), v + Half(isa))
  {
    hide UVBlock, ChromaRow, Splice, InBlocks;
    WholeOne(isa);
    WholeEven(isa, Step(isa));
    ChromaRowJoin(f, PartU, m, s, t, Step(isa), n - Step(isa));
    ChromaRowJoin(f, PartV, m, s, t, Step(isa), n - Step(isa));
    UVBlockIsChroma(isa, f, PartU, m, s, t);
    UVBlockIsChroma(isa, f, PartV, m, s, t);
    FirstBlock(isa, ChromaRow(f, PartU, m, s, t, n), ChromaRow(f, PartV, m, s, t, n), dst, u, v);
  }

  /** The body of the chroma loop: load a block of both rows, store its U and V bytes. */
  method UVIteration(isa: Isa, f: Format, src: array<Byte>, s: int, t: int, dst: array<Byte>, u: int, v: int)
    requires 0 <= s && s + 4 * Step(isa) <= src.Length && 0 <= t && t + 4 * Step(isa) <= src.Length
    requires 0 <= u && u + Half(isa) <= dst.Length && 0 <= v && v + Half(isa) <= dst.Length
    modifies dst
    ensures var m := old(src[..]);
            dst[..] == BlockStored(isa, f, m[s..s + 4 * Step(isa)], m[t..t + 4 * Step(isa)], old(dst[..]), u, v)
  {
    hide UVBlock, Splice;
    var m0 := src[s..s + 4 * Step(isa)];
    var m1 := src[t..t + 4 * Step(isa)];
    assert m0 == src[..][s..s + 4 * Step(isa)] && m1 == src[..][t..t + 4 * Step(isa)];
    Store(dst, u, UVBlock(isa, f, PartU, m0, m1));
    Store(dst, v, UVBlock(isa, f, PartV, m0, m1));
  }

  /** BGRAToUVRow_SSSE3, ARGBToUVRow_AVX2 and ABGRToUVRow_SSSE3. */
  method UVRowKernel(isa: Isa, f: Format, src: array<Byte>, sp: int, stride: int, dst: array<Byte>, up: int, vp: int,
                     width: nat)
    requires 0 < width && Whole(isa, width)
    requires 0 <= sp && sp + 4 * width <= src.Length
    requires 0 <= sp + stride && sp + stride + 4 * width <= src.Length
    requires 0 <= up && up + Samples(width) <= dst.Length && 0 <= vp && vp + Samples(width) <= dst.Length
    requires src != dst || (sp + 4 * width <= up && sp + stride + 4 * width <= up && sp + 4 * width <= vp
      && sp + stride + 4 * width <= vp)
    modifies dst
    ensures dst[..] == WithChroma(isa, f, old(src[..]), sp, sp + stride, width, old(dst[..]), up, vp)
  {
    hide WithChroma, BlockStored, Whole, Step, Half, Samples, Kept, UVLeft;
    var s, u, v, n := sp, up, vp, width;
    ghost var t := sp + stride;
    ghost var m := src[..];
    ghost var goal := WithChroma(isa, f, m, s, t, n, dst[..], u, v);
    UVAll(isa, f, m, dst[..], s, t, n, u, v);
    while n > 0
      invariant 0 <= n <= width && Whole(isa, n) && s + 4 * n == sp + 4 * width && t == s + stride
      invariant up <= u && u + Samples(n) == up + Samples(width) && vp <= v && v + Samples(n) == vp + Samples(width)
      invariant UVLeft(isa, f, m, src[..], dst[..], s, t, n, u, v, goal)
    {
      WholeStep(isa, n);
      ghost var now, was := src[..], dst[..];
      UVIteration(isa, f, src, s, s + stride, dst, u, v);
      UVRowNext(isa, f, m, now, was, src[..], dst[..], src == dst, s, t, n, u, v, goal);
      s, u, v, n := s + 4 * Step(isa), u + Half(isa), v + Half(isa), n - Step(isa);
      t := t + 4 * Step(isa);
    }
    UVNone(isa, f, m, src[..], dst[..], s, t, u, v, goal);
  }

  /** The chroma of n pixels from s and t on is left to be stored to reach the goal, and their
      bytes are those of m, the source at the start. */
  ghost predicate UVLeft(isa: Isa, f: Format, m: seq<Byte>, src: seq<Byte>, dst: seq<Byte>, s: int, t: int, n: nat,
                         u: int, v: int, goal: seq<Byte>)
  {
    && Kept(src, m, s, 4 * n) && Kept(src, m, t, 4 * n) && 0 <= s && s + 4 * n <= |m| && 0 <= t && t + 4 * n <= |m|
    && 0 <= u && u + Samples(n) <= |dst| && 0 <= v && v + Samples(n) <= |dst|
    && WithChroma(isa, f, m, s, t, n, dst, u, v) == goal
  }

  lemma UVAll(isa: Isa, f: Format, m: seq<Byte>, dst: seq<Byte>, s: int, t: int, n: nat, u: int, v: int)
    requires 0 <= s && s + 4 * n <= |m| && 0 <= t && t + 4 * n <= |m|
    requires 0 <= u && u + Samples(n) <= |dst| && 0 <= v && v + Samples(n) <= |dst|
    ensures UVLeft(isa, f, m, m, dst, s, t, n, u, v, WithChroma(isa, f, m, s, t, n, dst, u, v))
  {
    hide WithChroma, Kept, Samples;
    KeptAll(m, s, 4 * n);
    KeptAll(m, t, 4 * n);
  }

  lemma UVNone(isa: Isa, f: Format, m: seq<Byte>, src: seq<Byte>, dst: seq<Byte>, s: int, t: int, u: int, v: int,
               goal: seq<Byte>)
    requires UVLeft(isa, f, m, src, dst, s, t, 0, u, v, goal)
    ensures dst == goal
  {
    hide WithChroma, Kept;
    WithChromaNone(isa, f, m, s, t, dst, u, v);
  }

  /** The n bytes at `at` are those of m. */
  predicate Kept(src: seq<Byte>, m: seq<Byte>, at: int, n: int) {
    |src| == |m| && 0 <= at <= at + n <= |m| && src[at..at + n] == m[at..at + n]
  }

  /** One turn of the chroma loop, with m the source at the start: the stores leave the chroma
      of a block less to be stored, and the source bytes still to be read as they were. */
  lemma UVRowNext(isa: Isa, f: Format, m: seq<Byte>, now: seq<Byte>, was: seq<Byte>, src: seq<Byte>, dst: seq<Byte>,
                  shared: bool, s: int, t: int, n: nat, u: int, v: int, goal: seq<Byte>)
    requires Step(isa) <= n && UVLeft(isa, f, m, now, was, s, t, n, u, v, goal) && |now| == |m|
    requires 0 <= s && s + 4 * Step(isa) <= |now| && 0 <= t && t + 4 * Step(isa) <= |now|
    requires 0 <= u && u + Half(isa) <= |was| && 0 <= v && v + Half(isa) <= |was|
    requires dst == BlockStored(isa, f, now[s..s + 4 * Step(isa)], now[t..t + 4 * Step(isa)], was, u, v)
    requires if shared then now == was && src == dst else src == now
    requires shared ==> s + 4 * n <= u && t + 4 * n <= u && s + 4 * n <= v && t + 4 * n <= v
    ensures Samples(n - Step(isa)) == Samples(n) - Half(isa)
    ensures UVLeft(isa, f, m, src, dst, s + 4 * Step(isa), t + 4 * Step(isa), n - Step(isa),
                   u + Half(isa), v + Half(isa), goal)
  {
    hide UVBlock, WithChroma, Splice, Samples, Step, Half, Kept;
    var m0, m1 := now[s..s + 4 * Step(isa)], now[t..t + 4 * Step(isa)];
    KeptPart(now, m, s, 4 * n, s, 4 * Step(isa));
    KeptPart(now, m, t, 4 * n, t, 4 * Step(isa));
    UVRowStep(isa, f, m, m0, m1, was, s, t, n, u, v);
    if shared {
      KeptTwice(now, u, UVBlock(isa, f, PartU, m0, m1), v, UVBlock(isa, f, PartV, m0, m1), m, s, 4 * n);
      KeptTwice(now, u, UVBlock(isa, f, PartU, m0, m1), v, UVBlock(isa, f, PartV, m0, m1), m, t, 4 * n);
    }
    KeptPart(src, m, s, 4 * n, s + 4 * Step(isa), 4 * (n - Step(isa)));
    KeptPart(src, m, t, 4 * n, t + 4 * Step(isa), 4 * (n - Step(isa)));
  }

  lemma KeptAll(m: seq<Byte>, at: int, n: int)
    requires 0 <= at <= at + n <= |m|
    ensures Kept(m, m, at, n)
  {
  }

  lemma KeptPart(src: seq<Byte>, m: seq<Byte>, at: int, n: int, b: int, k: int)
    requires Kept(src, m, at, n) && at <= b <= b + k <= at + n
    ensures Kept(src, m, b, k) && src[b..b + k] == m[b..b + k]
  {
    forall i | b <= i < b + k
      ensures src[i] == m[i]
    {
      assert src[i] == src[at..at + n][i - at] && m[i] == m[at..at + n][i - at];
    }
  }

  /** Stores behind the bytes leave them alone. */
  lemma KeptTwice(was: seq<Byte>, u: int, us: seq<Byte>, v: int, vs: seq<Byte>, m: seq<Byte>, at: int, n: int)
    requires Kept(was, m, at, n) && at + n <= u && at + n <= v && u + |us| <= |was| && v + |vs| <= |was|
    ensures Kept(Splice(Splice(was, u, us), v, vs), m, at, n)
  {
    hide Splice;
    SpliceElsewhere(was, u, us, at, n);
    SpliceElsewhere(Splice(was, u, us), v, vs, at, n);
  }

  // ---- any width -----------------------------------------------------------

  /** ANY11: whole blocks in place, then one block on the scratch buffer, of which only
      the r luma bytes that exist are copied back. */
  method YRowAny(isa: Isa, f: Format, src: array<Byte>, sp: int, dst: array<Byte>, dp: int, width: nat)
    requires src != dst
    requires 0 <= sp && sp + 4 * width <= src.Length && 0 <= dp && dp + width <= dst.Length
    modifies dst
    ensures dst[..] == Splice(old(dst[..]), dp, LumaRow(f, src[..], sp, width))
  {
    hide Luma, PixelAt, LumaRow, Splice, Whole;
    ghost var m := src[..];
    ghost var before := dst[..];
    var temp := new Byte[256];
    forall i | 0 <= i < 128 {
      temp[i] := 0;
    }
    assert dst[..] == before && src[..] == m;
    var r, n := Remainder(isa, width);
    LumaRowNone(f, m, sp, before, dp);
    if n > 0 {
      YRowKernel(isa, f, src, sp, dst, dp, n);
    }
    assert dst[..] == Splice(before, dp, LumaRow(f, m, sp, n));
    ghost var blank := temp[..];
    Store(temp, 0, src[sp + 4 * n..sp + 4 * n + 4 * r]);
    ghost var t0 := temp[..];
    assert src[sp + 4 * n..sp + 4 * n + 4 * r] == m[sp + 4 * n..sp + 4 * n + 4 * r];
    SpliceAt(blank, t0, 0, m[sp + 4 * n..sp + 4 * n + 4 * r]);
    WholeOne(isa);
    YRowKernel(isa, f, temp, 0, temp, 128, Step(isa));
    SpliceBack(t0, temp[..], 128, LumaRow(f, t0, 0, Step(isa)), r);
    LumaTail(f, m, sp + 4 * n, t0, Step(isa), r);
    assert dst[..] == Splice(before, dp, LumaRow(f, m, sp, n));
    assert temp[128..128 + r] == temp[..][128..128 + r];
    Store(dst, dp + n, temp[128..128 + r]);
    SpliceTwice(before, dp, LumaRow(f, m, sp, n), LumaRow(f, m, sp + 4 * n, r));
    LumaRowJoin(f, m, sp, n, r);
  }

  /** width & MASK and width & ~MASK. */
  method Remainder(isa: Isa, width: nat) returns (r: nat, n: nat)
    ensures width == n + r && r < Step(isa) && Whole(isa, n)
  {
    if isa.SSSE3? {
      r := width % 16;
    } else {
      r := width % 32;
    }
    n := width - r;
  }

  lemma WholeOne(isa: Isa)
    ensures Whole(isa, Step(isa))
  {
  }

  /** The leading pixels of a scratch row give the leading luma bytes. */
  lemma LumaTail(f: Format, m: seq<Byte>, p: int, k: seq<Byte>, w: nat, r: nat)
    requires r <= w && 4 * w <= |k| && 0 <= p && p + 4 * r <= |m|
    requires k[..4 * r] == m[p..p + 4 * r]
    ensures LumaRow(f, k, 0, w)[..r] == LumaRow(f, m, p, r)
  {
    hide Luma, PixelAt;
    assert k[0..4 * r] == k[..4 * r];
    LumaRowLocal(f, m, p, k, 0, r);
  }

  /** The bytes a splice put in. */
  lemma SpliceAt(before: seq<Byte>, after: seq<Byte>, at: int, row: seq<Byte>)
    requires 0 <= at && at + |row| <= |before| && after == Splice(before, at, row)
    ensures after[at..at + |row|] == row
  {
  }

  lemma SpliceBack(before: seq<Byte>, after: seq<Byte>, at: int, row: seq<Byte>, r: nat)
    requires 0 <= at && at + |row| <= |before| && after == Splice(before, at, row) && r <= |row|
    ensures after[at..at + r] == row[..r]
  {
  }

  /** Pixel r of the row at b repeats the pixel before it. */
  predicate Doubled(k: seq<Byte>, b: nat, r: nat) {
    0 < r && b + 4 * r + 4 <= |k| && PixelAt(k, b + 4 * r) == PixelAt(k, b + 4 * r - 4)
  }

  /** The scratch buffer of ANY12S: the last r pixels of both rows at 0 and 128, each with
      its last pixel repeated when the width is odd. */
  method Scratch(src: array<Byte>, a: int, b: int, r: nat, odd: bool) returns (temp: array<Byte>)
    requires 0 <= a && a + 4 * r <= src.Length && 0 <= b && b + 4 * r <= src.Length
    requires r < 32 && (odd ==> r > 0)
    ensures fresh(temp) && temp.Length == 512
    ensures temp[..][0..4 * r] == src[..][a..a + 4 * r] && temp[..][128..128 + 4 * r] == src[..][b..b + 4 * r]
    ensures odd ==> Doubled(temp[..], 0, r) && Doubled(temp[..], 128, r)
  {
    temp := new Byte[512];
    forall i | 0 <= i < 256 {
      temp[i] := 0;
    }
    forall i | 0 <= i < 4 * r {
      temp[i] := src[a + i];
    }
    forall i | 0 <= i < 4 * r {
      temp[128 + i] := src[b + i];
    }
    if odd {
      forall i | 0 <= i < 4 {
        temp[4 * r + i] := temp[4 * r - 4 + i];
      }
      forall i | 0 <= i < 4 {
        temp[128 + 4 * r + i] := temp[128 + 4 * r - 4 + i];
      }
    }
  }

  /** The leading pixels of scratch rows, the last one doubled when r is odd, give the
      chroma samples of a row that ends there. */
  lemma ChromaTail(f: Format, part: Part, m: seq<Byte>, p: int, q: int, k: seq<Byte>, b: nat, w: nat, r: nat)
    requires r < w && b + 4 * w <= |k| && 0 <= p && p + 4 * r <= |m| && 0 <= q && q + 4 * r <= |m|
    requires k[0..4 * r] == m[p..p + 4 * r] && k[b..b + 4 * r] == m[q..q + 4 * r]
    requires r % 2 == 1 ==> Doubled(k, 0, r) && Doubled(k, b, r)
    ensures Samples(r) <= Samples(w)
    ensures ChromaRow(f, part, k, 0, b, w)[..Samples(r)] == ChromaRow(f, part, m, p, q, r)
  {
    hide ChromaAt;
    forall c | 0 <= c < Samples(r)
      ensures ChromaAt(f, part, k, 0, b, w, c) == ChromaAt(f, part, m, p, q, r, c)
    {
      ChromaTailAt(f, part, m, p, q, k, b, w, r, c);
    }
  }

  lemma ChromaTailAt(f: Format, part: Part, m: seq<Byte>, p: int, q: int, k: seq<Byte>, b: nat, w: nat, r: nat, c: nat)
    requires r < w && b + 4 * w <= |k| && 0 <= p && p + 4 * r <= |m| && 0 <= q && q + 4 * r <= |m|
    requires k[0..4 * r] == m[p..p + 4 * r] && k[b..b + 4 * r] == m[q..q + 4 * r]
    requires r % 2 == 1 ==> Doubled(k, 0, r) && Doubled(k, b, r)
    requires 2 * c < r
    ensures ChromaAt(f, part, k, 0, b, w, c) == ChromaAt(f, part, m, p, q, r, c)
  {
    hide Chroma, Blend, PixelAt;
    SameBytes(k, 0, m, p, 4 * r, 8 * c);
    SameBytes(k, b, m, q, 4 * r, 8 * c);
    if 2 * c + 1 < r {
      SameBytes(k, 0, m, p, 4 * r, 8 * c + 4);
      SameBytes(k, b, m, q, 4 * r, 8 * c + 4);
    } else {
      assert r == 2 * c + 1;
    }
  }

  /** The extra block of ANY12S on a scratch buffer, and the samples copied back from it. */
  method UVTail(isa: Isa, f: Format, src: array<Byte>, a: int, b: int, r: nat, odd: bool)
    returns (us: seq<Byte>, vs: seq<Byte>)
    requires r < Step(isa) && odd == (r % 2 == 1)
    requires 0 <= a && a + 4 * r <= src.Length && 0 <= b && b + 4 * r <= src.Length
    ensures us == ChromaRow(f, PartU, src[..], a, b, r) && vs == ChromaRow(f, PartV, src[..], a, b, r)
  {
    hide ChromaRow, Splice, WithChroma, Samples, Doubled;
    ghost var m := src[..];
    var temp := Scratch(src, a, b, r, odd);
    ghost var t0 := temp[..];
    WholeOne(isa);
    ChromaTail(f, PartU, m, a, b, t0, 128, Step(isa), r);
    ChromaTail(f, PartV, m, a, b, t0, 128, Step(isa), r);
    UVRowKernel(isa, f, temp, 0, 128, temp, 256, 384, Step(isa));
    assert src[..] == m;
    WithChromaBack(isa, f, t0, 0, 128, Step(isa), t0, 256, 384, Samples(r));
    us := temp[256..256 + Samples(r)];
    vs := temp[384..384 + Samples(r)];
    assert us == temp[..][256..256 + Samples(r)] && vs == temp[..][384..384 + Samples(r)];
  }

  /** ANY12S. */
  method UVRowAny(isa: Isa, f: Format, src: array<Byte>, sp: int, stride: int, dst: array<Byte>, up: int, vp: int,
                  width: nat)
    requires src != dst
    requires 0 <= sp && sp + 4 * width <= src.Length
    requires 0 <= sp + stride && sp + stride + 4 * width <= src.Length
    requires 0 <= up && up + Samples(width) <= dst.Length && 0 <= vp && vp + Samples(width) <= dst.Length
    modifies dst
    ensures dst[..] == WithChroma(isa, f, src[..], sp, sp + stride, width, old(dst[..]), up, vp)
  {
    hide ChromaRow, Splice, Whole, WithChroma, Samples, Step;
    ghost var m := src[..];
    ghost var before := dst[..];
    var r, n := Remainder(isa, width);
    WholeEven(isa, n);
    SamplesJoin(n, r);
    WithChromaNone(isa, f, m, sp, sp + stride, before, up, vp);
    if n > 0 {
      UVRowKernel(isa, f, src, sp, stride, dst, up, vp, n);
    }
    var us, vs := UVTail(isa, f, src, sp + 4 * n, sp + stride + 4 * n, r, width % 2 == 1);
    UVExtend(isa, f, m, before, sp, sp + stride, up, vp, n, r);
    Store(dst, up + Samples(n), us);
    Store(dst, vp + Samples(n), vs);
  }

  lemma WithChromaNone(isa: Isa, f: Format, m: seq<Byte>, p: int, q: int, before: seq<Byte>, up: int, vp: int)
    requires 0 <= p <= |m| && 0 <= q <= |m| && 0 <= up <= |before| && 0 <= vp <= |before|
    ensures WithChroma(isa, f, m, p, q, 0, before, up, vp) == before
  {
  }

  /** Whole blocks, then less than a block more. */
  lemma UVExtend(isa: Isa, f: Format, m: seq<Byte>, before: seq<Byte>, p: int, q: int, up: int, vp: int, n: nat, r: nat)
    requires Whole(isa, n) && 2 * Samples(n) == n && r < Step(isa) && Samples(n + r) == Samples(n) + Samples(r)
    requires 0 <= p && p + 4 * (n + r) <= |m| && 0 <= q && q + 4 * (n + r) <= |m|
    requires 0 <= up && up + Samples(n + r) <= |before| && 0 <= vp && vp + Samples(n + r) <= |before|
    ensures Splice(Splice(WithChroma(isa, f, m, p, q, n, before, up, vp),
                          up + Samples(n), ChromaRow(f, PartU, m, p + 4 * n, q + 4 * n, r)),
                   vp + Samples(n), ChromaRow(f, PartV, m, p + 4 * n, q + 4 * n, r))
            == WithChroma(isa, f, m, p, q, n + r, before, up, vp)
  {
    hide ChromaRow, Whole, InBlocks, Splice;
    var us, vs := ChromaRow(f, PartU, m, p, q, n + r), ChromaRow(f, PartV, m, p, q, n + r);
    ChromaRowJoin(f, PartU, m, p, q, n, r);
    ChromaRowJoin(f, PartV, m, p, q, n, r);
    InBlocksJoin(isa, n, us, vs, before, up, vp);
    LastBlock(isa, us[Samples(n)..], vs[Samples(n)..], WithChroma(isa, f, m, p, q, n, before, up, vp), up + Samples(n),
              vp + Samples(n));
  }

  lemma LastBlock(isa: Isa, us: seq<Byte>, vs: seq<Byte>, before: seq<Byte>, up: int, vp: int)
    requires |us| == |vs| <= Half(isa) && 0 <= up && up + |us| <= |before| && 0 <= vp && vp + |vs| <= |before|
    ensures InBlocks(isa, us, vs, before, up, vp) == Splice(Splice(before, up, us), vp, vs)
  {
    hide InBlocks, Splice;
    if us == [] {
      NoBlocks(isa, before, up, vp);
      SpliceNothing(before, up);
      SpliceNothing(before, vp);
      assert vs == us;
    } else {
      FirstBlock(isa, us, vs, before, up, vp);
      NoBlocks(isa, Splice(Splice(before, up, us), vp, vs), up + |us|, vp + |us|);
      assert us[..|us|] == us && vs[..|us|] == vs && us[|us|..] == [] == vs[|us|..];
    }
  }

  lemma SpliceNothing(m: seq<Byte>, at: int)
    requires 0 <= at <= |m|
    ensures Splice(m, at, []) == m
  {
  }

  lemma WithChromaBack(isa: Isa, f: Format, m: seq<Byte>, p: int, q: int, w: nat, before: seq<Byte>, up: int, vp: int,
                       n: nat)
    requires 0 <= p && p + 4 * w <= |m| && 0 <= q && q + 4 * w <= |m|
    requires 0 <= up && up + Samples(w) <= |before| && 0 <= vp && vp + Samples(w) <= |before|
    requires Apart(up, vp, Samples(w)) && n <= Samples(w)
    ensures var r := WithChroma(isa, f, m, p, q, w, before, up, vp);
            && r[up..up + n] == ChromaRow(f, PartU, m, p, q, w)[..n]
            && r[vp..vp + n] == ChromaRow(f, PartV, m, p, q, w)[..n]
  {
    hide ChromaRow, InBlocks, Splice, Samples;
    var us, vs := ChromaRow(f, PartU, m, p, q, w), ChromaRow(f, PartV, m, p, q, w);
    InBlocksApart(isa, us, vs, before, up, vp);
    var mid := Splice(before, up, us);
    SpliceBack(before, mid, up, us, n);
    SpliceElsewhere(mid, vp, vs, up, n);
    SpliceBack(mid, Splice(mid, vp, vs), vp, vs, n);
  }

  lemma SamplesJoin(a: nat, b: nat)
    requires 2 * Samples(a) == a
    ensures Samples(a + b) == Samples(a) + Samples(b)
    ensures (a + b) % 2 == b % 2
  {
  }
}
