/** Where relocation stops being faithful: for one instruction the loop has moved, its
    meaning is kept if and only if the instruction is handled. */
module RelocLimits {
  import opened Bytes
  import opened RtlString
  import opened Wrappers
  import opened X64
  import opened Reloc
  import opened RelocMeaning

  /** What stands at r starts with the action of the instruction at a, or loads rax with its
      target and then takes it. */
  ghost predicate FirstKept(dec: Decoder, mem: Memory, a: int, m: Memory, r: int, acc: Option<int>) {
    var x, y := ActionAt(dec, mem, a, acc), ActionAt(dec, m, r, acc);
    || x == y
    || (y.SetAcc? && (x.CallTo? || x.JumpTo?) && y.value == x.target
        && ActionAt(dec, m, r + At(dec, m, r).len, Some(y.value)) == x)
  }

  /** The decoder can be trusted with the instruction at a, and behind its prefix. */
  ghost predicate SoundInsn(dec: Decoder, mem: Memory, a: int) {
    SoundAt(dec, mem, a) && (mem(a) == 0x67 ==> SoundAt(dec, mem, a + 1))
  }

  predicate DoublePrefix(mem: Memory, a: int) { mem(a) == 0x67 && mem(a + 1) == 0x67 }

  /** The loop moved the instruction at p.old_, and m holds what it emitted. */
  ghost predicate EmittedTo(dec: Decoder, mem: Memory, j: Job, p: Progress, m: Memory) {
    var x, r := AfterInsn(dec, mem, j, p), j.base + p.pos;
    && !p.a16 && At(dec, mem, p.old_).len > 0 && !DoublePrefix(mem, p.old_)
    && x.Next? && p.pos <= x.p.pos <= |x.p.out| && Holds(m, r, x.p.out[p.pos..x.p.pos])
    && 0 != r - p.old_ && Fits32(r - p.old_)
    && SoundInsn(dec, mem, p.old_)
  }

  /** ...and the decoder can be trusted with that. */
  ghost predicate MovedTo(dec: Decoder, mem: Memory, j: Job, p: Progress, m: Memory) {
    var r := j.base + p.pos;
    EmittedTo(dec, mem, j, p, m) && SoundAt(dec, m, r) && (StartsTransfer(mem, p.old_) ==> SoundAt(dec, m, r + 10))
  }

  lemma MovedSound(dec: Decoder, mem: Memory, j: Job, p: Progress, m: Memory)
    requires MovedTo(dec, mem, j, p, m)
    ensures SoundAt(dec, mem, p.old_) && SoundAt(dec, m, j.base + p.pos)
    ensures StartsTransfer(mem, p.old_) ==> SoundAt(dec, m, j.base + p.pos + 10)
  {
    hide SoundAt, AfterInsn, At, Holds;
  }

  lemma MovedIsEmitted(dec: Decoder, mem: Memory, j: Job, p: Progress, m: Memory)
    requires MovedTo(dec, mem, j, p, m)
    ensures EmittedTo(dec, mem, j, p, m)
  {
    hide EmittedTo, SoundAt;
  }

  lemma ShiftedTarget(a: int, r: int, x: int)
    requires a != r && Fits32(r - a)
    ensures Wrap64(a + x) != Wrap64(r + x)
  {
    var p, q := (a + x) / TWO64, (r + x) / TWO64;
    assert a + x == TWO64 * p + Wrap64(a + x) && r + x == TWO64 * q + Wrap64(r + x);
  }

  lemma CopyAccess(dec: Decoder, mem: Memory, a: int, m: Memory, r: int, acc: Option<int>)
    requires At(dec, m, r).len == At(dec, mem, a).len && At(dec, m, r).kind == At(dec, mem, a).kind
    requires var i := At(dec, mem, a);
      i.kind.RipRel? && i.kind.at + 4 <= i.len && Read(m, r, i.len) == Read(mem, a, i.len)
    requires a != r && Fits32(r - a)
    ensures !FirstKept(dec, mem, a, m, r, acc)
  {
    hide At, Read, Int32, Wrap64, Blank;
    var i := At(dec, mem, a);
    SubReadAt(mem, a, m, r, i.len, i.kind.at);
    ShiftedTarget(a, r, i.len + Int32(Read(mem, a + i.kind.at, 4)));
  }

  /** An instruction that mentions its address changes meaning when it is copied. */
  lemma CopyShifts(dec: Decoder, mem: Memory, a: int, m: Memory, r: int, acc: Option<int>)
    requires SoundAt(dec, mem, a) && 0 < At(dec, mem, a).len && !Verbatim(At(dec, mem, a).kind)
    requires Holds(m, r, Read(mem, a, At(dec, mem, a).len))
    requires a != r && Fits32(r - a)
    ensures !FirstKept(dec, mem, a, m, r, acc)
  {
    hide SoundAt, At, Read, Int32, Wrap64, Holds;
    CopyDecodes(dec, mem, a, m, r);
    SoundListed(dec, mem, a);
    var i := At(dec, mem, a);
    match i.kind
    case RipRel(_, _) => CopyAccess(dec, mem, a, m, r, acc);
    case Call(rel) => ShiftedTarget(a, r, i.len + rel);
    case Jump(rel) => ShiftedTarget(a, r, i.len + rel);
    case Branch(rel) => ShiftedTarget(a, r, i.len + rel);
  }

  lemma SubReadAt(mem: Memory, a: int, m: Memory, r: int, n: nat, at: nat)
    requires Read(m, r, n) == Read(mem, a, n) && at + 4 <= n
    ensures Read(m, r + at, 4) == Read(mem, a + at, 4)
  {
    var u, v, x, y := Read(m, r, n), Read(mem, a, n), Read(m, r + at, 4), Read(mem, a + at, 4);
    forall t | 0 <= t < 4
      ensures x[t] == y[t]
    {
      assert u[at + t] == v[at + t];
    }
  }

  /** The 16-bit reading of a 32-bit displacement is never two more than it. */
  lemma NarrowMisses(mem: Memory, a: int)
    requires mem(a + 1) == 0xE8 || mem(a + 1) == 0xE9
    ensures Wrap64(AbsTarget(mem, a + 1, true)) != Wrap64(a + 6 + Int32(Read(mem, a + 2, 4)))
  {
    var b, c := Read(mem, a + 2, 4), Read(mem, a + 2, 2);
    LowHalf(b, c);
    NarrowInts(a, Int16(c), Int32(b), UInt(c), UInt(b), UInt(b[2..]));
  }

  lemma LowHalf(b: seq<Byte>, c: seq<Byte>)
    requires |b| == 4 && |c| == 2 && b[0] == c[0] && b[1] == c[1]
    ensures UInt(b) == UInt(c) + 0x1_0000 * UInt(b[2..])
  {
    assert b[1..][1..] == b[2..];
    assert c[1..][1..] == [] && UInt(c[1..]) == c[1];
  }

  lemma NarrowInts(a: int, s: int, t: int, v: int, u: int, h: int)
    requires u == v + 0x1_0000 * h && s == Signed(v, 0x8000) && t == Signed(u, TWO31)
    ensures Wrap64(a + 4 + s) != Wrap64(a + 6 + t)
  {
    var p, q := (a + 4 + s) / TWO64, (a + 6 + t) / TWO64;
    assert a + 4 + s == TWO64 * p + Wrap64(a + 4 + s) && a + 6 + t == TWO64 * q + Wrap64(a + 6 + t);
    var k, l := if v < 0x8000 then 0 else 1, if u < TWO31 then 0 else 1;
    assert s - t == 0x1_0000 * (0x1_0000 * l - k - h);
  }

  /** The bytes the loop emits for one instruction that is not a rewritten transfer. */
  lemma EmittedCopy(dec: Decoder, mem: Memory, j: Job, p: Progress, m: Memory)
    requires EmittedTo(dec, mem, j, p, m)
    requires var prefixed := mem(p.old_) == 0x67; !IsTransfer(mem(if prefixed then p.old_ + 1 else p.old_))
    ensures var t := if mem(p.old_) == 0x67 then p.old_ + 1 else p.old_;
      var x := Fixup(dec, mem, t, j.base + p.pos); var n := At(dec, mem, p.old_).len;
      && !x.Failed?
      && (x.NotRipRel? ==> Holds(m, j.base + p.pos, Read(mem, p.old_, n)))
      && (x.Moved? && |x.code| <= n ==> Holds(m, j.base + p.pos, x.code))
  {
    hide SoundAt, SoundInsn, At, Fixup, Holds, Read, Rewritten, AbsTarget, IsRejected, Splice;
    var q := AfterInsn(dec, mem, j, p).p;
    var t := if mem(p.old_) == 0x67 then p.old_ + 1 else p.old_;
    var x, n := Fixup(dec, mem, t, j.base + p.pos), At(dec, mem, p.old_).len;
    var c := if x.Moved? then x.code else Read(mem, p.old_, n);
    assert q.pos == p.pos + n && q.out == Splice(p.out, p.pos, c);
    if |c| <= n {
      EmittedPrefix(p.out, p.pos, c, n);
      HoldsPrefix(m, j.base + p.pos, q.out[p.pos..q.pos], c);
    }
  }

  lemma EmittedPrefix(out: seq<Byte>, pos: nat, c: seq<Byte>, n: nat)
    requires |c| <= n && pos + n <= |out|
    ensures Splice(out, pos, c)[pos..pos + n][..|c|] == c
  {
    var b := Splice(out, pos, c)[pos..pos + n];
    forall t | 0 <= t < |c|
      ensures b[t] == c[t]
    {
      assert b[t] == Splice(out, pos, c)[pos + t];
    }
  }

  lemma HoldsPrefix(m: Memory, r: int, b: seq<Byte>, c: seq<Byte>)
    requires Holds(m, r, b) && |c| <= |b| && b[..|c|] == c
    ensures Holds(m, r, c)
  {
    forall t | 0 <= t < |c|
      ensures m(r + t) == c[t]
    {
      HeldByte(m, r, b, t);
      assert b[..|c|][t] == b[t];
    }
  }

  lemma EmittedTransfer(dec: Decoder, mem: Memory, j: Job, p: Progress, m: Memory)
    requires EmittedTo(dec, mem, j, p, m)
    requires var prefixed := mem(p.old_) == 0x67; IsTransfer(mem(if prefixed then p.old_ + 1 else p.old_))
    ensures var prefixed := mem(p.old_) == 0x67; var t := if prefixed then p.old_ + 1 else p.old_;
      Holds(m, j.base + p.pos, Rewritten(mem(t), AbsTarget(mem, t, prefixed)))
  {
    hide SoundAt, At, Fixup, Holds, Rewritten, AbsTarget, IsRejected;
    var q := AfterInsn(dec, mem, j, p).p;
    var prefixed := mem(p.old_) == 0x67;
    var t := if prefixed then p.old_ + 1 else p.old_;
    var c := Rewritten(mem(t), AbsTarget(mem, t, prefixed));
    assert q.pos == p.pos + 12 && q.out == Splice(p.out, p.pos, c);
    EmittedPrefix(p.out, p.pos, c, 12);
    HoldsPrefix(m, j.base + p.pos, q.out[p.pos..q.pos], c);
  }

  /** A call or jump is kept exactly when the code reads its displacement at full width. */
  lemma TransferKept(dec: Decoder, mem: Memory, j: Job, p: Progress, m: Memory, acc: Option<int>)
    requires MovedTo(dec, mem, j, p, m)
    requires var prefixed := mem(p.old_) == 0x67; IsTransfer(mem(if prefixed then p.old_ + 1 else p.old_))
    ensures FirstKept(dec, mem, p.old_, m, j.base + p.pos, acc) <==> Handled(dec, mem, p.old_)
  {
    hide SoundAt, At, ActionAt, EmittedTo, MovedTo, Holds, Rewritten, AbsTarget, ParseRip, Wrap64, AfterInsn;
    MovedSound(dec, mem, j, p, m);
    MovedIsEmitted(dec, mem, j, p, m);
    var a, r := p.old_, j.base + p.pos;
    var prefixed := mem(a) == 0x67;
    var t := if prefixed then a + 1 else a;
    var target := AbsTarget(mem, t, prefixed);
    EmittedTransfer(dec, mem, j, p, m);
    RewrittenActions(dec, mem(t), target, m, r, acc);
    TransferAction(dec, mem, a, acc);
    if prefixed && mem(t) != 0xEB {
      NarrowMisses(mem, a);
      WideAction(dec, mem, a, acc);
    }
  }

  lemma WideAction(dec: Decoder, mem: Memory, a: int, acc: Option<int>)
    requires SoundAt(dec, mem, a) && mem(a) == 0x67 && (mem(a + 1) == 0xE8 || mem(a + 1) == 0xE9)
    ensures var x := ActionAt(dec, mem, a, acc);
      (x.CallTo? || x.JumpTo?) && x.target == Wrap64(a + 6 + Int32(Read(mem, a + 2, 4)))
  {
    hide SoundAt, At, Int32, Read;
    SoundTransfers(dec, mem, a);
  }

  /** A prefixed rip-relative instruction arrives without its prefix. */
  lemma PrefixDropped(dec: Decoder, mem: Memory, a: int, m: Memory, r: int, acc: Option<int>)
    requires SoundInsn(dec, mem, a) && mem(a) == 0x67 && mem(a + 1) != 0x67 && At(dec, mem, a).len > 0
    requires At(dec, mem, a + 1).operand.RipMem? && Fixup(dec, mem, a + 1, r).Moved?
    requires Holds(m, r, Fixup(dec, mem, a + 1, r).code)
    ensures !FirstKept(dec, mem, a, m, r, acc)
  {
    hide SoundAt, At, Holds, Fixup;
    MovedAction(dec, mem, a + 1, m, r, acc);
    TrueField(dec, mem, a + 1);
    var x, y := ActionAt(dec, mem, a, acc), ActionAt(dec, m, r, acc);
    assert y == ActionAt(dec, mem, a + 1, acc);
    OpStartsWith(dec, mem, a + 1, acc);
    OpStartsWith(dec, mem, a, acc);
  }

  /** The bytes kept in an action start with the first byte of the instruction. */
  lemma OpStartsWith(dec: Decoder, mem: Memory, a: int, acc: Option<int>)
    requires SoundAt(dec, mem, a) && At(dec, mem, a).len > 0
    ensures var x := ActionAt(dec, mem, a, acc); x.Access? || x.LeaveBy? ==> x.op != [] && x.op[0] == mem(a)
  {
    hide SoundAt, At;
    SoundListed(dec, mem, a);
  }

  /** One moved instruction keeps its meaning if and only if it is handled. */
  lemma KeptIffHandled(dec: Decoder, mem: Memory, j: Job, p: Progress, m: Memory, acc: Option<int>)
    requires MovedTo(dec, mem, j, p, m)
    ensures FirstKept(dec, mem, p.old_, m, j.base + p.pos, acc) <==> Handled(dec, mem, p.old_)
  {
    hide SoundAt, At, ActionAt, Holds, ParseRip, FirstKept, Fixup, Read, AfterInsn;
    var a, r := p.old_, j.base + p.pos;
    var t := if mem(a) == 0x67 then a + 1 else a;
    if IsTransfer(mem(t)) {
      TransferKept(dec, mem, j, p, m, acc);
    } else {
      EmittedCopy(dec, mem, j, p, m);
      ListingParses(dec, mem, t);
      VerbatimNotRip(dec, mem, a);
      FixupForm(dec, mem, t, r);
      PrefixedRipLen(dec, mem, a);
      if Fixup(dec, mem, t, r).NotRipRel? {
        if Verbatim(At(dec, mem, a).kind) {
          VerbatimAction(dec, mem, a, m, r, acc);
          SameIsKept(dec, mem, a, m, r, acc);
        } else {
          CopyShifts(dec, mem, a, m, r, acc);
        }
      } else if mem(a) == 0x67 {
        PrefixDropped(dec, mem, a, m, r, acc);
      } else {
        MovedAction(dec, mem, a, m, r, acc);
        SameIsKept(dec, mem, a, m, r, acc);
      }
    }
  }

  lemma SameIsKept(dec: Decoder, mem: Memory, a: int, m: Memory, r: int, acc: Option<int>)
    requires ActionAt(dec, m, r, acc) == ActionAt(dec, mem, a, acc)
    ensures FirstKept(dec, mem, a, m, r, acc)
  {
  }

  lemma FixupForm(dec: Decoder, mem: Memory, a: int, r: int)
    ensures Fixup(dec, mem, a, r).NotRipRel? <==> ParseRip(Text(At(dec, mem, a))).None?
  {
    hide At, ParseRip, OnlyField;
  }

  lemma PrefixedRipLen(dec: Decoder, mem: Memory, a: int)
    requires SoundInsn(dec, mem, a)
    ensures mem(a) == 0x67 && At(dec, mem, a + 1).operand.RipMem? && At(dec, mem, a).len > 0 ==>
      At(dec, mem, a).len == At(dec, mem, a + 1).len + 1
  {
    hide WellDecoded, Local;
    var w, v := Read(mem, a, 32), Read(mem, a + 1, 32);
    assert w[0] == mem(a) && w[1..] == v[..31];
  }

  // ---- the whole entry point -----------------------------------------------

  /** No instruction that control reaches starts with two address-size prefixes. */
  ghost predicate ReachedSingle(dec: Decoder, mem: Memory, a: int, end: int)
    decreases end - a
  {
    a < end && At(dec, mem, a).len > 0 ==>
      && !DoublePrefix(mem, a)
      && (EndsCode(At(dec, mem, a).kind) || ReachedSingle(dec, mem, a + At(dec, mem, a).len, end))
  }

  /** The buffer overlaps no byte of the entry point and is within reach of all. */
  ghost predicate Elsewhere(j: Job, size: nat) {
    forall d :: j.base - (j.ep + j.size) <= d <= j.base + size - j.ep ==> d != 0 && Fits32(d)
  }

  /** An instruction that was not kept tells the two runs apart. */
  lemma LostStep(dec: Decoder, mem: Memory, a: int, end: int, m: Memory, r: int, stop: int, acc: Option<int>)
    requires a < end && r < stop && At(dec, mem, a).len > 0 && At(dec, m, r).len > 0
    requires !FirstKept(dec, mem, a, m, r, acc)
    requires ActionAt(dec, m, r, acc).SetAcc? ==> var s := r + At(dec, m, r).len; s < stop && At(dec, m, s).len > 0
    ensures !SameMeaning(Exec(dec, mem, a, end, acc), Exec(dec, m, r, stop, acc))
  {
    hide At, ActionAt, Exec;
    ExecStep(dec, mem, a, end, acc);
    ExecStep(dec, m, r, stop, acc);
    var y, s := ActionAt(dec, m, r, acc), r + At(dec, m, r).len;
    if y.SetAcc? {
      ExecStep(dec, m, s, stop, Some(y.value));
    }
  }

  /** What stands for an unhandled instruction decodes, and loads rax only in the first half
      of a rewritten transfer. */
  lemma UnhandledForm(dec: Decoder, mem: Memory, j: Job, p: Progress, m: Memory, acc: Option<int>)
    requires MovedTo(dec, mem, j, p, m) && !Handled(dec, mem, p.old_)
    ensures var r := j.base + p.pos; var n := At(dec, m, r).len;
      && n > 0
      && (ActionAt(dec, m, r, acc).SetAcc? ==> StartsTransfer(mem, p.old_) && n == 10 && At(dec, m, r + n).len > 0)
  {
    hide SoundAt, At, Holds, ParseRip, Fixup, Read, AfterInsn, Rewritten;
    var a, r := p.old_, j.base + p.pos;
    var t := if mem(a) == 0x67 then a + 1 else a;
    if StartsTransfer(mem, a) {
      EmittedTransfer(dec, mem, j, p, m);
      RewrittenActions(dec, mem(t), AbsTarget(mem, t, mem(a) == 0x67), m, r, acc);
    } else {
      EmittedCopy(dec, mem, j, p, m);
      ListingParses(dec, mem, t);
      FixupForm(dec, mem, t, r);
      PrefixedRipLen(dec, mem, a);
      if Fixup(dec, mem, t, r).NotRipRel? {
        CopyDecodes(dec, mem, a, m, r);
      } else {
        TrueField(dec, mem, t);
        MovedAction(dec, mem, t, m, r, acc);
      }
    }
  }

  /** The loop's next instruction is one it moved in the sense of MovedTo. */
  lemma NextMoved(dec: Decoder, mem: Memory, j: Job, p: Progress, m: Memory, out: seq<Byte>, size: nat)
    requires InWalk(dec, mem, j, p, 0) && |p.out| >= 100 && |out| == |p.out| && p.old_ < j.ep + j.size
    requires Relocated(dec, mem, j, p) == Done(out, size, j.ep + j.size) && Planted(m, j, out, size)
    requires Elsewhere(j, size)
    requires SoundCode(dec, m, j.base + p.pos, j.base + size + 5) && !DoublePrefix(mem, p.old_)
    ensures MovedTo(dec, mem, j, p, m) && AfterInsn(dec, mem, j, p).p.pos <= size
    ensures StartsTransfer(mem, p.old_) ==> p.pos + 12 <= size
  {
    hide SoundAt, At, AfterInsn, Holds, Relocated, Le, Elsewhere;
    SkipInsn(dec, mem, j, p);
    WalkFlag(dec, mem, j, p, 0);
    WalkAt(dec, mem, j, p, 0);
    WalkSound(dec, mem, j, p, 0);
    PrefixSound(dec, mem, j, p);
    var q := AfterInsn(dec, mem, j, p).p;
    KeepsEmitted(dec, mem, j, q);
    AfterKeeps(dec, mem, j, p);
    WalkPos(dec, mem, j, q, 0);
    EmittedHeld(m, j.base, out, q.out, size, p.pos, q.pos);
    ElsewhereAt(j, size, j.base + p.pos - p.old_);
    if StartsTransfer(mem, p.old_) {
      TransferSound(dec, mem, j, p, m, j.base + size + 5);
    }
  }

  lemma ElsewhereAt(j: Job, size: nat, d: int)
    requires Elsewhere(j, size) && j.base - (j.ep + j.size) <= d <= j.base + size - j.ep
    ensures d != 0 && Fits32(d)
  {
  }

  /** What was emitted before position k stands in the final buffer. */
  lemma EmittedHeld(m: Memory, r: int, out: seq<Byte>, b: seq<Byte>, size: nat, i: nat, k: nat)
    requires i <= k <= size <= |out| && k <= |b| && out[..k] == b[..k] && Holds(m, r, out[..size])
    ensures Holds(m, r + i, b[i..k])
  {
    forall t | 0 <= t < k - i
      ensures m(r + i + t) == b[i..k][t]
    {
      HeldByte(m, r, out[..size], i + t);
      assert out[i + t] == out[..k][i + t] && b[i + t] == b[..k][i + t];
    }
  }

  lemma TransferSound(dec: Decoder, mem: Memory, j: Job, p: Progress, m: Memory, stop: int)
    requires EmittedTo(dec, mem, j, p, m) && StartsTransfer(mem, p.old_)
    requires SoundCode(dec, m, j.base + p.pos, stop) && j.base + AfterInsn(dec, mem, j, p).p.pos < stop
    ensures SoundAt(dec, m, j.base + p.pos) && SoundAt(dec, m, j.base + p.pos + 10)
    ensures AfterInsn(dec, mem, j, p).p.pos == p.pos + 12
  {
    hide SoundAt, At, Holds, Rewritten, AbsTarget, SoundCode, Fixup, IsRejected;
    var t := if mem(p.old_) == 0x67 then p.old_ + 1 else p.old_;
    EmittedTransfer(dec, mem, j, p, m);
    RewrittenSound(dec, mem(t), AbsTarget(mem, t, mem(p.old_) == 0x67), m, j.base + p.pos, stop);
  }

  lemma AfterKeeps(dec: Decoder, mem: Memory, j: Job, p: Progress)
    ensures var x := AfterInsn(dec, mem, j, p); x.Next? ==> p.pos <= x.p.pos
  {
    hide Iterate;
    IterateKeeps(dec, mem, j, p);
    var x := Iterate(dec, mem, j, p);
    if x.Next? { IterateKeeps(dec, mem, j, x.p); }
  }

  lemma PrefixSound(dec: Decoder, mem: Memory, j: Job, p: Progress)
    requires InWalk(dec, mem, j, p, 0) && p.old_ < j.ep + j.size
    ensures SoundInsn(dec, mem, p.old_)
  {
    hide SoundAt, At;
    WalkAt(dec, mem, j, p, 0);
    if mem(p.old_) == 0x67 {
      PrefixedLen(dec, mem, p.old_);
      RoundSpans(dec, mem, p.old_, 5 - (p.old_ - j.ep));
      assert SoundCode(dec, mem, p.old_ + 1, j.ep + j.size);
    }
  }

  /** From any boundary the loop reaches: when control reaches an instruction that is not
      handled, the relocated code does something else than the original. */
  lemma {:induction false} MeaningLost(dec: Decoder, mem: Memory, j: Job, p: Progress, m: Memory, out: seq<Byte>,
                                       size: nat, acc: Option<int>)
    requires InWalk(dec, mem, j, p, 0) && |p.out| >= 100 && |out| == |p.out|
    requires Relocated(dec, mem, j, p) == Done(out, size, j.ep + j.size) && Planted(m, j, out, size)
    requires Elsewhere(j, size)
    requires SoundCode(dec, m, j.base + p.pos, j.base + size + 5)
    requires ReachedSingle(dec, mem, p.old_, j.ep + j.size) && !ReachedHandled(dec, mem, p.old_, j.ep + j.size)
    ensures !SameMeaning(Exec(dec, mem, p.old_, j.ep + j.size, acc),
                         Exec(dec, m, j.base + p.pos, j.base + size + 5, acc))
    decreases j.ep + j.size - p.old_
  {
    hide SoundAt, At, ActionAt, AfterInsn, Exec, Relocated, SameMeaning, InWalk, Handled, Planted, SoundCode, EndsCode,
      Elsewhere, MovedTo;
    WalkDecodes(dec, mem, j, p);
    if Handled(dec, mem, p.old_) {
      HandledStep(dec, mem, j, p, m, out, size, acc);
      MeaningLost(dec, mem, j, AfterInsn(dec, mem, j, p).p, m, out, size, AccBehind(dec, mem, p.old_, acc));
    } else {
      NextMoved(dec, mem, j, p, m, out, size);
      KeptIffHandled(dec, mem, j, p, m, acc);
      UnhandledForm(dec, mem, j, p, m, acc);
      EmittedRoom(dec, mem, j, p, m, size);
      LostStep(dec, mem, p.old_, j.ep + j.size, m, j.base + p.pos, j.base + size + 5, acc);
    }
  }

  lemma EmittedRoom(dec: Decoder, mem: Memory, j: Job, p: Progress, m: Memory, size: nat)
    requires MovedTo(dec, mem, j, p, m) && AfterInsn(dec, mem, j, p).p.pos <= size
    ensures p.pos <= size
  {
    hide AfterInsn, SoundAt, Holds;
  }

  /** The relocated entry point means what the original meant if and only if every instruction
      that control reaches is handled. */
  lemma MeaningKeptIffHandled(dec: Decoder, mem: Memory, j: Job, buffer: seq<Byte>, out: seq<Byte>, size: nat,
                              m: Memory)
    requires SoundCode(dec, mem, j.ep, j.ep + j.size) && IsEntrySize(dec, mem, j) && |buffer| >= 100
    requires Relocated(dec, mem, j, Start(j, buffer)) == Done(out, size, j.ep + j.size) && Planted(m, j, out, size)
    requires SoundCode(dec, m, j.base, j.base + size + 5) && Elsewhere(j, size)
    requires ReachedSingle(dec, mem, j.ep, j.ep + j.size)
    ensures SameMeaning(Exec(dec, mem, j.ep, j.ep + j.size, None), Exec(dec, m, j.base, j.base + size + 5, None))
      <==> ReachedHandled(dec, mem, j.ep, j.ep + j.size)
  {
    hide SoundCode, IsEntrySize, InWalk, Relocated, ReachedHandled, ReachedSingle, Planted, Exec, SameMeaning,
      Elsewhere;
    WalkStarts(dec, mem, j, buffer);
    RelocationFits(dec, mem, j, Start(j, buffer), 0);
    if ReachedHandled(dec, mem, j.ep, j.ep + j.size) {
      MeaningFrom(dec, mem, j, Start(j, buffer), m, out, size, None);
    } else {
      MeaningLost(dec, mem, j, Start(j, buffer), m, out, size, None);
    }
  }
}
