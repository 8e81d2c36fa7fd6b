/** Relocation preserves meaning: the buffer, followed by the jump back, does what the
    entry point did, for every entry point whose instructions the code really handles. */
module RelocMeaning {
  import opened Bytes
  import opened RtlString
  import opened Wrappers
  import opened X64
  import opened Reloc

  /** Instructions that mean the same at any address. */
  predicate Verbatim(k: Kind) { k.Plain? || k.Out? || k.LoadAcc? || k.CallAcc? || k.JumpAcc? }

  /** The instruction at a is one that LhRelocateEntryPoint moves correctly when it moves it
      at all. Not handled: a rip-relative operand that is zero or has a segment in front, a
      relative branch it neither rewrites nor rejects (LOOP, or any branch behind a prefix
      other than 0x67), and behind an address-size prefix everything but a short jump and
      instructions free of addresses. */
  ghost predicate Handled(dec: Decoder, mem: Memory, a: int) {
    var i := At(dec, mem, a);
    if mem(a) == 0x67 then
      mem(a + 1) == 0xEB || (mem(a + 1) != 0x67 && !IsTransfer(mem(a + 1)) && Verbatim(i.kind)
        && ParseRip(Text(At(dec, mem, a + 1))).None?)
    else
      IsTransfer(mem(a)) || Verbatim(i.kind) || (i.operand.RipMem? && i.operand.seg == "" && i.operand.disp != 0)
  }

  /** Every instruction that control reaches from a before `end` is handled. */
  ghost predicate ReachedHandled(dec: Decoder, mem: Memory, a: int, end: int)
    decreases end - a
  {
    a < end && At(dec, mem, a).len > 0 ==>
      && Handled(dec, mem, a)
      && (EndsCode(At(dec, mem, a).kind) || ReachedHandled(dec, mem, a + At(dec, mem, a).len, end))
  }

  /** m holds the bytes b from address r on. */
  ghost predicate Holds(m: Memory, r: int, b: seq<Byte>) {
    forall t :: 0 <= t < |b| ==> m(r + t) == b[t]
  }

  // ---- one instruction -----------------------------------------------------

  lemma LocalAt(dec: Decoder, mem: Memory, a: int, m: Memory, r: int)
    requires SoundAt(dec, mem, a) && 0 < At(dec, mem, a).len <= 15
    requires SameCode(At(dec, mem, a), Read(mem, a, 32), Read(m, r, 32))
    ensures At(dec, m, r).len == At(dec, mem, a).len && At(dec, m, r).kind == At(dec, mem, a).kind
  {
    hide SameCode, WellDecoded, PrefixAdds, Read;
  }

  lemma HeldByte(m: Memory, r: int, b: seq<Byte>, t: int)
    requires Holds(m, r, b) && 0 <= t < |b|
    ensures m(r + t) == b[t]
  {
  }

  lemma ReadHeld(m: Memory, r: int, b: seq<Byte>, at: nat, n: nat)
    requires Holds(m, r, b) && at + n <= |b|
    ensures Read(m, r + at, n) == b[at..at + n]
  {
    var x, y := Read(m, r + at, n), b[at..at + n];
    forall t | 0 <= t < n
      ensures x[t] == y[t]
    {
      HeldByte(m, r, b, at + t);
    }
  }

  /** An instruction copied byte for byte is decoded as the same instruction. */
  lemma CopyDecodes(dec: Decoder, mem: Memory, a: int, m: Memory, r: int)
    requires SoundAt(dec, mem, a) && 0 < At(dec, mem, a).len
    requires Holds(m, r, Read(mem, a, At(dec, mem, a).len))
    ensures At(dec, m, r).len == At(dec, mem, a).len && At(dec, m, r).kind == At(dec, mem, a).kind
    ensures Read(m, r, At(dec, mem, a).len) == Read(mem, a, At(dec, mem, a).len)
  {
    hide SoundAt, At;
    var w, v, i := Read(mem, a, 32), Read(m, r, 32), At(dec, mem, a);
    LenBound(dec, mem, a);
    forall t | 0 <= t < i.len
      ensures w[t] == v[t]
    {
      HeldByte(m, r, Read(mem, a, i.len), t);
    }
    LocalAt(dec, mem, a, m, r);
  }

  /** Copied instructions that do not mention their address act the same. */
  lemma VerbatimAction(dec: Decoder, mem: Memory, a: int, m: Memory, r: int, acc: Option<int>)
    requires SoundAt(dec, mem, a) && 0 < At(dec, mem, a).len && Verbatim(At(dec, mem, a).kind)
    requires Holds(m, r, Read(mem, a, At(dec, mem, a).len))
    ensures At(dec, m, r).len == At(dec, mem, a).len
    ensures ActionAt(dec, m, r, acc) == ActionAt(dec, mem, a, acc)
  {
    CopyDecodes(dec, mem, a, m, r);
    hide SoundAt, At, Read;
  }

  lemma TrueField(dec: Decoder, mem: Memory, a: int)
    requires SoundAt(dec, mem, a) && At(dec, mem, a).operand.RipMem?
    ensures var i := At(dec, mem, a);
      && i.kind.RipRel? && 1 <= i.kind.at <= i.len - 4 && i.len <= 15 && Field(mem, a, i.kind.at) == i.operand.disp
  {
    var w, i := Read(mem, a, 32), At(dec, mem, a);
    hide SoundAt, At, UInt, Int32, Text, NoBrackets, NotRip, DispText, Read;
    SoundListed(dec, mem, a);
    SubRead(mem, a, i.kind.at, 4);
  }

  /** When a rip-relative instruction is moved, the offset found is that of its
      displacement, and only those four bytes change. */
  lemma FixupFindsField(dec: Decoder, mem: Memory, a: int, r: int)
    requires SoundAt(dec, mem, a) && At(dec, mem, a).operand.RipMem? && Fixup(dec, mem, a, r).Moved?
    ensures var i := At(dec, mem, a);
      && i.kind.RipRel? && 1 <= i.kind.at <= i.len - 4 && i.len <= 15
      && OnlyField(mem, a, i.len, i.operand.disp, i.kind.at)
      && Fits32(i.operand.disp - (r - a))
      && Fixup(dec, mem, a, r) == Moved(Splice(Read(mem, a, i.len), i.kind.at, Le(i.operand.disp - (r - a), 4)))
  {
    hide SoundAt, ParseRip, Field, Splice, Le, Read, Text;
    TrueField(dec, mem, a);
    ListingParses(dec, mem, a);
  }

  lemma MovedDecodes(dec: Decoder, mem: Memory, a: int, m: Memory, r: int, at: nat, e: int)
    requires SoundAt(dec, mem, a)
    requires var i := At(dec, mem, a);
      i.kind.RipRel? && i.kind.at == at && 1 <= at <= i.len - 4 && i.len <= 15 && Fits32(e)
    requires Holds(m, r, Splice(Read(mem, a, At(dec, mem, a).len), at, Le(e, 4)))
    ensures var i := At(dec, mem, a);
      && At(dec, m, r).len == i.len && At(dec, m, r).kind == i.kind
      && Blank(Read(m, r, i.len), at) == Blank(Read(mem, a, i.len), at)
      && Int32(Read(m, r + at, 4)) == e
  {
    hide SoundAt, At, Le, UInt, Int32, Blank, SameCode, Holds;
    var w, v, i := Read(mem, a, 32), Read(m, r, 32), At(dec, mem, a);
    var code := Splice(Read(mem, a, i.len), at, Le(e, 4));
    ReadHeld(m, r, code, at, 4);
    ReadHeld(m, r, code, 0, i.len);
    assert code[at..at + 4] == Le(e, 4) && code[0..i.len] == code;
    StoreInt32(e);
    BlankSame(Read(mem, a, i.len), at, Le(e, 4));
    SpliceSameCode(i, mem, a, m, r, Le(e, 4));
    LocalAt(dec, mem, a, m, r);
  }

  lemma SpliceSameCode(i: Insn, mem: Memory, a: int, m: Memory, r: int, f: seq<Byte>)
    requires i.kind.RipRel? && i.kind.at <= i.len - 4 && i.len <= 15 && |f| == 4
    requires Holds(m, r, Splice(Read(mem, a, i.len), i.kind.at, f))
    ensures SameCode(i, Read(mem, a, 32), Read(m, r, 32))
  {
    var w, v := Read(mem, a, 32), Read(m, r, 32);
    var code := Splice(Read(mem, a, i.len), i.kind.at, f);
    forall t | 0 <= t < i.len && !(i.kind.at <= t < i.kind.at + 4)
      ensures w[t] == v[t]
    {
      HeldByte(m, r, code, t);
    }
  }

  lemma BlankSame(b: seq<Byte>, at: nat, f: seq<Byte>)
    requires at + 4 <= |b| && |f| == 4
    ensures Blank(Splice(b, at, f), at) == Blank(b, at)
  {
  }

  /** A moved rip-relative instruction accesses the same address. */
  lemma MovedAction(dec: Decoder, mem: Memory, a: int, m: Memory, r: int, acc: Option<int>)
    requires SoundAt(dec, mem, a) && At(dec, mem, a).operand.RipMem? && Fixup(dec, mem, a, r).Moved?
    requires Holds(m, r, Fixup(dec, mem, a, r).code)
    ensures At(dec, m, r).len == At(dec, mem, a).len > 0
    ensures ActionAt(dec, m, r, acc) == ActionAt(dec, mem, a, acc)
  {
    hide SoundAt, Holds, Fixup, Splice, Le, Read, OnlyField;
    var i := At(dec, mem, a);
    FixupFindsField(dec, mem, a, r);
    TrueField(dec, mem, a);
    var e := i.operand.disp - (r - a);
    MovedDecodes(dec, mem, a, m, r, i.kind.at, e);
    assert r + i.len + e == a + i.len + i.operand.disp;
  }

  /** The rewritten form of a call or jump loads rax with the target and goes there. */
  lemma RewrittenActions(dec: Decoder, b1: Byte, target: int, m: Memory, r: int, acc: Option<int>)
    requires SoundAt(dec, m, r) && SoundAt(dec, m, r + 10) && IsTransfer(b1) && Holds(m, r, Rewritten(b1, target))
    ensures At(dec, m, r).len == 10 && ActionAt(dec, m, r, acc) == SetAcc(Wrap64(target))
    ensures At(dec, m, r + 10).len == 2
    ensures ActionAt(dec, m, r + 10, Some(Wrap64(target))) == if b1 == 0xE8 then CallTo(Wrap64(target))
      else JumpTo(Wrap64(target))
  {
    hide Holds, SoundAt, At, Le, Read;
    var code := Rewritten(b1, target);
    LoadDecodes(dec, target, m, r, code);
    HeldByte(m, r, code, 10);
    HeldByte(m, r, code, 11);
    GoDecodes(dec, m, r + 10, b1 == 0xE8);
  }

  lemma GoDecodes(dec: Decoder, m: Memory, r: int, call: bool)
    requires SoundAt(dec, m, r) && m(r) == 0xFF && m(r + 1) == if call then 0xD0 else 0xE0
    ensures At(dec, m, r).len == 2 && At(dec, m, r).kind == if call then CallAcc else JumpAcc
  {
    hide SoundAt, At;
    SoundAccumulator(dec, m, r);
  }

  lemma LoadDecodes(dec: Decoder, target: int, m: Memory, r: int, code: seq<Byte>)
    requires SoundAt(dec, m, r) && |code| == 12 && code[..2] == [0x48, 0xB8] && code[2..10] == Le(target, 8)
    requires Holds(m, r, code)
    ensures At(dec, m, r).len == 10 && At(dec, m, r).kind == LoadAcc(Wrap64(target))
  {
    hide Holds, UInt, Le, SoundAt, At, Read;
    HeldByte(m, r, code, 0);
    HeldByte(m, r, code, 1);
    assert code[0] == code[..2][0] && code[1] == code[..2][1];
    ReadHeld(m, r, code, 2, 8);
    StoreAddress(target);
    SoundAccumulator(dec, m, r);
  }

  /** The action of a handled call or jump goes where the code computes. */
  lemma TransferAction(dec: Decoder, mem: Memory, a: int, acc: Option<int>)
    requires SoundAt(dec, mem, a)
    ensures IsTransfer(mem(a)) ==>
      ActionAt(dec, mem, a, acc) == if mem(a) == 0xE8 then CallTo(Wrap64(AbsTarget(mem, a, false)))
        else JumpTo(Wrap64(AbsTarget(mem, a, false)))
    ensures mem(a) == 0x67 && mem(a + 1) == 0xEB ==>
      ActionAt(dec, mem, a, acc) == JumpTo(Wrap64(AbsTarget(mem, a + 1, true)))
  {
    hide SoundAt, At, Int32, Int16, Int8, Read;
    SoundTransfers(dec, mem, a);
  }

  // ---- one instruction of the loop -----------------------------------------

  /** The state of the loop after the whole instruction at p.old_: one iteration, or two
      when it starts with an address-size prefix. */
  ghost function AfterInsn(dec: Decoder, mem: Memory, j: Job, p: Progress): (r: Step) {
    var x := Iterate(dec, mem, j, p);
    if mem(p.old_) == 0x67 && x.Next? then Iterate(dec, mem, j, x.p) else x
  }

  /** The code the buffer receives for a handled instruction. */
  ghost function Piece(dec: Decoder, mem: Memory, j: Job, a: int, r: int): (res: seq<Byte>) {
    var prefixed := mem(a) == 0x67;
    var t := if prefixed then a + 1 else a;
    if IsTransfer(mem(t)) then Rewritten(mem(t), AbsTarget(mem, t, prefixed))
    else if At(dec, mem, a).operand.RipMem? && !prefixed && Fixup(dec, mem, a, r).Moved? then Fixup(dec, mem, a, r).code
    else Read(mem, a, At(dec, mem, a).len)
  }

  lemma HandledPiece(dec: Decoder, mem: Memory, j: Job, p: Progress)
    requires SoundAt(dec, mem, p.old_) && !p.a16 && Handled(dec, mem, p.old_) && AfterInsn(dec, mem, j, p).Next?
    ensures var q, c := AfterInsn(dec, mem, j, p).p, Piece(dec, mem, j, p.old_, j.base + p.pos);
      && At(dec, mem, p.old_).len > 0
      && p.pos + |c| <= |p.out|
      && q == Progress(p.old_ + At(dec, mem, p.old_).len, false, Splice(p.out, p.pos, c), p.pos + |c|)
    ensures At(dec, mem, p.old_).operand.RipMem? && mem(p.old_) != 0x67 && !IsTransfer(mem(p.old_)) ==>
      Fixup(dec, mem, p.old_, j.base + p.pos).Moved?
  {
    hide SoundAt, ParseRip, At, AbsTarget, Rewritten, Read, Splice, Le, OnlyField;
    ListingParses(dec, mem, p.old_);
    VerbatimNotRip(dec, mem, p.old_);
  }

  lemma VerbatimNotRip(dec: Decoder, mem: Memory, a: int)
    requires SoundAt(dec, mem, a)
    ensures Verbatim(At(dec, mem, a).kind) ==> !At(dec, mem, a).operand.RipMem?
    ensures IsTransfer(mem(a)) ==> !At(dec, mem, a).operand.RipMem?
  {
    var w := Read(mem, a, 32);
    assert w[0] == mem(a) && WellDecoded(w, dec(w));
  }

  // ---- the whole loop ------------------------------------------------------

  /** Later iterations leave the bytes already emitted alone. */
  lemma {:induction false} KeepsEmitted(dec: Decoder, mem: Memory, j: Job, p: Progress)
    ensures var x := Relocated(dec, mem, j, p);
      x.Done? ==> p.pos <= x.size && |x.out| == |p.out| && (p.pos <= |p.out| ==> x.out[..p.pos] == p.out[..p.pos])
    decreases j.ep + j.size - p.old_, p.a16
  {
    if p.old_ < j.ep + j.size {
      IterateAdvances(dec, mem, j, p);
      var x := Iterate(dec, mem, j, p);
      if x.Next? {
        IterateKeeps(dec, mem, j, p);
        hide Iterate;
        KeepsEmitted(dec, mem, j, x.p);
        if p.pos <= |p.out| && Relocated(dec, mem, j, x.p).Done? && x.p.pos <= |x.p.out| {
          var out := Relocated(dec, mem, j, x.p).out;
          assert out[..p.pos] == out[..x.p.pos][..p.pos] == x.p.out[..x.p.pos][..p.pos] == x.p.out[..p.pos];
        }
      }
    }
  }

  lemma IterateKeeps(dec: Decoder, mem: Memory, j: Job, p: Progress)
    ensures var x := Iterate(dec, mem, j, p);
      && (x.Next? ==> p.pos <= x.p.pos && |x.p.out| == |p.out|)
      && (x.Next? && p.pos <= |p.out| ==> x.p.pos <= |p.out| && x.p.out[..p.pos] == p.out[..p.pos])
  {
    hide Fixup, Rewritten, AbsTarget, IsRejected, At;
  }

  /** Whatever the loop does from p it does from behind the next instruction. */
  lemma SkipInsn(dec: Decoder, mem: Memory, j: Job, p: Progress)
    requires InWalk(dec, mem, j, p, 0) && |p.out| >= 100 && p.old_ < j.ep + j.size
    requires Relocated(dec, mem, j, p).Done?
    ensures var x := AfterInsn(dec, mem, j, p);
      x.Next? && Relocated(dec, mem, j, x.p) == Relocated(dec, mem, j, p) && |x.p.out| == |p.out|
      && (mem(p.old_ + 1) != 0x67 || mem(p.old_) != 0x67 ==> InWalk(dec, mem, j, x.p, 0))
  {
    hide SoundAt, InWalk, Iterate;
    WalkStep(dec, mem, j, p, 0);
    if mem(p.old_) == 0x67 {
      PrefixIterate(dec, mem, j, p);
      var q := Iterate(dec, mem, j, p).p;
      if q.old_ < j.ep + j.size {
        WalkStep(dec, mem, j, q, 1);
      } else {
        WalkEnds(dec, mem, j, q, 1);
      }
    }
  }

  /** The bytes of the instruction at p are in the final buffer. */
  lemma PieceHeld(dec: Decoder, mem: Memory, j: Job, p: Progress, m: Memory, out: seq<Byte>, size: nat, c: seq<Byte>,
                  q: Progress)
    requires Relocated(dec, mem, j, q) == Done(out, size, j.ep + j.size) && size <= |out|
    requires p.pos + |c| <= |p.out| && q.out == Splice(p.out, p.pos, c) && q.pos == p.pos + |c|
    requires Holds(m, j.base, out[..size])
    ensures Holds(m, j.base + p.pos, c) && q.pos <= size
  {
    KeepsEmitted(dec, mem, j, q);
    hide Relocated;
    forall t | 0 <= t < |c|
      ensures m(j.base + p.pos + t) == c[t]
    {
      HeldByte(m, j.base, out[..size], p.pos + t);
      assert out[..q.pos][p.pos + t] == q.out[..q.pos][p.pos + t] == c[t];
    }
  }

  lemma JumpBack(dec: Decoder, m: Memory, r: int, target: int, acc: Option<int>)
    requires SoundAt(dec, m, r) && Fits32(target - (r + 5)) && Holds(m, r, [0xE9] + Le(target - (r + 5), 4))
    ensures At(dec, m, r).len == 5 && ActionAt(dec, m, r, acc) == JumpTo(Wrap64(target))
  {
    hide UInt, Int32, Int8, Le, Holds, SoundAt, At, Read;
    var code := [0xE9] + Le(target - (r + 5), 4);
    HeldByte(m, r, code, 0);
    ReadHeld(m, r, code, 1, 4);
    assert code[1..5] == Le(target - (r + 5), 4);
    StoreInt32(target - (r + 5));
    SoundTransfers(dec, m, r);
  }

  // ---- the theorem ---------------------------------------------------------

  /** m is memory after relocation: the emitted bytes at the buffer's address, and behind
      them the jump back to the rest of the original code. */
  ghost predicate Planted(m: Memory, j: Job, out: seq<Byte>, size: nat) {
    var back := j.ep + j.size - (j.base + size + 5);
    size <= |out| && Fits32(back) && Holds(m, j.base, out[..size]) && Holds(m, j.base + size, [0xE9] + Le(back, 4))
  }

  /** What the original does from a, with its first action in front. */
  lemma ExecStep(dec: Decoder, mem: Memory, a: int, end: int, acc: Option<int>)
    requires a < end && At(dec, mem, a).len > 0
    ensures var x := ActionAt(dec, mem, a, acc);
      Exec(dec, mem, a, end, acc)
      == if Ends(x) then [x] else [x] + Exec(dec, mem, a + At(dec, mem, a).len, end, AccAfter(x))
  {
  }

  lemma SameStep(x: Action, o: seq<Action>, b: seq<Action>)
    ensures SameMeaning([x] + o, [x] + b) <==> SameMeaning(o, b)
  {
    assert ([x] + o)[1..] == o && ([x] + b)[1..] == b;
  }

  lemma SameLoaded(x: Action, o: seq<Action>, b: seq<Action>)
    requires x.CallTo? || x.JumpTo?
    ensures SameMeaning([x] + o, [SetAcc(x.target), x] + b) <==> SameMeaning(o, b)
  {
    assert ([x] + o)[1..] == o && ([SetAcc(x.target), x] + b)[2..] == b;
  }

  /** A rewritten call or jump, then the rest. */
  lemma TransferRun(dec: Decoder, mem: Memory, a: int, end: int, m: Memory, r: int, stop: int, b1: Byte, target: int,
                    acc: Option<int>)
    requires SoundAt(dec, m, r) && SoundAt(dec, m, r + 10)
    requires IsTransfer(b1) && a < end && At(dec, mem, a).len > 0 && r + 12 < stop
    requires Holds(m, r, Rewritten(b1, target))
    requires ActionAt(dec, mem, a, acc) == if b1 == 0xE8 then CallTo(Wrap64(target)) else JumpTo(Wrap64(target))
    ensures SameMeaning(Exec(dec, mem, a, end, acc), Exec(dec, m, r, stop, acc)) <==>
      b1 != 0xE8 || SameMeaning(Exec(dec, mem, a + At(dec, mem, a).len, end, None), Exec(dec, m, r + 12, stop, None))
  {
    hide SoundAt, At, ActionAt, Exec, Holds, Rewritten, SameMeaning;
    RewrittenActions(dec, b1, target, m, r, acc);
    var t := Wrap64(target);
    ExecStep(dec, mem, a, end, acc);
    ExecStep(dec, m, r, stop, acc);
    ExecStep(dec, m, r + 10, stop, Some(t));
    if b1 == 0xE8 {
      var o, b := Exec(dec, mem, a + At(dec, mem, a).len, end, None), Exec(dec, m, r + 12, stop, None);
      assert Exec(dec, m, r, stop, acc) == [SetAcc(t), CallTo(t)] + b;
      SameLoaded(CallTo(t), o, b);
    } else {
      SameNothing();
      SameLoaded(JumpTo(t), [], []);
      assert [JumpTo(t)] + [] == [JumpTo(t)];
      assert Exec(dec, m, r, stop, acc) == [SetAcc(t), JumpTo(t)] + [];
    }
  }

  lemma SameNothing()
    ensures SameMeaning([], [])
  {
  }

  /** A copied or moved instruction that acts the same, then the rest. */
  lemma CopiedRun(dec: Decoder, mem: Memory, a: int, end: int, m: Memory, r: int, stop: int, acc: Option<int>)
    requires a < end && r < stop && At(dec, mem, a).len > 0 && At(dec, m, r).len == At(dec, mem, a).len
    requires ActionAt(dec, m, r, acc) == ActionAt(dec, mem, a, acc)
    ensures var x := ActionAt(dec, mem, a, acc);
      SameMeaning(Exec(dec, mem, a, end, acc), Exec(dec, m, r, stop, acc)) <==>
      Ends(x) || SameMeaning(Exec(dec, mem, a + At(dec, mem, a).len, end, AccAfter(x)),
                             Exec(dec, m, r + At(dec, mem, a).len, stop, AccAfter(x)))
  {
    hide At, ActionAt, Exec, SameMeaning;
    var x := ActionAt(dec, mem, a, acc);
    ExecStep(dec, mem, a, end, acc);
    ExecStep(dec, m, r, stop, acc);
    if Ends(x) {
      SameNothing();
      SameStep(x, [], []);
      assert [x] + [] == [x];
    } else {
      SameStep(x, Exec(dec, mem, a + At(dec, mem, a).len, end, AccAfter(x)),
               Exec(dec, m, r + At(dec, mem, a).len, stop, AccAfter(x)));
    }
  }

  /** A handled instruction that is not a rewritten transfer acts the same where its piece
      stands. */
  lemma CopiedAction(dec: Decoder, mem: Memory, j: Job, p: Progress, m: Memory, acc: Option<int>)
    requires SoundAt(dec, mem, p.old_) && !p.a16 && Handled(dec, mem, p.old_) && AfterInsn(dec, mem, j, p).Next?
    requires Holds(m, j.base + p.pos, Piece(dec, mem, j, p.old_, j.base + p.pos))
    requires !IsTransfer(mem(p.old_)) && !(mem(p.old_) == 0x67 && IsTransfer(mem(p.old_ + 1)))
    ensures At(dec, m, j.base + p.pos).len == At(dec, mem, p.old_).len > 0
    ensures |Piece(dec, mem, j, p.old_, j.base + p.pos)| == At(dec, mem, p.old_).len
    ensures ActionAt(dec, m, j.base + p.pos, acc) == ActionAt(dec, mem, p.old_, acc)
  {
    hide SoundAt, At, ActionAt, AfterInsn, Holds, Fixup, ParseRip, Read;
    HandledPiece(dec, mem, j, p);
    VerbatimNotRip(dec, mem, p.old_);
    if At(dec, mem, p.old_).operand.RipMem? && mem(p.old_) != 0x67 {
      MovedAction(dec, mem, p.old_, m, j.base + p.pos, acc);
    } else {
      VerbatimAction(dec, mem, p.old_, m, j.base + p.pos, acc);
    }
  }

  predicate StartsTransfer(mem: Memory, a: int) {
    IsTransfer(mem(a)) || (mem(a) == 0x67 && IsTransfer(mem(a + 1)))
  }

  lemma EndsWithJump(dec: Decoder, mem: Memory, a: int, acc: Option<int>)
    requires SoundAt(dec, mem, a)
    ensures Ends(ActionAt(dec, mem, a, acc)) <==> EndsCode(At(dec, mem, a).kind)
  {
    hide SoundAt, At, Read;
    SoundListed(dec, mem, a);
  }

  /** What is known of rax behind the instruction at a, in the original and where it went. */
  function AccBehind(dec: Decoder, mem: Memory, a: int, acc: Option<int>): (r: Option<int>) {
    if StartsTransfer(mem, a) then None else AccAfter(ActionAt(dec, mem, a, acc))
  }

  /** One handled instruction and the piece that replaces it: either both end there, or they
      mean the same if and only if what follows does. */
  lemma HandledStep(dec: Decoder, mem: Memory, j: Job, p: Progress, m: Memory, out: seq<Byte>, size: nat,
                    acc: Option<int>)
    requires InWalk(dec, mem, j, p, 0) && |p.out| >= 100 && |out| == |p.out| && p.old_ < j.ep + j.size
    requires Relocated(dec, mem, j, p) == Done(out, size, j.ep + j.size) && Planted(m, j, out, size)
    requires Handled(dec, mem, p.old_) && SoundCode(dec, m, j.base + p.pos, j.base + size + 5)
    ensures At(dec, mem, p.old_).len > 0 && AfterInsn(dec, mem, j, p).Next?
    ensures var q, stop := AfterInsn(dec, mem, j, p).p, j.base + size + 5;
      && q.old_ == p.old_ + At(dec, mem, p.old_).len && |q.out| == |out| && InWalk(dec, mem, j, q, 0)
      && Relocated(dec, mem, j, q) == Done(out, size, j.ep + j.size)
      && SoundCode(dec, m, j.base + q.pos, stop)
      && var next := AccBehind(dec, mem, p.old_, acc);
        (SameMeaning(Exec(dec, mem, p.old_, j.ep + j.size, acc), Exec(dec, m, j.base + p.pos, stop, acc)) <==>
          EndsCode(At(dec, mem, p.old_).kind)
          || SameMeaning(Exec(dec, mem, q.old_, j.ep + j.size, next), Exec(dec, m, j.base + q.pos, stop, next)))
  {
    hide SoundAt, At, ActionAt, AfterInsn, Holds, Piece, Rewritten, AbsTarget, Exec, Le, Relocated, SameMeaning,
      InWalk, Handled, SoundCode, EndsCode;
    var r, stop := j.base + p.pos, j.base + size + 5;
    SkipInsn(dec, mem, j, p);
    WalkFlag(dec, mem, j, p, 0);
    WalkSound(dec, mem, j, p, 0);
    HandledPiece(dec, mem, j, p);
    NoDoublePrefix(dec, mem, p.old_);
    var q, c := AfterInsn(dec, mem, j, p).p, Piece(dec, mem, j, p.old_, r);
    PieceHeld(dec, mem, j, p, m, out, size, c, q);
    EndsWithJump(dec, mem, p.old_, acc);
    if StartsTransfer(mem, p.old_) {
      TransferCase(dec, mem, j, p, m, stop, acc);
    } else {
      CopiedCase(dec, mem, j, p, m, stop, acc);
    }
  }

  lemma CopiedCase(dec: Decoder, mem: Memory, j: Job, p: Progress, m: Memory, stop: int, acc: Option<int>)
    requires SoundAt(dec, mem, p.old_) && !p.a16 && Handled(dec, mem, p.old_) && AfterInsn(dec, mem, j, p).Next?
    requires Holds(m, j.base + p.pos, Piece(dec, mem, j, p.old_, j.base + p.pos)) && !StartsTransfer(mem, p.old_)
    requires p.old_ < j.ep + j.size && j.base + p.pos < stop && SoundCode(dec, m, j.base + p.pos, stop)
    ensures var n, x, c := At(dec, mem, p.old_).len, ActionAt(dec, mem, p.old_, acc),
      Piece(dec, mem, j, p.old_, j.base + p.pos);
      && SoundCode(dec, m, j.base + p.pos + |c|, stop)
      && (SameMeaning(Exec(dec, mem, p.old_, j.ep + j.size, acc), Exec(dec, m, j.base + p.pos, stop, acc)) <==>
          Ends(x) || SameMeaning(Exec(dec, mem, p.old_ + n, j.ep + j.size, AccAfter(x)),
                                 Exec(dec, m, j.base + p.pos + |c|, stop, AccAfter(x))))
  {
    hide SoundAt, At, ActionAt, AfterInsn, Holds, Piece, Exec, SameMeaning, Handled, Ends, AccAfter;
    CopiedAction(dec, mem, j, p, m, acc);
    CopiedRun(dec, mem, p.old_, j.ep + j.size, m, j.base + p.pos, stop, acc);
  }

  lemma TransferCase(dec: Decoder, mem: Memory, j: Job, p: Progress, m: Memory, stop: int, acc: Option<int>)
    requires SoundAt(dec, mem, p.old_) && Handled(dec, mem, p.old_) && At(dec, mem, p.old_).len > 0
    requires p.old_ < j.ep + j.size
    requires StartsTransfer(mem, p.old_) && SoundCode(dec, m, j.base + p.pos, stop)
    requires var c := Piece(dec, mem, j, p.old_, j.base + p.pos);
      Holds(m, j.base + p.pos, c) && j.base + p.pos + |c| < stop
    ensures var n, x, c := At(dec, mem, p.old_).len, ActionAt(dec, mem, p.old_, acc),
      Piece(dec, mem, j, p.old_, j.base + p.pos);
      && SoundCode(dec, m, j.base + p.pos + |c|, stop)
      && (SameMeaning(Exec(dec, mem, p.old_, j.ep + j.size, acc), Exec(dec, m, j.base + p.pos, stop, acc)) <==>
          Ends(x) || SameMeaning(Exec(dec, mem, p.old_ + n, j.ep + j.size, None),
                                 Exec(dec, m, j.base + p.pos + |c|, stop, None)))
  {
    hide SoundAt, At, ActionAt, Holds, Rewritten, AbsTarget, Exec, SameMeaning, ParseRip, SoundCode;
    var t, r := if mem(p.old_) == 0x67 then p.old_ + 1 else p.old_, j.base + p.pos;
    var target := AbsTarget(mem, t, mem(p.old_) == 0x67);
    TransferAction(dec, mem, p.old_, acc);
    RewrittenSound(dec, mem(t), target, m, r, stop);
    TransferRun(dec, mem, p.old_, j.ep + j.size, m, r, stop, mem(t), target, acc);
  }

  /** Soundness carries over the two instructions of a rewritten transfer. */
  lemma RewrittenSound(dec: Decoder, b1: Byte, target: int, m: Memory, r: int, stop: int)
    requires SoundCode(dec, m, r, stop) && r + 12 < stop && IsTransfer(b1) && Holds(m, r, Rewritten(b1, target))
    ensures SoundAt(dec, m, r) && SoundAt(dec, m, r + 10) && SoundCode(dec, m, r + 12, stop)
  {
    hide SoundAt, At, Holds, Le;
    var code := Rewritten(b1, target);
    LoadDecodes(dec, target, m, r, code);
    HeldByte(m, r, code, 10);
    HeldByte(m, r, code, 11);
    GoDecodes(dec, m, r + 10, b1 == 0xE8);
  }

  /** From any boundary the loop reaches, the code it still emits does what the original
      code from there does. */
  lemma {:induction false} MeaningFrom(dec: Decoder, mem: Memory, j: Job, p: Progress, m: Memory, out: seq<Byte>,
                                       size: nat, acc: Option<int>)
    requires InWalk(dec, mem, j, p, 0) && |p.out| >= 100 && |out| == |p.out|
    requires Relocated(dec, mem, j, p) == Done(out, size, j.ep + j.size) && Planted(m, j, out, size)
    requires ReachedHandled(dec, mem, p.old_, j.ep + j.size) && SoundCode(dec, m, j.base + p.pos, j.base + size + 5)
    ensures SameMeaning(Exec(dec, mem, p.old_, j.ep + j.size, acc),
                        Exec(dec, m, j.base + p.pos, j.base + size + 5, acc))
    decreases j.ep + j.size - p.old_
  {
    hide SoundAt, At, ActionAt, AfterInsn, Exec, Relocated, SameMeaning, InWalk, Handled, Planted, SoundCode, EndsCode;
    if p.old_ >= j.ep + j.size {
      MeaningEnd(dec, mem, j, p, m, out, size, acc);
    } else {
      WalkDecodes(dec, mem, j, p);
      HandledStep(dec, mem, j, p, m, out, size, acc);
      if !EndsCode(At(dec, mem, p.old_).kind) {
        var q := AfterInsn(dec, mem, j, p).p;
        MeaningFrom(dec, mem, j, q, m, out, size, AccBehind(dec, mem, p.old_, acc));
      }
    }
  }

  /** Behind the last instruction stands the jump back. */
  lemma MeaningEnd(dec: Decoder, mem: Memory, j: Job, p: Progress, m: Memory, out: seq<Byte>, size: nat,
                   acc: Option<int>)
    requires InWalk(dec, mem, j, p, 0) && p.old_ >= j.ep + j.size
    requires Relocated(dec, mem, j, p) == Done(out, size, j.ep + j.size) && Planted(m, j, out, size)
    requires SoundCode(dec, m, j.base + p.pos, j.base + size + 5)
    ensures SameMeaning(Exec(dec, mem, p.old_, j.ep + j.size, acc),
                        Exec(dec, m, j.base + p.pos, j.base + size + 5, acc))
  {
    hide SoundAt, At, ActionAt, Holds, Exec, Le, Relocated, SameMeaning, InWalk;
    var end, r, stop := j.ep + j.size, j.base + p.pos, j.base + size + 5;
    WalkEnds(dec, mem, j, p, 0);
    RelocatedEnd(dec, mem, j, p);
    JumpBack(dec, m, r, end, acc);
    ExecStep(dec, m, r, stop, acc);
    ExecEnd(dec, mem, p.old_, end, acc);
    SameNothing();
    SameStep(JumpTo(Wrap64(end)), [], []);
    assert [JumpTo(Wrap64(end))] + [] == [JumpTo(Wrap64(end))];
  }

  lemma NoDoublePrefix(dec: Decoder, mem: Memory, a: int)
    requires Handled(dec, mem, a)
    ensures mem(a + 1) != 0x67 || mem(a) != 0x67
  {
  }

  lemma WalkDecodes(dec: Decoder, mem: Memory, j: Job, p: Progress)
    requires InWalk(dec, mem, j, p, 0) && p.old_ < j.ep + j.size
    ensures At(dec, mem, p.old_).len > 0
    ensures ReachedHandled(dec, mem, p.old_, j.ep + j.size) <==>
      && Handled(dec, mem, p.old_)
      && (EndsCode(At(dec, mem, p.old_).kind)
         || ReachedHandled(dec, mem, p.old_ + At(dec, mem, p.old_).len, j.ep + j.size))
  {
    hide SoundAt, At, Handled;
    WalkAt(dec, mem, j, p, 0);
  }

  lemma RelocatedEnd(dec: Decoder, mem: Memory, j: Job, p: Progress)
    requires p.old_ >= j.ep + j.size
    ensures Relocated(dec, mem, j, p) == Done(p.out, p.pos, p.old_)
  {
  }

  lemma ExecEnd(dec: Decoder, mem: Memory, a: int, end: int, acc: Option<int>)
    requires a >= end
    ensures Exec(dec, mem, a, end, acc) == [JumpTo(Wrap64(a))]
  {
  }

  /** Running the relocated entry point and the jump behind it has the same effects, in the
      same order and at the same addresses, and goes on at the same address as running the
      original EntrySize bytes; only rax may be loaded with the target of a direct call or
      jump before that transfer. */
  lemma RelocationPreservesMeaning(dec: Decoder, mem: Memory, j: Job, buffer: seq<Byte>, out: seq<Byte>, size: nat,
                                   m: Memory)
    requires SoundCode(dec, mem, j.ep, j.ep + j.size) && IsEntrySize(dec, mem, j) && |buffer| >= 100
    requires ReachedHandled(dec, mem, j.ep, j.ep + j.size)
    requires Relocated(dec, mem, j, Start(j, buffer)) == Done(out, size, j.ep + j.size) && Planted(m, j, out, size)
    requires SoundCode(dec, m, j.base, j.base + size + 5)
    ensures SameMeaning(Exec(dec, mem, j.ep, j.ep + j.size, None), Exec(dec, m, j.base, j.base + size + 5, None))
  {
    hide SoundCode, IsEntrySize, InWalk, Relocated, ReachedHandled, Planted, Exec, SameMeaning;
    WalkStarts(dec, mem, j, buffer);
    RelocationFits(dec, mem, j, Start(j, buffer), 0);
    MeaningFrom(dec, mem, j, Start(j, buffer), m, out, size, None);
  }

  /** Memory with code written from address r on. */
  function Overlay(mem: Memory, r: int, code: seq<Byte>): (res: Memory) {
    (a: int) => if r <= a < r + |code| then code[a - r] else mem(a)
  }

  /** Whatever was relocated can be planted, as long as the jump back reaches. */
  lemma CanBePlanted(mem: Memory, j: Job, out: seq<Byte>, size: nat)
    requires size <= |out| && Fits32(j.ep + j.size - (j.base + size + 5))
    ensures Planted(Overlay(mem, j.base, out[..size] + ([0xE9] + Le(j.ep + j.size - (j.base + size + 5), 4))), j, out,
                    size)
  {
  }

  /** An entry point that starts with a call, followed by one-byte instructions. */
  function CallEntry(a: int): (r: Byte) {
    if a == 0x1_0000 then 0xE8 else if 0x1_0000 < a < 0x1_0005 then 1 else 0x90
  }

  /** The theorem speaks of real runs: a call at the entry point is relocated. */
  lemma CallIsRelocated(buffer: seq<Byte>) returns (j: Job, out: seq<Byte>, size: nat, m: Memory)
    requires |buffer| >= 100
    ensures SoundCode(SmallDecoder, CallEntry, j.ep, j.ep + j.size) && IsEntrySize(SmallDecoder, CallEntry, j)
    ensures ReachedHandled(SmallDecoder, CallEntry, j.ep, j.ep + j.size)
    ensures Relocated(SmallDecoder, CallEntry, j, Start(j, buffer)) == Done(out, size, j.ep + j.size)
    ensures Planted(m, j, out, size) && SoundCode(SmallDecoder, m, j.base, j.base + size + 5)
  {
    hide SoundCode;
    j := Job(0x1_0000, 5, 0x2_0000);
    SmallSound(CallEntry, j.ep, j.ep + j.size);
    CallDecodes(j);
    CallStep(j, buffer);
    out, size := Splice(buffer, 0, Rewritten(0xE8, AbsTarget(CallEntry, j.ep, false))), 12;
    hide SmallDecoder, Rewritten, AbsTarget, Planted, Overlay, Relocated, ReachedHandled, IsEntrySize;
    CanBePlanted(CallEntry, j, out, size);
    m := Overlay(CallEntry, j.base, out[..size] + ([0xE9] + Le(j.ep + j.size - (j.base + size + 5), 4)));
    SmallSound(m, j.base, j.base + size + 5);
  }

  lemma CallDecodes(j: Job)
    requires j == Job(0x1_0000, 5, 0x2_0000)
    ensures At(SmallDecoder, CallEntry, j.ep).len == 5 && IsEntrySize(SmallDecoder, CallEntry, j)
    ensures ReachedHandled(SmallDecoder, CallEntry, j.ep, j.ep + j.size)
  {
    var w := Read(CallEntry, j.ep, 32);
    assert w[0] == CallEntry(j.ep + 0);
    assert At(SmallDecoder, CallEntry, j.ep).len == 5;
    hide SmallDecoder, At;
    assert Round(SmallDecoder, CallEntry, j.ep + 5, 0) == Some(0);
    assert Handled(SmallDecoder, CallEntry, j.ep);
    assert ReachedHandled(SmallDecoder, CallEntry, j.ep + 5, j.ep + 5);
  }

  lemma CallStep(j: Job, buffer: seq<Byte>)
    requires j == Job(0x1_0000, 5, 0x2_0000) && |buffer| >= 100 && At(SmallDecoder, CallEntry, j.ep).len == 5
    ensures var out := Splice(buffer, 0, Rewritten(0xE8, AbsTarget(CallEntry, j.ep, false)));
      Relocated(SmallDecoder, CallEntry, j, Start(j, buffer)) == Done(out, 12, j.ep + 5)
  {
    var field := Read(CallEntry, j.ep + 1, 4);
    assert field == [1, 1, 1, 1];
    assert UInt([1, 1, 1, 1]) == 0x101_0101;
    hide SmallDecoder, At, Rewritten;
    var q := Progress(j.ep + 5, false, Splice(buffer, 0, Rewritten(0xE8, AbsTarget(CallEntry, j.ep, false))), 12);
    assert Iterate(SmallDecoder, CallEntry, j, Start(j, buffer)) == Next(q);
    assert Relocated(SmallDecoder, CallEntry, j, q) == Done(q.out, q.pos, q.old_);
  }
}
