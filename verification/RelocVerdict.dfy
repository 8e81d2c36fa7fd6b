/** Which entry points are refused and which are moved: the outcome of the relocation loop, told
    instruction by instruction from the machine code. */
module RelocVerdict {
  import opened Bytes
  import opened Wrappers
  import opened X64
  import opened Reloc

  /** The opcode of the instruction at a: the first byte that is no address-size prefix. */
  function Opcode(mem: Memory, a: int, end: int): (o: int)
    ensures o >= a
    decreases end - a
  {
    if a < end && mem(a) == 0x67 then Opcode(mem, a + 1, end) else a
  }

  /** jcc with an 8-bit or a 32-bit displacement, or jrcxz. */
  predicate Conditional(b1: Byte, b2: Byte) {
    b1 == 0xE3 || 0x70 <= b1 <= 0x7F || (b1 == 0x0F && 0x80 <= b2 <= 0x8F)
  }

  /** Call, jump and short jump. */
  predicate Direct(b1: Byte) { b1 in [0xE8, 0xE9, 0xEB] }

  /** Where the direct transfer with its opcode at o is taken to lead: behind an address-size
      prefix the displacement of E8 and E9 is read as 16 bits. */
  function Aim(mem: Memory, o: int, prefixed: bool): (t: int) {
    if mem(o) == 0xEB then o + 2 + Int8(mem(o + 1))
    else if prefixed then o + 3 + Signed(UInt(Read(mem, o + 1, 2)), 0x8000)
    else o + 5 + Int32(Read(mem, o + 1, 4))
  }

  /** A rip-relative operand that the listing shows with a displacement. */
  predicate RipShown(i: Insn) { i.operand.RipMem? && i.operand.seg == "" && i.operand.disp != 0 }

  /** Some other four bytes of the instruction at o look like its displacement. */
  ghost predicate Ambiguous(dec: Decoder, mem: Memory, o: int) {
    var i := At(dec, mem, o);
    i.kind.RipRel? && exists p :: 1 <= p <= i.len - 4 && p != i.kind.at && Field(mem, o, p) == Field(mem, o, i.kind.at)
  }

  /** Why the instruction at a, with its opcode at o, cannot be moved to address r. */
  ghost function Obstacle(dec: Decoder, mem: Memory, j: Job, a: int, o: int, r: int): (x: Option<Status>) {
    var i := At(dec, mem, o);
    if Conditional(mem(o), mem(o + 1)) then Some(NotSupported)
    else if Direct(mem(o)) then
      if j.ep <= Aim(mem, o, a < o) < j.ep + j.size then Some(NotSupported) else None
    else if !RipShown(i) then None
    else if Ambiguous(dec, mem, o) then Some(InternalError)
    else if !(-0x8000_0000 <= i.operand.disp - (r - o) < 0x8000_0000) then Some(NotSupported)
    else None
  }

  /** How many bytes take the place of the instruction at a; of several prefixes one is kept. */
  function Emitted(dec: Decoder, mem: Memory, a: int, o: int): (n: int) {
    if Direct(mem(o)) then 12 else At(dec, mem, a).len - if a < o then o - a - 1 else 0
  }

  /** The first obstacle from the instruction at a on, when `pos` bytes have been emitted. */
  ghost function Verdict(dec: Decoder, mem: Memory, j: Job, a: int, pos: int): (x: Option<Status>)
    decreases j.ep + j.size - a
  {
    if a >= j.ep + j.size || At(dec, mem, a).len == 0 then None
    else
      var o := Opcode(mem, a, j.ep + j.size);
      var x := Obstacle(dec, mem, j, a, o, j.base + pos);
      if x.Some? then x else Verdict(dec, mem, j, a + At(dec, mem, a).len, pos + Emitted(dec, mem, a, o))
  }

  // ---- one instruction -----------------------------------------------------

  lemma {:induction false} OpcodeIs(mem: Memory, a: int, o: int, end: int)
    requires a <= o <= end && (forall t :: a <= t < o ==> mem(t) == 0x67) && (o < end ==> mem(o) != 0x67)
    ensures Opcode(mem, a, end) == o
    decreases o - a
  {
    if a < o { OpcodeIs(mem, a + 1, o, end); }
  }

  lemma AimIs(mem: Memory, o: int, prefixed: bool)
    requires Direct(mem(o))
    ensures IsTransfer(mem(o)) && AbsTarget(mem, o, prefixed) == Aim(mem, o, prefixed)
  {
  }

  lemma ShownField(dec: Decoder, mem: Memory, o: int)
    requires SoundAt(dec, mem, o) && RipShown(At(dec, mem, o))
    ensures var i := At(dec, mem, o);
      i.kind.RipRel? && 1 <= i.kind.at <= i.len - 4 && Field(mem, o, i.kind.at) == i.operand.disp
  {
    hide SoundAt, At, Int32;
    SoundListed(dec, mem, o);
    var i := At(dec, mem, o);
    SubRead(mem, o, i.kind.at, 4);
  }

  /** What moving a rip-relative instruction runs into. */
  lemma FixupObstacle(dec: Decoder, mem: Memory, j: Job, a: int, o: int, r: int)
    requires SoundAt(dec, mem, o) && !Conditional(mem(o), mem(o + 1)) && !Direct(mem(o))
    ensures var x, y := Fixup(dec, mem, o, r), Obstacle(dec, mem, j, a, o, r);
      if x.Failed? then y == Some(x.status) else y.None?
  {
    hide SoundAt, At, Field, ParseRip, Text, Fixup, Splice, Le, Read;
    var i := At(dec, mem, o);
    ListingParses(dec, mem, o);
    FixupIs(dec, mem, o, r);
    if RipShown(i) {
      ShownField(dec, mem, o);
      assert Ambiguous(dec, mem, o) ==> forall p :: !OnlyField(mem, o, i.len, i.operand.disp, p) by {
        if Ambiguous(dec, mem, o) {
          var p :| 1 <= p <= i.len - 4 && p != i.kind.at && Field(mem, o, p) == Field(mem, o, i.kind.at);
        }
      }
      assert !Ambiguous(dec, mem, o) ==> OnlyField(mem, o, i.len, i.operand.disp, i.kind.at);
    }
  }

  /** One iteration at an opcode: it stops with the instruction's obstacle, or goes on behind the
      instruction. */
  lemma IterateVerdict(dec: Decoder, mem: Memory, j: Job, p: Progress, k: nat)
    requires InWalk(dec, mem, j, p, k) && p.old_ < j.ep + j.size && |p.out| >= 100 && mem(p.old_) != 0x67
    ensures var a := p.old_ - k;
      var x, y := Iterate(dec, mem, j, p), Obstacle(dec, mem, j, a, p.old_, j.base + p.pos);
      && At(dec, mem, a).len > 0 && Opcode(mem, a, j.ep + j.size) == p.old_
      && (y.Some? ==> x == Stop(y.value))
      && (y.None? ==>
           && x.Next? && !x.p.a16 && x.p.old_ == a + At(dec, mem, a).len
           && x.p.pos == p.pos + Emitted(dec, mem, a, p.old_))
  {
    hide SoundAt, SoundCode, At, Splice, Rewritten, AbsTarget, Fixup, Obstacle, Aim, Round;
    var a, start := p.old_ - k, if p.a16 then p.old_ - 1 else p.old_;
    OpcodeIs(mem, a, p.old_, j.ep + j.size);
    WalkAt(dec, mem, j, p, k);
    WalkPos(dec, mem, j, p, k);
    WalkSound(dec, mem, j, p, k);
    TransferLen(dec, mem, start);
    TransferLen(dec, mem, p.old_);
    ObstacleCases(dec, mem, j, a, p.old_, j.base + p.pos);
    hide InWalk;
    if !Conditional(mem(p.old_), mem(p.old_ + 1)) {
      if Direct(mem(p.old_)) {
        AimIs(mem, p.old_, p.a16);
      } else {
        FixupObstacle(dec, mem, j, a, p.old_, j.base + p.pos);
      }
    }
  }

  lemma ObstacleCases(dec: Decoder, mem: Memory, j: Job, a: int, o: int, r: int)
    ensures var x := Obstacle(dec, mem, j, a, o, r);
      && (Conditional(mem(o), mem(o + 1)) ==> x == Some(NotSupported))
      && (!Conditional(mem(o), mem(o + 1)) && Direct(mem(o)) ==>
           x == (if j.ep <= Aim(mem, o, a < o) < j.ep + j.size then Some(NotSupported) else None))
  {
  }

  // ---- the whole loop ------------------------------------------------------

  lemma {:induction false} VerdictIs(dec: Decoder, mem: Memory, j: Job, p: Progress, k: nat)
    requires InWalk(dec, mem, j, p, k) && |p.out| >= 100
    ensures var x, y := Relocated(dec, mem, j, p), Verdict(dec, mem, j, p.old_ - k, p.pos);
      if x.Stopped? then y == Some(x.status) else y.None?
    decreases j.ep + j.size - p.old_, p.a16
  {
    hide Iterate, InWalk, At, Obstacle, Emitted;
    if p.old_ >= j.ep + j.size {
      WalkEnds(dec, mem, j, p, k);
    } else {
      WalkStep(dec, mem, j, p, k);
      WalkBehind(dec, mem, j, p, k);
      IterateAdvances(dec, mem, j, p);
      if mem(p.old_) == 0x67 {
        PrefixIterate(dec, mem, j, p);
        VerdictIs(dec, mem, j, p.(old_ := p.old_ + 1, a16 := true), k + 1);
      } else {
        IterateVerdict(dec, mem, j, p, k);
        var x := Iterate(dec, mem, j, p);
        if x.Next? {
          VerdictIs(dec, mem, j, x.p, 0);
        }
      }
    }
  }

  lemma WalkBehind(dec: Decoder, mem: Memory, j: Job, p: Progress, k: nat)
    requires InWalk(dec, mem, j, p, k) && p.old_ < j.ep + j.size
    ensures j.ep <= p.old_ - k < j.ep + j.size
  {
  }

  /** An entry point is refused if and only if one of its instructions has an obstacle, and with
      the status of the first such one. */
  lemma RefusedIff(dec: Decoder, mem: Memory, j: Job, buffer: seq<Byte>)
    requires SoundCode(dec, mem, j.ep, j.ep + j.size) && IsEntrySize(dec, mem, j) && |buffer| >= 100
    ensures match Relocated(dec, mem, j, Start(j, buffer))
      case Done(_, _, _) => Verdict(dec, mem, j, j.ep, 0).None?
      case Stopped(s) => Verdict(dec, mem, j, j.ep, 0) == Some(s)
  {
    hide InWalk, Relocated, Verdict, SoundCode, IsEntrySize;
    WalkStarts(dec, mem, j, buffer);
    VerdictIs(dec, mem, j, Start(j, buffer), 0);
  }

  // ---- in terms of the instructions ----------------------------------------

  lemma {:induction false} NoObstacle(dec: Decoder, mem: Memory, j: Job, a: int, pos: int, k: int) returns (r: int)
    requires Verdict(dec, mem, j, a, pos).None? && Boundary(dec, mem, a, k) && a + k < j.ep + j.size
    requires At(dec, mem, a + k).len > 0
    ensures Obstacle(dec, mem, j, a + k, Opcode(mem, a + k, j.ep + j.size), r).None?
    decreases k
  {
    hide At, Obstacle, Emitted, Opcode;
    if k <= 0 {
      r := j.base + pos;
    } else {
      var n := At(dec, mem, a).len;
      r := NoObstacle(dec, mem, j, a + n,
                      pos + Emitted(dec, mem, a, Opcode(mem, a, j.ep + j.size)), k - n);
    }
  }

  /** No conditional jump but LOOP (E0 to E2) is ever moved: no instruction of a relocated entry
      point starts with 70 to 7F, with E3 or with 0F 80 to 0F 8F, with address-size prefixes in
      front or without. */
  lemma NoBranchIsMoved(dec: Decoder, mem: Memory, j: Job, buffer: seq<Byte>, k: int, c: nat)
    requires SoundCode(dec, mem, j.ep, j.ep + j.size) && IsEntrySize(dec, mem, j) && |buffer| >= 100
    requires Relocated(dec, mem, j, Start(j, buffer)).Done?
    requires Boundary(dec, mem, j.ep, k) && 0 <= k && k + c < j.size && At(dec, mem, j.ep + k).len > 0
    requires forall t :: j.ep + k <= t < j.ep + k + c ==> mem(t) == 0x67
    ensures var b1, b2 := mem(j.ep + k + c), mem(j.ep + k + c + 1);
      && !(0x70 <= b1 <= 0x7F) && b1 != 0xE3 && !(b1 == 0x0F && 0x80 <= b2 <= 0x8F)
  {
    hide At, Boundary, Verdict, Relocated, SoundCode, IsEntrySize;
    RefusedIff(dec, mem, j, buffer);
    var a := j.ep + k;
    var r := NoObstacle(dec, mem, j, j.ep, 0, k);
    if mem(a + c) != 0x67 {
      OpcodeIs(mem, a, a + c, j.ep + j.size);
      ObstacleCases(dec, mem, j, a, a + c, r);
    }
  }

  /** Nothing is in the way of the instruction at a, wherever in the buffer it goes. */
  ghost predicate Unobstructed(dec: Decoder, mem: Memory, j: Job, a: int) {
    var o := Opcode(mem, a, j.ep + j.size);
    var i := At(dec, mem, o);
    && !Conditional(mem(o), mem(o + 1))
    && (Direct(mem(o)) ==> !(j.ep <= Aim(mem, o, a < o) < j.ep + j.size))
    && (!Direct(mem(o)) && RipShown(i) ==>
         !Ambiguous(dec, mem, o)
         && -0x8000_0000 <= i.operand.disp - (j.base + 24 - o) && i.operand.disp - (j.base - o) < 0x8000_0000)
  }

  /** An instruction of the walk with all its prefixes. */
  lemma {:induction false} OpcodeWalk(dec: Decoder, mem: Memory, j: Job, p: Progress, k: nat)
    requires InWalk(dec, mem, j, p, k) && p.old_ < j.ep + j.size
    ensures var o := Opcode(mem, p.old_, j.ep + j.size);
      && o < j.ep + j.size && mem(o) != 0x67
      && InWalk(dec, mem, j, p.(old_ := o, a16 := o > p.old_ || p.a16), k + o - p.old_)
    decreases j.ep + j.size - p.old_
  {
    hide InWalk;
    if mem(p.old_) == 0x67 {
      WalkPrefix(dec, mem, j, p, k);
      var q := p.(old_ := p.old_ + 1, a16 := true);
      if q.old_ >= j.ep + j.size {
        WalkEnds(dec, mem, j, q, k + 1);
      } else {
        OpcodeWalk(dec, mem, j, q, k + 1);
      }
    }
  }

  /** An unobstructed instruction is passed, and the walk goes on. */
  lemma PassedOn(dec: Decoder, mem: Memory, j: Job, p: Progress) returns (q: Progress)
    requires InWalk(dec, mem, j, p, 0) && p.old_ < j.ep + j.size && |p.out| >= 100
    requires Unobstructed(dec, mem, j, p.old_)
    ensures var a, o := p.old_, Opcode(mem, p.old_, j.ep + j.size);
      && At(dec, mem, a).len > 0 && Obstacle(dec, mem, j, a, o, j.base + p.pos).None?
      && InWalk(dec, mem, j, q, 0) && |q.out| >= 100
      && q.old_ == a + At(dec, mem, a).len && q.pos == p.pos + Emitted(dec, mem, a, o)
  {
    hide InWalk, At, Iterate, Opcode, Conditional, Direct, Aim, Emitted, Ambiguous;
    OpcodeWalk(dec, mem, j, p, 0);
    var o := Opcode(mem, p.old_, j.ep + j.size);
    var u := p.(old_ := o, a16 := o > p.old_ || p.a16);
    WalkPos(dec, mem, j, p, 0);
    IterateVerdict(dec, mem, j, u, o - p.old_);
    WalkStep(dec, mem, j, u, o - p.old_);
    q := Iterate(dec, mem, j, u).p;
  }

  lemma {:induction false} UnobstructedPasses(dec: Decoder, mem: Memory, j: Job, p: Progress)
    requires InWalk(dec, mem, j, p, 0) && |p.out| >= 100
    requires forall k :: Boundary(dec, mem, p.old_, k) && p.old_ + k < j.ep + j.size ==>
      Unobstructed(dec, mem, j, p.old_ + k)
    ensures Verdict(dec, mem, j, p.old_, p.pos).None?
    decreases j.ep + j.size - p.old_
  {
    hide InWalk, At, Unobstructed, Emitted, Obstacle, Opcode;
    if p.old_ < j.ep + j.size {
      assert Boundary(dec, mem, p.old_, 0);
      assert Unobstructed(dec, mem, j, p.old_ + 0);
      var q := PassedOn(dec, mem, j, p);
      var n := At(dec, mem, p.old_).len;
      forall k | Boundary(dec, mem, q.old_, k) && q.old_ + k < j.ep + j.size
        ensures Unobstructed(dec, mem, j, q.old_ + k)
      {
        BoundaryAdds(dec, mem, p.old_, k);
        assert Boundary(dec, mem, p.old_, n + k);
        assert p.old_ + (n + k) == q.old_ + k;
      }
      UnobstructedPasses(dec, mem, j, q);
    }
  }

  lemma BoundaryAdds(dec: Decoder, mem: Memory, a: int, k: int)
    requires At(dec, mem, a).len > 0 && Boundary(dec, mem, a + At(dec, mem, a).len, k)
    ensures Boundary(dec, mem, a, At(dec, mem, a).len + k)
  {
    if k < 0 { assert false; }
  }

  /** And every entry point is moved that holds no such jump, no transfer into itself, no rip
      displacement that stands in its instruction twice, and none that is out of reach. */
  lemma UnobstructedIsMoved(dec: Decoder, mem: Memory, j: Job, buffer: seq<Byte>)
    requires SoundCode(dec, mem, j.ep, j.ep + j.size) && IsEntrySize(dec, mem, j) && |buffer| >= 100
    requires forall k :: Boundary(dec, mem, j.ep, k) && j.ep + k < j.ep + j.size ==> Unobstructed(dec, mem, j, j.ep + k)
    ensures Relocated(dec, mem, j, Start(j, buffer)).Done?
  {
    hide InWalk, Relocated, Verdict, SoundCode, IsEntrySize, Unobstructed, Boundary;
    WalkStarts(dec, mem, j, buffer);
    UnobstructedPasses(dec, mem, j, Start(j, buffer));
    RefusedIff(dec, mem, j, buffer);
  }
}
