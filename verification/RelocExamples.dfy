/** Entry points that relocation accepts and changes, one for every kind of instruction it
    does not handle; and one where such an instruction does no harm. */
module RelocExamples {
  import opened Bytes
  import opened RtlString
  import opened Wrappers
  import opened X64
  import opened Reloc
  import opened RelocMeaning
  import opened RelocLimits

  const EP: int := 0x1_0000
  const BASE: int := 0x2_0000

  /** Memory with code at the entry point, and one-byte instructions everywhere else. */
  function Entry(code: seq<Byte>): (r: Memory) {
    (a: int) => if EP <= a < EP + |code| then code[a - EP] else 0x90
  }

  lemma EntryByte(code: seq<Byte>, i: nat)
    requires i < 32
    ensures Read(Entry(code), EP, 32)[i] == Entry(code)(EP + i) == if i < |code| then code[i] else 0x90
  {
  }

  /** What an example shows: relocation succeeds, and the result does something else. */
  ghost predicate Changed(mem: Memory, j: Job, buffer: seq<Byte>, out: seq<Byte>, size: nat, m: Memory) {
    && Relocated(SmallDecoder, mem, j, Start(j, buffer)) == Done(out, size, j.ep + j.size) && Planted(m, j, out, size)
    && !SameMeaning(Exec(SmallDecoder, mem, j.ep, j.ep + j.size, None),
                    Exec(SmallDecoder, m, j.base, j.base + size + 5, None))
  }

  lemma FirstUnhandled(mem: Memory, j: Job, buffer: seq<Byte>, out: seq<Byte>, size: nat) returns (m: Memory)
    requires j.ep == EP && j.base == BASE && 5 <= j.size < 20 && |buffer| == |out| >= 100 && size <= 39
    requires IsEntrySize(SmallDecoder, mem, j) && ReachedSingle(SmallDecoder, mem, EP, EP + j.size)
    requires Relocated(SmallDecoder, mem, j, Start(j, buffer)) == Done(out, size, EP + j.size)
    requires At(SmallDecoder, mem, EP).len > 0 && !Handled(SmallDecoder, mem, EP)
    ensures Changed(mem, j, buffer, out, size, m)
  {
    hide SoundCode, At, IsEntrySize, ReachedSingle, Relocated, Handled, SameMeaning, Exec, Planted, Overlay, Le;
    CanBePlanted(mem, j, out, size);
    m := Overlay(mem, j.base, out[..size] + ([0xE9] + Le(j.ep + j.size - (j.base + size + 5), 4)));
    SmallSound(mem, EP, EP + j.size);
    SmallSound(m, BASE, BASE + size + 5);
    MeaningKeptIffHandled(SmallDecoder, mem, j, buffer, out, size, m);
  }

  /** mov eax, [rip+0]: the displacement is not printed, so it is not adjusted. */
  lemma ZeroDisplacement(buffer: seq<Byte>) returns (j: Job, out: seq<Byte>, size: nat, m: Memory)
    requires |buffer| >= 100
    ensures Changed(Entry([0x8B, 0x05, 0, 0, 0, 0]), j, buffer, out, size, m)
  {
    var mem := Entry([0x8B, 0x05, 0, 0, 0, 0]);
    j := Job(EP, 6, BASE);
    ZeroDecodes(mem);
    NotListed(mem, EP, BASE);
    hide SmallDecoder, Entry, Fixup, ParseRip, Splice, Read;
    OneCopy(mem, j, buffer);
    out, size := Splice(buffer, 0, Read(mem, EP, 6)), 6;
    m := FirstUnhandled(mem, j, buffer, out, size);
  }

  lemma ZeroDecodes(mem: Memory)
    requires mem == Entry([0x8B, 0x05, 0, 0, 0, 0])
    ensures var i := At(SmallDecoder, mem, EP);
      i == Insn(6, RipRel(2, false), "mov eax, ", RipMem("", 0), "") && mem(EP) == 0x8B && mem(EP + 1) == 5
  {
    var code: seq<Byte> := [0x8B, 0x05, 0, 0, 0, 0];
    var w := Read(mem, EP, 32);
    EntryByte(code, 0);
    EntryByte(code, 1);
    EntryByte(code, 2);
    EntryByte(code, 3);
    EntryByte(code, 4);
    EntryByte(code, 5);
    assert w[2..6] == [0, 0, 0, 0];
    assert UInt([0, 0, 0, 0]) == 0;
  }

  lemma NotListed(mem: Memory, a: int, r: int)
    requires var o := At(SmallDecoder, mem, a).operand; o == RipMem("", 0) || o == NoMem
    ensures Fixup(SmallDecoder, mem, a, r).NotRipRel?
  {
    hide SmallDecoder, At, Read, ParseRip, Text, SoundWindow;
    SoundDecoderExists(Read(mem, a, 32));
    ListingParses(SmallDecoder, mem, a);
    FixupIs(SmallDecoder, mem, a, r);
  }

  /** An entry point of one instruction, copied unchanged. */
  lemma OneCopy(mem: Memory, j: Job, buffer: seq<Byte>)
    requires var n := At(SmallDecoder, mem, EP).len; j == Job(EP, n, BASE) && 5 <= n <= 15 && |buffer| >= 100
    requires mem(EP) != 0x67 && !IsTransfer(mem(EP)) && !IsRejected(mem(EP), mem(EP + 1))
    requires Fixup(SmallDecoder, mem, EP, BASE).NotRipRel?
    ensures IsEntrySize(SmallDecoder, mem, j) && ReachedSingle(SmallDecoder, mem, EP, EP + j.size)
    ensures Relocated(SmallDecoder, mem, j, Start(j, buffer))
      == Done(Splice(buffer, 0, Read(mem, EP, j.size)), j.size, EP + j.size)
  {
    hide At, Fixup, Read, Splice;
    var n: int := At(SmallDecoder, mem, EP).len;
    assert Round(SmallDecoder, mem, EP + n, 5 - n) == Some(0);
    assert ReachedSingle(SmallDecoder, mem, EP + n, EP + n);
    var q := Progress(EP + n, false, Splice(buffer, 0, Read(mem, EP, n)), n);
    assert Iterate(SmallDecoder, mem, j, Start(j, buffer)) == Next(q);
    assert Relocated(SmallDecoder, mem, j, q) == Done(q.out, q.pos, q.old_);
  }

  /** loop +0x10, then a jump: the branch is copied with its displacement. */
  lemma LoopCopied(buffer: seq<Byte>) returns (j: Job, out: seq<Byte>, size: nat, m: Memory)
    requires |buffer| >= 100
    ensures Changed(Entry([0xE2, 0x10, 0xE9, 1, 1, 1, 1]), j, buffer, out, size, m)
  {
    var mem := Entry([0xE2, 0x10, 0xE9, 1, 1, 1, 1]);
    j := Job(EP, 7, BASE);
    LoopDecodes(mem);
    hide Entry, SmallDecoder, Splice, Read, Rewritten;
    var first := Splice(buffer, 0, Read(mem, EP, 2));
    out, size := Splice(first, 2, Rewritten(0xE9, EP + 7 + 0x101_0101)), 14;
    LoopRelocated(mem, j, buffer, first, out);
    m := FirstUnhandled(mem, j, buffer, out, size);
  }

  ghost predicate LoopCode(mem: Memory) {
    var i, k := At(SmallDecoder, mem, EP), At(SmallDecoder, mem, EP + 2);
    && mem(EP) == 0xE2 && mem(EP + 1) == 0x10 && mem(EP + 2) == 0xE9 && Int32(Read(mem, EP + 3, 4)) == 0x101_0101
    && i.len == 2 && i.kind == Branch(0x10) && i.operand == NoMem && k.len == 5 && k.kind == Jump(0x101_0101)
  }

  lemma LoopDecodes(mem: Memory)
    requires mem == Entry([0xE2, 0x10, 0xE9, 1, 1, 1, 1])
    ensures LoopCode(mem)
  {
    var w, v, f := Read(mem, EP, 32), Read(mem, EP + 2, 32), Read(mem, EP + 3, 4);
    assert w[0] == 0xE2 && w[1] == 0x10 && v[0] == 0xE9;
    assert v[1..5] == [1, 1, 1, 1] && f == [1, 1, 1, 1];
    assert UInt([1, 1, 1, 1]) == 0x101_0101;
  }

  lemma LoopRelocated(mem: Memory, j: Job, buffer: seq<Byte>, first: seq<Byte>, out: seq<Byte>)
    requires LoopCode(mem) && j == Job(EP, 7, BASE) && |buffer| >= 100
    requires first == Splice(buffer, 0, Read(mem, EP, 2))
    requires out == Splice(first, 2, Rewritten(0xE9, EP + 7 + 0x101_0101))
    ensures IsEntrySize(SmallDecoder, mem, j) && ReachedSingle(SmallDecoder, mem, EP, EP + j.size)
    ensures Relocated(SmallDecoder, mem, j, Start(j, buffer)) == Done(out, 14, EP + j.size)
    ensures At(SmallDecoder, mem, EP).len > 0 && !Handled(SmallDecoder, mem, EP)
  {
    hide SmallDecoder, At, Read, Splice, Rewritten, ParseRip, Text, Int32, Fixup;
    NotListed(mem, EP, BASE);
    assert Round(SmallDecoder, mem, EP + 7, -2) == Some(0);
    assert Round(SmallDecoder, mem, EP + 2, 3) == Some(5);
    var q, r := Progress(EP + 2, false, first, 2), Progress(EP + 7, false, out, 14);
    assert Iterate(SmallDecoder, mem, j, Start(j, buffer)) == Next(q);
    assert Iterate(SmallDecoder, mem, j, q) == Next(r);
    hide Iterate;
    assert Relocated(SmallDecoder, mem, j, r) == Done(out, 14, r.old_);
    assert Relocated(SmallDecoder, mem, j, q) == Done(out, 14, r.old_);
  }

  /** A call behind an address-size prefix: its displacement is read as 16 bits. */
  lemma PrefixedCall(buffer: seq<Byte>) returns (j: Job, out: seq<Byte>, size: nat, m: Memory)
    requires |buffer| >= 100
    ensures Changed(Entry([0x67, 0xE8, 1, 1, 1, 1]), j, buffer, out, size, m)
  {
    var mem := Entry([0x67, 0xE8, 1, 1, 1, 1]);
    j := Job(EP, 6, BASE);
    out, size := Splice(buffer, 0, Rewritten(0xE8, EP + 4 + 0x101)), 12;
    PrefixedCallRelocated(mem, j, buffer, out);
    m := FirstUnhandled(mem, j, buffer, out, size);
  }

  lemma PrefixedCallDecodes(mem: Memory)
    requires mem == Entry([0x67, 0xE8, 1, 1, 1, 1])
    ensures At(SmallDecoder, mem, EP) == Insn(6, Call(0x101_0101), "call", NoMem, "") && mem(EP) == 0x67
    ensures mem(EP + 1) == 0xE8
    ensures Int16(Read(mem, EP + 2, 2)) == 0x101
  {
    var w, f := Read(mem, EP, 32), Read(mem, EP + 2, 2);
    assert w[0] == 0x67 && w[1] == 0xE8 && w[2..6] == [1, 1, 1, 1] && f == [1, 1];
    assert UInt([1, 1, 1, 1]) == 0x101_0101 && UInt([1, 1]) == 0x101;
  }

  lemma PrefixedCallRelocated(mem: Memory, j: Job, buffer: seq<Byte>, out: seq<Byte>)
    requires mem == Entry([0x67, 0xE8, 1, 1, 1, 1]) && j == Job(EP, 6, BASE) && |buffer| >= 100
    requires out == Splice(buffer, 0, Rewritten(0xE8, EP + 4 + 0x101))
    ensures IsEntrySize(SmallDecoder, mem, j) && ReachedSingle(SmallDecoder, mem, EP, EP + j.size)
    ensures Relocated(SmallDecoder, mem, j, Start(j, buffer)) == Done(out, 12, EP + j.size)
    ensures At(SmallDecoder, mem, EP).len > 0 && !Handled(SmallDecoder, mem, EP)
  {
    PrefixedCallDecodes(mem);
    hide At, Read, Splice, Rewritten, Int16, ParseRip;
    assert Round(SmallDecoder, mem, EP + 6, -1) == Some(0);
    assert ReachedSingle(SmallDecoder, mem, EP + 6, EP + 6);
    var q, r := Progress(EP + 1, true, buffer, 0), Progress(EP + 6, false, out, 12);
    assert Iterate(SmallDecoder, mem, j, Start(j, buffer)) == Next(q);
    assert Iterate(SmallDecoder, mem, j, q) == Next(r);
    assert Relocated(SmallDecoder, mem, j, r) == Done(out, 12, r.old_);
    assert Relocated(SmallDecoder, mem, j, q) == Done(out, 12, r.old_);
  }

  /** A rip-relative instruction behind an address-size prefix: it is moved without it. */
  lemma PrefixedRip(buffer: seq<Byte>) returns (j: Job, out: seq<Byte>, size: nat, m: Memory)
    requires |buffer| >= 100
    ensures Changed(Entry([0x67, 0x8B, 0x05, 1, 1, 1, 1]), j, buffer, out, size, m)
  {
    var mem := Entry([0x67, 0x8B, 0x05, 1, 1, 1, 1]);
    j := Job(EP, 7, BASE);
    PrefixedRipDecodes(mem);
    hide Entry, SmallDecoder;
    out := PrefixedRipRelocated(mem, j, buffer);
    size := 7;
    m := FirstUnhandled(mem, j, buffer, out, size);
  }

  ghost predicate PrefixedRipCode(mem: Memory) {
    var i, k := At(SmallDecoder, mem, EP), At(SmallDecoder, mem, EP + 1);
    && mem(EP) == 0x67 && mem(EP + 1) == 0x8B && mem(EP + 2) == 5
    && i.len == 7 && i.kind == RipRel(3, false)
    && k.len == 6 && k.kind == RipRel(2, false) && k.operand == RipMem("", 0x101_0101)
    && Field(mem, EP + 1, 1) == 0x101_0105 && Field(mem, EP + 1, 2) == 0x101_0101
  }

  lemma PrefixedRipDecodes(mem: Memory)
    requires mem == Entry([0x67, 0x8B, 0x05, 1, 1, 1, 1])
    ensures PrefixedRipCode(mem)
  {
    var w, v, f, g := Read(mem, EP, 32), Read(mem, EP + 1, 32), Read(mem, EP + 2, 4), Read(mem, EP + 3, 4);
    assert w[0] == 0x67 && w[1] == 0x8B && w[2] == 5 && v[0] == 0x8B && v[1] == 5;
    assert v[2..6] == [1, 1, 1, 1] && g == [1, 1, 1, 1] && f == [5, 1, 1, 1];
    assert UInt([1, 1, 1, 1]) == 0x101_0101 && UInt([5, 1, 1, 1]) == 0x101_0105;
  }

  lemma PrefixedRipMoves(mem: Memory)
    requires PrefixedRipCode(mem)
    ensures Fixup(SmallDecoder, mem, EP + 1, BASE).Moved?
    ensures ParseRip(Text(At(SmallDecoder, mem, EP + 1))).Some?
  {
    hide SmallDecoder, At, Read, Splice, ParseRip, Text, Fixup, SoundWindow, Field, Le;
    SoundDecoderExists(Read(mem, EP + 1, 32));
    ListingParses(SmallDecoder, mem, EP + 1);
    FixupIs(SmallDecoder, mem, EP + 1, BASE);
    assert OnlyField(mem, EP + 1, 6, 0x101_0101, 2);
  }

  lemma PrefixedRipRelocated(mem: Memory, j: Job, buffer: seq<Byte>) returns (out: seq<Byte>)
    requires PrefixedRipCode(mem) && j == Job(EP, 7, BASE) && |buffer| >= 100
    ensures IsEntrySize(SmallDecoder, mem, j) && ReachedSingle(SmallDecoder, mem, EP, EP + j.size)
    ensures Relocated(SmallDecoder, mem, j, Start(j, buffer)) == Done(out, 7, EP + j.size) && |out| == |buffer|
    ensures At(SmallDecoder, mem, EP).len > 0 && !Handled(SmallDecoder, mem, EP)
  {
    hide SmallDecoder, At, Read, Splice, ParseRip, Text, Fixup, Field;
    PrefixedRipMoves(mem);
    assert Round(SmallDecoder, mem, EP + 7, -2) == Some(0);
    assert ReachedSingle(SmallDecoder, mem, EP + 7, EP + 7);
    out := Splice(buffer, 0, Fixup(SmallDecoder, mem, EP + 1, BASE).code);
    var q, r := Progress(EP + 1, true, buffer, 0), Progress(EP + 7, false, out, 7);
    assert Iterate(SmallDecoder, mem, j, Start(j, buffer)) == Next(q);
    assert Iterate(SmallDecoder, mem, j, q) == Next(r);
    hide Iterate;
    assert Relocated(SmallDecoder, mem, j, r) == Done(out, 7, r.old_);
    assert Relocated(SmallDecoder, mem, j, q) == Done(out, 7, r.old_);
  }

  // ---- and one it does not change ------------------------------------------

  ghost predicate ReturnCode(mem: Memory) {
    var i, k := At(SmallDecoder, mem, EP), At(SmallDecoder, mem, EP + 1);
    && mem(EP) == 0xC3 && mem(EP + 1) == 0x8B && mem(EP + 2) == 5
    && i == Insn(1, Out, "leave", NoMem, "") && k == Insn(6, RipRel(2, false), "mov eax, ", RipMem("", 0), "")
  }

  lemma ReturnDecodes(mem: Memory)
    requires mem == Entry([0xC3, 0x8B, 0x05, 0, 0, 0, 0])
    ensures ReturnCode(mem)
  {
    var code: seq<Byte> := [0xC3, 0x8B, 0x05, 0, 0, 0, 0];
    var w, v := Read(mem, EP, 32), Read(mem, EP + 1, 32);
    assert forall t :: 0 <= t < 31 ==> v[t] == w[t + 1];
    EntryByte(code, 0);
    EntryByte(code, 1);
    EntryByte(code, 2);
    EntryByte(code, 3);
    EntryByte(code, 4);
    EntryByte(code, 5);
    EntryByte(code, 6);
    assert v[2..6] == [0, 0, 0, 0];
    assert UInt([0, 0, 0, 0]) == 0;
  }

  /** ret, then mov eax, [rip+0]: the second instruction is not handled, but control does not
      reach it, and the meaning is kept. */
  lemma ReturnKept(buffer: seq<Byte>) returns (j: Job, out: seq<Byte>, size: nat, m: Memory)
    requires |buffer| >= 100
    ensures var mem := Entry([0xC3, 0x8B, 0x05, 0, 0, 0, 0]);
      && Relocated(SmallDecoder, mem, j, Start(j, buffer)) == Done(out, size, j.ep + j.size) && Planted(m, j, out, size)
      && j.ep + 1 < j.ep + j.size && !Handled(SmallDecoder, mem, j.ep + 1)
      && SameMeaning(Exec(SmallDecoder, mem, j.ep, j.ep + j.size, None),
                     Exec(SmallDecoder, m, j.base, j.base + size + 5, None))
  {
    var mem := Entry([0xC3, 0x8B, 0x05, 0, 0, 0, 0]);
    j := Job(EP, 7, BASE);
    ReturnDecodes(mem);
    hide Entry, SmallDecoder, SoundCode, Planted, Overlay, Le, Splice, Read;
    out, size := Splice(Splice(buffer, 0, Read(mem, EP, 1)), 1, Read(mem, EP + 1, 6)), 7;
    ReturnRelocated(mem, j, buffer, out);
    hide At, IsEntrySize, ReachedHandled, Relocated, Handled, SameMeaning, Exec;
    CanBePlanted(mem, j, out, size);
    m := Overlay(mem, j.base, out[..size] + ([0xE9] + Le(j.ep + j.size - (j.base + size + 5), 4)));
    SmallSound(mem, EP, EP + j.size);
    SmallSound(m, BASE, BASE + size + 5);
    RelocationPreservesMeaning(SmallDecoder, mem, j, buffer, out, size, m);
  }

  lemma ReturnRelocated(mem: Memory, j: Job, buffer: seq<Byte>, out: seq<Byte>)
    requires ReturnCode(mem) && j == Job(EP, 7, BASE) && |buffer| >= 100
    requires out == Splice(Splice(buffer, 0, Read(mem, EP, 1)), 1, Read(mem, EP + 1, 6))
    ensures IsEntrySize(SmallDecoder, mem, j) && ReachedHandled(SmallDecoder, mem, EP, EP + j.size)
    ensures Relocated(SmallDecoder, mem, j, Start(j, buffer)) == Done(out, 7, EP + j.size)
    ensures !Handled(SmallDecoder, mem, EP + 1)
  {
    hide SmallDecoder, At, Read, Splice, ParseRip, Text, Fixup;
    NotListed(mem, EP, BASE);
    NotListed(mem, EP + 1, BASE + 1);
    assert Round(SmallDecoder, mem, EP + 7, -2) == Some(0);
    assert Round(SmallDecoder, mem, EP + 1, 4) == Some(6);
    var first := Splice(buffer, 0, Read(mem, EP, 1));
    var q, r := Progress(EP + 1, false, first, 1), Progress(EP + 7, false, out, 7);
    assert Iterate(SmallDecoder, mem, j, Start(j, buffer)) == Next(q);
    assert Iterate(SmallDecoder, mem, j, q) == Next(r);
    hide Iterate;
    assert Relocated(SmallDecoder, mem, j, r) == Done(out, 7, r.old_);
    assert Relocated(SmallDecoder, mem, j, q) == Done(out, 7, r.old_);
  }
}
