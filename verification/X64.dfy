/** What relocation may assume about x64 machine code: a decoder in the place of udis86,
    the properties a decoder must have, and the meaning of straight-line code as the
    actions it takes. */
module X64 {
  import opened Bytes
  import opened RtlString
  import opened Wrappers

  /** A snapshot of the process memory. */
  type Memory = int -> Byte

  function Read(mem: Memory, a: int, n: nat): (b: seq<Byte>)
    ensures |b| == n
  {
    seq(n, i requires 0 <= i < n => mem(a + i))
  }

  // ---- instructions --------------------------------------------------------

  datatype Kind =
    | Plain                  // the effect does not mention the instruction's address
    | Out                    // likewise, but control does not go on behind: a return, an
                             // indirect jump, a trap
    | RipRel(at: nat, leaves: bool)  // 32-bit displacement at offset `at`, relative to the next
                             // address; `leaves` when it names where a jump finds its target
    | Call(rel: int)
    | Jump(rel: int)
    | Branch(rel: int)       // conditional, falls through otherwise
    | LoadAcc(value: int)    // mov rax, imm64
    | CallAcc                // call rax
    | JumpAcc                // jmp rax

  /** The memory operand in the Intel listing of udis86. */
  datatype Operand = NoMem | RipMem(seg: string, disp: int) | OtherMem(body: string)

  /** A decoded instruction with its listing; length 0 means undecodable. */
  datatype Insn = Insn(len: nat, kind: Kind, head: string, operand: Operand, tail: string)

  type Decoder = seq<Byte> -> Insn

  /** The listing of a displacement behind a base register: sign and hexadecimal
      magnitude, nothing at all for zero. */
  function DispText(d: int): (r: string) {
    if d < 0 then "-0x" + HexText(-d) else if d > 0 then "+0x" + HexText(d) else ""
  }

  function OperandText(o: Operand): (r: string) {
    match o
    case NoMem => ""
    case RipMem(seg, disp) => "[" + (seg + ("rip" + (DispText(disp) + "]")))
    case OtherMem(body) => "[" + (body + "]")
  }

  function Text(i: Insn): (r: string) { i.head + (OperandText(i.operand) + i.tail) }

  /** Control does not go on behind instructions of this kind. */
  predicate EndsCode(k: Kind) { k.Jump? || k.JumpAcc? || k.Out? || (k.RipRel? && k.leaves) }

  predicate NoBrackets(s: string) { '[' !in s && ']' !in s }

  /** s does not look like the inside of a rip-relative operand with a displacement. */
  predicate NotRip(s: string) {
    !(|s| >= 4 && s[..3] == "rip" && (s[3] == '+' || s[3] == '-'))
  }

  /** What the decoder must say of the bytes in w. */
  ghost predicate WellDecoded(w: seq<Byte>, i: Insn)
    requires |w| == 32
  {
    && i.len <= 15
    && (w[0] == 0xE8 ==> i.len == 5 && i.kind == Call(Int32(w[1..5])))
    && (w[0] == 0xE9 ==> i.len == 5 && i.kind == Jump(Int32(w[1..5])))
    && (w[0] == 0xEB ==> i.len == 2 && i.kind == Jump(Int8(w[1])))
    && (ShortBranch(w[0]) ==> i.len == 2 && i.kind == Branch(Int8(w[1])))
    && (NearBranch(w[0], w[1]) ==> i.len == 6 && i.kind == Branch(Int32(w[2..6])))
    && (w[0] == 0x48 && w[1] == 0xB8 ==> i.len == 10 && i.kind == LoadAcc(UInt(w[2..10])))
    && (w[0] == 0xFF && w[1] == 0xD0 ==> i.len == 2 && i.kind == CallAcc)
    && (w[0] == 0xFF && w[1] == 0xE0 ==> i.len == 2 && i.kind == JumpAcc)
    && (w[0] == 0x67 ==> PrefixDecoded(w, i))
    && (i.len > 0 && (Exits(w, 0) || (IsPrefix(w[0]) && Exits(w, 1))) ==> EndsCode(i.kind))
    && Listed(w, i)
  }

  /** Conditional jumps with an 8-bit displacement: jcc, and LOOP or jrcxz. */
  predicate ShortBranch(b: Byte) { 0x70 <= b <= 0x7F || 0xE0 <= b <= 0xE3 }

  /** A conditional jump with a 32-bit displacement. */
  predicate NearBranch(b1: Byte, b2: Byte) { b1 == 0x0F && 0x80 <= b2 <= 0x8F }

  /** Prefixes of segment, operand size, address size, repetition, and REX. */
  predicate IsPrefix(b: Byte) {
    b in [0x26, 0x2E, 0x36, 0x3E, 0x64, 0x65, 0x66, 0x67, 0xF2, 0xF3] || 0x40 <= b <= 0x4F
  }

  /** The opcode of a near or far return, int3, ud2 or an indirect jump (FF /4, FF /5). */
  predicate Exits(w: seq<Byte>, k: nat)
    requires k + 1 < |w|
  {
    || w[k] in [0xC2, 0xC3, 0xCA, 0xCB, 0xCC]
    || (w[k] == 0x0F && w[k + 1] == 0x0B)
    || (w[k] == 0xFF && (w[k + 1] / 8 % 8 == 4 || w[k + 1] / 8 % 8 == 5))
  }

  /** An address-size prefix is part of the instruction and leaves the displacement of a
      direct transfer as wide as it is. */
  ghost predicate PrefixDecoded(w: seq<Byte>, i: Insn)
    requires |w| == 32
  {
    && i.len != 1
    && (w[1] == 0xE8 ==> i.len == 6 && i.kind == Call(Int32(w[2..6])))
    && (w[1] == 0xE9 ==> i.len == 6 && i.kind == Jump(Int32(w[2..6])))
    && (w[1] == 0xEB ==> i.len == 3 && i.kind == Jump(Int8(w[2])))
    && (ShortBranch(w[1]) ==> i.len == 3 && i.kind == Branch(Int8(w[2])))
    && (NearBranch(w[1], w[2]) ==> i.len == 7 && i.kind == Branch(Int32(w[3..7])))
  }

  /** The listing tells rip-relative instructions, and their displacement, from others;
      behind an address-size prefix the displacement is listed as an address without base. */
  ghost predicate Listed(w: seq<Byte>, i: Insn)
    requires |w| == 32
  {
    && (i.operand.RipMem? ==> i.kind.RipRel? && w[0] != 0x67)
    && (i.kind.RipRel? ==> i.len >= i.kind.at + 4 && i.kind.at >= 1 && i.len <= 15)
    && (i.operand.RipMem? && i.len <= 15 ==> i.operand.disp == Int32(w[i.kind.at..i.kind.at + 4]))
    && NoBrackets(i.head) && |Text(i)| < 100
    && (i.operand.RipMem? ==>
         NoBrackets(i.operand.seg)
         && (i.operand.seg != "" ==> NotRip(i.operand.seg + "rip" + DispText(i.operand.disp) + "]" + i.tail)))
    && (i.operand.OtherMem? ==> NotRip(i.operand.body + "]" + i.tail))
    && (i.operand.NoMem? ==> NoBrackets(i.tail))
  }

  /** v has the code bytes of w's instruction i, up to the value of its displacement. */
  ghost predicate SameCode(i: Insn, w: seq<Byte>, v: seq<Byte>)
    requires |w| == |v| == 32 && i.len <= 15
  {
    forall j :: 0 <= j < i.len && !(i.kind.RipRel? && i.kind.at <= j < i.kind.at + 4) ==> w[j] == v[j]
  }

  /** The instruction in w is decoded from its own bytes alone. */
  ghost predicate Local(dec: Decoder, w: seq<Byte>)
    requires |w| == 32 && dec(w).len <= 15
  {
    forall v :: |v| == 32 && 0 < dec(w).len && SameCode(dec(w), w, v) ==>
      dec(v).len == dec(w).len && dec(v).kind == dec(w).kind
  }

  /** An address-size prefix in front of another one, or of a rip-relative instruction, is
      one more byte; in front of 15 bytes there is no room for it. */
  ghost predicate PrefixAdds(dec: Decoder, w: seq<Byte>)
    requires |w| == 32
  {
    forall v :: |v| == 32 && w[0] == 0x67 && w[1..] == v[..31] && dec(w).len > 0 ==>
      (w[1] == 0x67 || dec(v).operand.RipMem? ==> dec(v).len < 15 && dec(w).len == dec(v).len + 1)
  }

  /** The decoder can be trusted with the bytes in w. */
  ghost predicate SoundWindow(dec: Decoder, w: seq<Byte>)
    requires |w| == 32
  {
    WellDecoded(w, dec(w)) && Local(dec, w) && PrefixAdds(dec, w)
  }

  ghost predicate SoundAt(dec: Decoder, mem: Memory, a: int) { SoundWindow(dec, Read(mem, a, 32)) }

  /** The decoder can be trusted wherever the code from a up to `end` is decoded: at every
      instruction, and behind every address-size prefix. */
  ghost predicate SoundCode(dec: Decoder, mem: Memory, a: int, end: int)
    decreases end - a
  {
    a < end ==>
      && SoundAt(dec, mem, a)
      && (mem(a) == 0x67 ==> SoundCode(dec, mem, a + 1, end))
      && (At(dec, mem, a).len > 0 ==> SoundCode(dec, mem, a + At(dec, mem, a).len, end))
  }

  function At(dec: Decoder, mem: Memory, a: int): (r: Insn) { dec(Read(mem, a, 32)) }

  lemma SoundListed(dec: Decoder, mem: Memory, a: int)
    requires SoundAt(dec, mem, a)
    ensures Listed(Read(mem, a, 32), At(dec, mem, a)) && At(dec, mem, a).len <= 15
  {
    hide Listed, PrefixDecoded, Local, PrefixAdds, Read, Int32, UInt, Int8;
    assert WellDecoded(Read(mem, a, 32), At(dec, mem, a));
  }

  lemma SubRead(mem: Memory, a: int, i: nat, n: nat)
    requires i + n <= 32
    ensures Read(mem, a, 32)[i..i + n] == Read(mem, a + i, n)
  {
  }

  /** The encodings the relocation code recognises by their first bytes. */
  lemma SoundTransfers(dec: Decoder, mem: Memory, a: int)
    requires SoundAt(dec, mem, a)
    ensures var i := At(dec, mem, a);
      && (mem(a) == 0xE8 ==> i.len == 5 && i.kind == Call(Int32(Read(mem, a + 1, 4))))
      && (mem(a) == 0xE9 ==> i.len == 5 && i.kind == Jump(Int32(Read(mem, a + 1, 4))))
      && (mem(a) == 0xEB ==> i.len == 2 && i.kind == Jump(Int8(mem(a + 1))))
      && (mem(a) == 0x67 && mem(a + 1) == 0xEB ==> i.len == 3 && i.kind == Jump(Int8(mem(a + 2))))
      && (mem(a) == 0x67 && mem(a + 1) == 0xE8 ==> i.len == 6 && i.kind == Call(Int32(Read(mem, a + 2, 4))))
      && (mem(a) == 0x67 && mem(a + 1) == 0xE9 ==> i.len == 6 && i.kind == Jump(Int32(Read(mem, a + 2, 4))))
  {
    hide Listed, Local, PrefixAdds, Int32, UInt, Int8;
    SubRead(mem, a, 1, 4);
    SubRead(mem, a, 2, 4);
    var w := Read(mem, a, 32);
    assert w[0] == mem(a) && w[1] == mem(a + 1) && w[2] == mem(a + 2);
    hide Read;
    assert WellDecoded(w, At(dec, mem, a));
  }

  lemma SoundAccumulator(dec: Decoder, mem: Memory, a: int)
    requires SoundAt(dec, mem, a)
    ensures var i := At(dec, mem, a);
      && (mem(a) == 0x48 && mem(a + 1) == 0xB8 ==> i.len == 10 && i.kind == LoadAcc(UInt(Read(mem, a + 2, 8))))
      && (mem(a) == 0xFF && mem(a + 1) == 0xD0 ==> i.len == 2 && i.kind == CallAcc)
      && (mem(a) == 0xFF && mem(a + 1) == 0xE0 ==> i.len == 2 && i.kind == JumpAcc)
  {
    hide Listed, Local, PrefixAdds, Int32, UInt, Int8, PrefixDecoded;
    SubRead(mem, a, 2, 8);
    var w := Read(mem, a, 32);
    assert w[0] == mem(a) && w[1] == mem(a + 1);
    hide Read;
    assert WellDecoded(w, At(dec, mem, a));
  }

  // ---- meaning -------------------------------------------------------------

  /** What straight-line code does, instruction by instruction. Instructions whose effect
      does not mention their address are kept as their bytes; addresses are modulo 2^64. */
  datatype Action =
    | Do(op: seq<Byte>)
    | Access(op: seq<Byte>, ea: int)       // op with its displacement blanked
    | LeaveBy(op: seq<Byte>, ea: int)      // the same for a jump that finds its target at ea
    | SetAcc(value: int)
    | CallTo(target: int)
    | JumpTo(target: int)
    | CondTo(op: seq<Byte>, target: int)
    | Leave(op: seq<Byte>)                 // control goes wherever op sends it
    | Fault

  function Blank(op: seq<Byte>, at: nat): (r: seq<Byte>)
    requires at + 4 <= |op|
  {
    Splice(op, at, [0, 0, 0, 0])
  }

  function Wrap64(x: int): (r: int) { x % TWO64 }

  /** What the instruction at a does, when rax is known to hold `acc`. */
  function ActionAt(dec: Decoder, mem: Memory, a: int, acc: Option<int>): (r: Action) {
    var i := At(dec, mem, a);
    var op := Read(mem, a, i.len);
    match i.kind
    case Plain => Do(op)
    case Out => Leave(op)
    case RipRel(at, leaves) =>
      if at + 4 > i.len then Fault
      else
        var ea := Wrap64(a + i.len + Int32(Read(mem, a + at, 4)));
        if leaves then LeaveBy(Blank(op, at), ea) else Access(Blank(op, at), ea)
    case Call(rel) => CallTo(Wrap64(a + i.len + rel))
    case Jump(rel) => JumpTo(Wrap64(a + i.len + rel))
    case Branch(rel) => CondTo(op, Wrap64(a + i.len + rel))
    case LoadAcc(v) => SetAcc(v)
    case CallAcc => if acc.Some? then CallTo(acc.value) else Do(op)
    case JumpAcc => if acc.Some? then JumpTo(acc.value) else Leave(op)
  }

  predicate Ends(x: Action) { x.JumpTo? || x.Leave? || x.LeaveBy? || x.Fault? }

  function AccAfter(x: Action): (r: Option<int>) {
    if x.SetAcc? then Some(x.value) else None
  }

  /** The actions of the code from a up to `end`, where control goes on at `end`. */
  function Exec(dec: Decoder, mem: Memory, a: int, end: int, acc: Option<int>): (r: seq<Action>)
    decreases end - a
  {
    if a >= end then [JumpTo(Wrap64(a))]
    else if At(dec, mem, a).len == 0 then [Fault]
    else
      var x := ActionAt(dec, mem, a, acc);
      if Ends(x) then [x] else [x] + Exec(dec, mem, a + At(dec, mem, a).len, end, AccAfter(x))
  }

  /** b does what o does, except that it may load rax with the target right before a call
      or a jump. */
  predicate SameMeaning(o: seq<Action>, b: seq<Action>)
    decreases |o|
  {
    if o == [] || b == [] then o == b
    else if o[0] == b[0] then SameMeaning(o[1..], b[1..])
    else
      && (o[0].CallTo? || o[0].JumpTo?) && |b| >= 2 && b[0] == SetAcc(o[0].target) && b[1] == o[0]
      && SameMeaning(o[1..], b[2..])
  }

  /** A small decoder, to show that the assumptions can be met: the transfers, the conditional
      jumps, three accumulator instructions, mov eax, [rip+disp32] and jmp [rip+disp32], an address-size prefix before
      most of these but not itself, and short instructions. */
  function SmallDecoder(w: seq<Byte>): (r: Insn) {
    if |w| != 32 then Insn(0, Plain, "", NoMem, "")
    else if w[0] == 0x67 then
      if w[1] == 0xE8 then Insn(6, Call(Int32(w[2..6])), "call", NoMem, "")
      else if w[1] == 0xE9 then Insn(6, Jump(Int32(w[2..6])), "jmp", NoMem, "")
      else if w[1] == 0xEB then Insn(3, Jump(Int8(w[2])), "jmp", NoMem, "")
      else if ShortBranch(w[1]) then Insn(3, Branch(Int8(w[2])), "jcc", NoMem, "")
      else if NearBranch(w[1], w[2]) then Insn(7, Branch(Int32(w[3..7])), "jcc", NoMem, "")
      else if w[1] == 0x67 then Insn(0, Plain, "", NoMem, "")
      else if w[1] == 0x8B then
        if w[2] == 0x05 then Insn(7, RipRel(3, false), "mov eax, ", OtherMem("0x0"), "")
          else Insn(3, Plain, "a32 nop", NoMem, "")
      else if w[1] == 0xFF && w[2] == 0x25 then Insn(7, RipRel(3, true), "jmp ", OtherMem("0x0"), "")
      else if Exits(w, 1) then Insn(3, Out, "leave", NoMem, "")
      else if w[1] == 0xFF || w[1] == 0x0F then Insn(3, Plain, "a32 nop", NoMem, "")
      else Insn(2, Plain, "a32 nop", NoMem, "")
    else if w[0] == 0xE8 then Insn(5, Call(Int32(w[1..5])), "call", NoMem, "")
    else if w[0] == 0xE9 then Insn(5, Jump(Int32(w[1..5])), "jmp", NoMem, "")
    else if w[0] == 0xEB then Insn(2, Jump(Int8(w[1])), "jmp", NoMem, "")
    else if ShortBranch(w[0]) then Insn(2, Branch(Int8(w[1])), "jcc", NoMem, "")
    else if NearBranch(w[0], w[1]) then Insn(6, Branch(Int32(w[2..6])), "jcc", NoMem, "")
    else if w[0] == 0x48 && w[1] == 0xB8 then Insn(10, LoadAcc(UInt(w[2..10])), "mov rax", NoMem, "")
    else if w[0] == 0xFF && w[1] == 0xD0 then Insn(2, CallAcc, "call rax", NoMem, "")
    else if w[0] == 0xFF && w[1] == 0xE0 then Insn(2, JumpAcc, "jmp rax", NoMem, "")
    else if w[0] == 0x8B && w[1] == 0x05 then Insn(6, RipRel(2, false), "mov eax, ", RipMem("", Int32(w[2..6])), "")
    else if w[0] == 0xFF && w[1] == 0x25 then Insn(6, RipRel(2, true), "jmp ", RipMem("", Int32(w[2..6])), "")
    else if w[0] == 0xC3 || w[0] == 0xCC then Insn(1, Out, "leave", NoMem, "")
    else if Exits(w, 0) || (IsPrefix(w[0]) && Exits(w, 1)) then Insn(3, Out, "leave", NoMem, "")
    else if IsPrefix(w[0]) || w[0] == 0x0F then Insn(3, Plain, "op", NoMem, "")
    else if w[0] == 0x48 || w[0] == 0xFF || w[0] == 0x8B then Insn(2, Plain, "op", NoMem, "")
    else Insn(1, Plain, "nop", NoMem, "")
  }

  lemma DispTextShort(d: int)
    requires Fits32(d)
    ensures |DispText(d)| <= 19
  {
    if d != 0 {
      HexLength(if d < 0 then -d else d);
    }
  }

  lemma Int32Fits(b: seq<Byte>)
    requires |b| == 4
    ensures Fits32(Int32(b))
  {
    UIntBound(b);
    Pow256Values();
  }

  lemma SmallWellDecoded(w: seq<Byte>)
    requires |w| == 32
    ensures WellDecoded(w, SmallDecoder(w))
  {
    hide Listed, UInt, Int32, Int8;
    SmallListed(w);
  }

  lemma SmallListed(w: seq<Byte>)
    requires |w| == 32
    ensures Listed(w, SmallDecoder(w))
  {
    hide UInt, Int32, Int8, Listed;
    var i := SmallDecoder(w);
    if i.operand.RipMem? {
      RipListed(w, i.kind.leaves);
    } else if i.kind.RipRel? {
      AddressListed(w, i.kind.leaves);
    } else {
      ShortHead(i.head);
      NoOperandListed(w, i);
    }
  }

  lemma ShortHead(s: string)
    requires s in ["", "call", "jmp", "jcc", "leave", "a32 nop", "mov rax", "call rax", "jmp rax", "op", "nop"]
    ensures |s| < 9 && NoBrackets(s)
  {
  }

  lemma NoOperandListed(w: seq<Byte>, i: Insn)
    requires |w| == 32 && !i.kind.RipRel? && i.operand == NoMem && i.tail == "" && |i.head| < 9 && NoBrackets(i.head)
    ensures Listed(w, i)
  {
  }

  lemma AddressListed(w: seq<Byte>, leaves: bool)
    requires |w| == 32
    ensures Listed(w, Insn(7, RipRel(3, leaves), if leaves then "jmp " else "mov eax, ", OtherMem("0x0"), ""))
  {
    assert NoBrackets("mov eax, ") && NoBrackets("jmp ");
  }

  lemma RipListed(w: seq<Byte>, leaves: bool)
    requires |w| == 32 && w[0] != 0x67
    ensures Listed(w, Insn(6, RipRel(2, leaves), if leaves then "jmp " else "mov eax, ",
                           RipMem("", Int32(w[2..6])), ""))
  {
    Int32Fits(w[2..6]);
    DispTextShort(Int32(w[2..6]));
    hide DispText, Int32, UInt;
    assert NoBrackets("mov eax, ") && NoBrackets("jmp ");
  }

  lemma SmallSame(w: seq<Byte>, v: seq<Byte>)
    requires |w| == 32 && |v| == 32 && 0 < SmallDecoder(w).len <= 15 && SameCode(SmallDecoder(w), w, v)
    ensures SmallDecoder(v).len == SmallDecoder(w).len && SmallDecoder(v).kind == SmallDecoder(w).kind
  {
    hide Int32, Int8, UInt;
    var n := SmallDecoder(w).len;
    assert w[0] == v[0];
    assert n >= 2 ==> w[1] == v[1] || SmallDecoder(w).kind.RipRel?;
    if n == 5 { assert w[1..5] == v[1..5]; }
    if n == 10 { assert w[2..10] == v[2..10]; }
    if n == 6 && !SmallDecoder(w).kind.RipRel? { assert w[2..6] == v[2..6]; }
    assert n >= 3 && !SmallDecoder(w).kind.RipRel? ==> w[2] == v[2];
    assert n == 7 ==> w[1] == v[1] && w[2] == v[2];
    if n == 7 && !SmallDecoder(w).kind.RipRel? { assert w[3..7] == v[3..7]; }
  }

  /** The assumptions on the decoder are consistent: one decoder meets them everywhere. */
  lemma SoundDecoderExists(w: seq<Byte>)
    requires |w| == 32
    ensures SoundWindow(SmallDecoder, w)
  {
    SmallWellDecoded(w);
    hide WellDecoded;
    forall v: seq<Byte> | |v| == 32 && 0 < SmallDecoder(w).len && SameCode(SmallDecoder(w), w, v)
      ensures SmallDecoder(v).len == SmallDecoder(w).len && SmallDecoder(v).kind == SmallDecoder(w).kind
    {
      SmallSame(w, v);
    }
    SmallPrefix(w);
    hide SmallDecoder, Local, PrefixAdds;
  }

  lemma SmallPrefix(w: seq<Byte>)
    requires |w| == 32
    ensures PrefixAdds(SmallDecoder, w)
  {
    hide Int32, Int8, UInt;
    forall v: seq<Byte> | |v| == 32 && w[0] == 0x67 && w[1..] == v[..31] && SmallDecoder(w).len > 0
      ensures w[1] == 0x67 || SmallDecoder(v).operand.RipMem? ==>
        SmallDecoder(v).len < 15 && SmallDecoder(w).len == SmallDecoder(v).len + 1
    {
      assert w[1] == w[1..][0] == v[..31][0] == v[0] && w[2] == w[1..][1] == v[..31][1] == v[1];
    }
  }

  lemma {:induction false} SmallSound(mem: Memory, a: int, end: int)
    ensures SoundCode(SmallDecoder, mem, a, end)
    decreases end - a
  {
    hide SoundWindow, At;
    if a < end {
      SoundDecoderExists(Read(mem, a, 32));
      SmallSound(mem, a + 1, end);
      if At(SmallDecoder, mem, a).len > 0 {
        SmallSound(mem, a + At(SmallDecoder, mem, a).len, end);
      }
    }
  }
}
