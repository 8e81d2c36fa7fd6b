/** EasyHook's reloc.c in x64 mode: rounding an entry point up to instruction boundaries,
    and moving its instructions into a buffer at another address. */
module Reloc {
  import opened Bytes
  import opened RtlString
  import opened Wrappers
  import opened X64

  datatype Status = NotSupported | InternalError | InvalidParameter | NoRoom

  // ---- instruction boundaries ----------------------------------------------

  /** Length of the instructions from a that cover at least `need` bytes. */
  function Round(dec: Decoder, mem: Memory, a: int, need: int): (r: Option<nat>)
    decreases need
  {
    if need <= 0 then Some(0)
    else
      var n := At(dec, mem, a).len;
      if n == 0 then None
      else
        var r := Round(dec, mem, a + n, need - n);
        if r.None? then None else Some(n + r.value)
  }

  /** LhRoundToNextInstruction. */
  method LhRoundToNextInstruction(dec: Decoder, mem: Memory, base: int, size: nat) returns (r: Option<nat>)
    ensures r == Round(dec, mem, base, size)
  {
    var ptr := base;
    while base + size > ptr
      invariant ptr >= base
      invariant Round(dec, mem, base, size)
             == var t := Round(dec, mem, ptr, size - (ptr - base)); if t.None? then None else Some(ptr - base + t.value)
      decreases base + size - ptr
    {
      var n := At(dec, mem, ptr).len;
      if n == 0 {
        return None;
      }
      ptr := ptr + n;
    }
    return Some(ptr - base);
  }

  /** k is the offset of an instruction reached from a without crossing an undecodable one. */
  ghost predicate Boundary(dec: Decoder, mem: Memory, a: int, k: int)
    decreases k
  {
    if k <= 0 then k == 0
    else
      var n := At(dec, mem, a).len;
      n > 0 && Boundary(dec, mem, a + n, k - n)
  }

  lemma LenBound(dec: Decoder, mem: Memory, a: int)
    requires SoundAt(dec, mem, a)
    ensures At(dec, mem, a).len <= 15
  {
    hide SoundAt;
    SoundListed(dec, mem, a);
  }

  /** Rounding gives the least boundary that is large enough; instructions of at most 15
      bytes keep it within 14 of the size asked for. */
  lemma {:induction false} RoundIsLeastBoundary(dec: Decoder, mem: Memory, a: int, need: int)
    requires SoundCode(dec, mem, a, a + need)
    ensures var r := Round(dec, mem, a, need);
      && (r.Some? ==> Boundary(dec, mem, a, r.value) && need <= r.value && (need > 0 ==> r.value <= need + 14))
      && (forall k :: Boundary(dec, mem, a, k) && k >= need ==> r.Some? && k >= r.value)
    decreases need
  {
    hide SoundAt, At;
    if need > 0 {
      LenBound(dec, mem, a);
      assert At(dec, mem, a).len > 0 ==> SoundCode(dec, mem, a + At(dec, mem, a).len, a + need);
      var n := At(dec, mem, a).len;
      if n > 0 {
        RoundIsLeastBoundary(dec, mem, a + n, need - n);
        assert forall k :: Boundary(dec, mem, a, k) && k >= need ==> Boundary(dec, mem, a + n, k - n);
      }
    }
  }

  // ---- rip-relative instructions -------------------------------------------

  /** The displacement LhRelocateRIPRelativeInstruction reads from a listing, if the listing
      has a rip-relative operand with a nonzero 32-bit displacement. */
  function ParseRip(text: string): (r: Option<int>) {
    var pos := IndexOf(text, '[');
    if pos < 0 then None
    else if !NotRip(text[pos + 1..]) then
      var end := IndexOf(text, ']') % TWO32;
      if end >= |text| || end <= pos + 5 || end - (pos + 5) > 100 then None
      else ParseNumber(text[pos + 5..end], text[pos + 4] == '-')
    else None
  }

  function ParseNumber(line: string, negative: bool): (r: Option<int>) {
    var v := HexFold(0, HexPart(line, 100));
    var d := if negative then -v else v;
    if v == 0 || !Fits32(d) then None else Some(d)
  }

  method ReadNumber(line: string, negative: bool) returns (d: Option<int>)
    ensures d == ParseNumber(line, negative)
  {
    var v := RtlAnsiHexToLongLong(line, 100);
    if v == 0 {
      return None;
    }
    if negative {
      v := -v;
    }
    return if Fits32(v) then Some(v) else None;
  }

  method ReadListing(text: string) returns (d: Option<int>)
    requires |text| < 100
    ensures d == ParseRip(text)
  {
    hide ParseNumber, IndexOf, NotRip;
    var pos := RtlAnsiIndexOf(text, '[');
    if pos < 0 {
      return None;
    }
    InsideIsRip(text, pos);
    if |text| > pos + 4 && text[pos + 1] == 'r' && text[pos + 2] == 'i' && text[pos + 3] == 'p'
       && (text[pos + 4] == '+' || text[pos + 4] == '-')
    {
      var negative := text[pos + 4] == '-';
      pos := pos + 4;
      var close := RtlAnsiIndexOf(text, ']');
      var code, line := RtlAnsiSubString(text, pos + 1, close - pos - 1, 100);
      if code <= 0 {
        return None;
      }
      d := ReadNumber(line, negative);
    } else {
      d := None;
    }
  }

  lemma InsideIsRip(text: string, pos: nat)
    requires pos < |text|
    ensures !NotRip(text[pos + 1..])
      == (|text| > pos + 4 && text[pos + 1] == 'r' && text[pos + 2] == 'i' && text[pos + 3] == 'p'
                                         && (text[pos + 4] == '+' || text[pos + 4] == '-'))
  {
    if |text| > pos + 4 {
      var inside := text[pos + 1..];
      assert inside[..3] == [text[pos + 1], text[pos + 2], text[pos + 3]] && inside[3] == text[pos + 4];
    }
  }

  lemma IndexAfter(head: string, c: char, rest: string)
    requires c !in head && rest != "" && rest[0] == c
    ensures IndexOf(head + rest, c) == |head|
  {
    assert (head + rest)[..|head|] == head;
    IndexIs(head + rest, c, |head|);
  }

  lemma {:induction false} HexTextClean(v: nat)
    ensures NoBrackets(HexText(v))
  {
    if v >= 16 { HexTextClean(v / 16); }
  }

  /** The listing up to the digits of the displacement. */
  function RipFront(head: string, sign: char): (f: string)
    ensures |f| == |head| + 5
  {
    head + ['[', 'r', 'i', 'p', sign]
  }

  lemma FrontPositions(head: string, sign: char, rest: string)
    requires NoBrackets(head)
    ensures var t := RipFront(head, sign) + rest;
      && IndexOf(t, '[') == |head| && !NotRip(t[|head| + 1..]) == (sign == '+' || sign == '-') && t[|head| + 4] == sign
  {
    hide IndexOf;
    var t := RipFront(head, sign) + rest;
    assert t[..|head|] == head;
    IndexIs(t, '[', |head|);
    var u := t[|head| + 1..];
    assert u[..3] == "rip" && u[3] == sign;
  }

  lemma BackPositions(front: string, digits: string, tail: string)
    requires ']' !in front && ']' !in digits
    ensures var t := front + (digits + ([']'] + tail)); var e := |front| + |digits|;
      && IndexOf(t, ']') == e < |t| && t[|front|..e] == digits
  {
    hide IndexOf;
    var t, e := front + (digits + ([']'] + tail)), |front| + |digits|;
    assert t[..e] == front + digits;
    IndexIs(t, ']', e);
  }

  lemma RipTextIs(head: string, d: int, tail: string)
    requires d != 0
    ensures head + (OperandText(RipMem("", d)) + tail)
         == RipFront(head, if d < 0 then '-' else '+') + (("0x" + HexText(if d < 0 then -d else d)) + ([']'] + tail))
  {
    hide HexText, DispText;
    var sign, digits := if d < 0 then '-' else '+', "0x" + HexText(if d < 0 then -d else d);
    assert DispText(d) == [sign] + digits by { SignedText(d); }
    Regrouped(head, sign, digits, tail);
  }

  lemma SignedText(d: int)
    requires d != 0
    ensures DispText(d) == [if d < 0 then '-' else '+'] + ("0x" + HexText(if d < 0 then -d else d))
  {
    hide HexText;
  }

  lemma Regrouped(head: string, sign: char, digits: string, tail: string)
    ensures head + (("[" + ("" + ("rip" + (([sign] + digits) + "]")))) + tail)
         == RipFront(head, sign) + (digits + ([']'] + tail))
  {
  }

  lemma NumberParses(d: int)
    requires Fits32(d) && d != 0
    ensures ParseNumber("0x" + HexText(if d < 0 then -d else d), d < 0) == Some(d)
  {
    hide HexFold, HexText, HexPart;
    var m := if d < 0 then -d else d;
    HexLength(m);
    HexRoundTrip(m, 100);
  }

  lemma ParseRipAt(text: string, pos: nat, end: nat)
    requires IndexOf(text, '[') == pos && IndexOf(text, ']') == end
    requires pos + 5 < end < |text| && end <= pos + 105 && end < TWO32
    requires !NotRip(text[pos + 1..])
    ensures ParseRip(text) == ParseNumber(text[pos + 5..end], text[pos + 4] == '-')
  {
    hide IndexOf, ParseNumber, NotRip;
  }

  lemma RipTextParses(head: string, d: int, tail: string)
    requires NoBrackets(head) && Fits32(d) && d != 0
    requires |head| + 100 < TWO32
    ensures ParseRip(head + (OperandText(RipMem("", d)) + tail)) == Some(d)
  {
    hide IndexOf, ParseNumber, HexText, NotRip, OperandText, ParseRip;
    var m := if d < 0 then -d else d;
    var digits, front := "0x" + HexText(m), RipFront(head, if d < 0 then '-' else '+');
    RipTextIs(head, d, tail);
    HexTextClean(m);
    HexLength(m);
    NumberParses(d);
    FrontPositions(head, if d < 0 then '-' else '+', digits + ([']'] + tail));
    BackPositions(front, digits, tail);
    hide ParseRip, RipFront;
    ParseRipAt(front + (digits + ([']'] + tail)), |head|, |front| + |digits|);
  }

  /** Any other listing is taken for not rip-relative: no operand, another base, a segment
      in front, or no displacement printed because it is zero. */
  lemma OtherTextParses(head: string, inside: string)
    requires NoBrackets(head) && NotRip(inside)
    ensures ParseRip(head + ("[" + inside)) == None
  {
    IndexAfter(head, '[', "[" + inside);
    var text := head + ("[" + inside);
    assert text[|head| + 1..] == inside;
  }

  lemma TextOther(i: Insn)
    requires i.operand.OtherMem?
    ensures Text(i) == i.head + ("[" + (i.operand.body + "]" + i.tail))
  {
  }

  lemma TextRip(i: Insn)
    requires i.operand.RipMem?
    ensures Text(i) == i.head + ("[" + (i.operand.seg + "rip" + DispText(i.operand.disp) + "]" + i.tail))
  {
    hide DispText;
  }

  lemma NoBracketParses(text: string)
    requires NoBrackets(text)
    ensures ParseRip(text) == None
  {
  }

  lemma RipListingParses(w: seq<Byte>, i: Insn)
    requires |w| == 32 && Listed(w, i) && i.operand.RipMem?
    ensures ParseRip(Text(i)) == if i.operand.seg == "" && i.operand.disp != 0 then Some(i.operand.disp) else None
  {
    var seg, d := i.operand.seg, i.operand.disp;
    Int32Fits(w[i.kind.at..i.kind.at + 4]);
    hide ParseRip, Text, DispText, OperandText;
    if seg == "" && d != 0 {
      assert Text(i) == i.head + (OperandText(RipMem("", d)) + i.tail) by { TextSplit(i); }
      RipTextParses(i.head, d, i.tail);
    } else {
      TextRip(i);
      var inside := seg + "rip" + DispText(d) + "]" + i.tail;
      if seg == "" {
        assert DispText(0) == "" by { NoDisp(); }
        assert inside[3] == ']';
      }
      OtherTextParses(i.head, inside);
    }
  }

  lemma NoDisp()
    ensures DispText(0) == ""
  {
  }

  lemma TextSplit(i: Insn)
    ensures Text(i) == i.head + (OperandText(i.operand) + i.tail)
  {
  }

  lemma ListingParses(dec: Decoder, mem: Memory, a: int)
    requires SoundAt(dec, mem, a)
    ensures var i := At(dec, mem, a);
      ParseRip(Text(i)) == if i.operand.RipMem? && i.operand.seg == "" && i.operand.disp != 0 then Some(i.operand.disp)
        else None
  {
    var w, i := Read(mem, a, 32), At(dec, mem, a);
    hide ParseRip, SoundAt, At;
    SoundListed(dec, mem, a);
    match i.operand
    case NoMem =>
      NoBracketParses(i.head + i.tail);
    case OtherMem(body) =>
      TextOther(i);
      OtherTextParses(i.head, body + "]" + i.tail);
    case RipMem(seg, d) =>
      RipListingParses(w, i);
  }

  function Field(mem: Memory, a: int, p: int): (r: int) { Int32(Read(mem, a + p, 4)) }

  /** p is the one offset in [1, len - 4] where the instruction at a holds the value d. */
  ghost predicate OnlyField(mem: Memory, a: int, len: int, d: int, p: int) {
    && 1 <= p <= len - 4 && Field(mem, a, p) == d
    && forall q :: 1 <= q <= len - 4 && Field(mem, a, q) == d ==> q == p
  }

  datatype Rip = NotRipRel | Moved(code: seq<Byte>) | Failed(status: Status)

  /** The instruction with its displacement, found at p, made relative to address r. */
  function MovedAt(dec: Decoder, mem: Memory, a: int, r: int, d: int, p: int): (x: Rip)
    requires 0 <= p <= At(dec, mem, a).len - 4
    ensures x.Moved? ==> |x.code| == At(dec, mem, a).len
  {
    if Fits32(d - (r - a)) then Moved(Splice(Read(mem, a, At(dec, mem, a).len), p, Le(d - (r - a), 4)))
    else Failed(NotSupported)
  }

  /** LhRelocateRIPRelativeInstruction on the instruction at a, going to address r. */
  ghost function Fixup(dec: Decoder, mem: Memory, a: int, r: int): (x: Rip)
    ensures x.Moved? ==> |x.code| == At(dec, mem, a).len
  {
    var i := At(dec, mem, a);
    var d := ParseRip(Text(i));
    if d.None? then NotRipRel
    else if p :| OnlyField(mem, a, i.len, d.value, p) then MovedAt(dec, mem, a, r, d.value, p)
    else Failed(InternalError)
  }

  method Store(buffer: array<Byte>, at: int, row: seq<Byte>)
    requires 0 <= at && at + |row| <= buffer.Length
    modifies buffer
    ensures buffer[..] == Splice(old(buffer[..]), at, row)
  {
    forall i | 0 <= i < |row| {
      buffer[at + i] := row[i];
    }
  }

  /** The scan for the displacement: its offset if exactly one matches, else 0. */
  method FindField(mem: Memory, a: int, len: nat, d: int) returns (offset: int)
    ensures offset != 0 ==> OnlyField(mem, a, len, d, offset)
    ensures offset == 0 ==> forall p :: !OnlyField(mem, a, len, d, p)
  {
    offset := 0;
    var pos := 1;
    while pos <= len - 4
      invariant 1 <= pos
      invariant offset == 0 || (1 <= offset < pos && offset <= len - 4 && Field(mem, a, offset) == d)
      invariant forall q :: 1 <= q < pos && q <= len - 4 && Field(mem, a, q) == d ==> q == offset
      decreases len - pos
    {
      if Field(mem, a, pos) == d {
        if offset != 0 {
          return 0;
        }
        offset := pos;
      }
      pos := pos + 1;
    }
  }

  /** Moves a rip-relative instruction into the buffer at `pos`, whose address is r. */
  method LhRelocateRIPRelativeInstruction(dec: Decoder, mem: Memory, a: int, r: int, buffer: array<Byte>, pos: nat)
    returns (status: Option<Status>, moved: bool)
    requires SoundAt(dec, mem, a) && pos + 15 <= buffer.Length
    modifies buffer
    ensures match Fixup(dec, mem, a, r)
      case NotRipRel => status.None? && !moved && buffer[..] == old(buffer[..])
      case Moved(code) => status.None? && moved && |code| <= 15 && buffer[..] == Splice(old(buffer[..]), pos, code)
      case Failed(s) => status == Some(s) && !moved && buffer[..] == old(buffer[..])
  {
    hide ParseRip, SoundAt, OnlyField, Splice, Le, Read, At, Fixup, Text;
    var i := At(dec, mem, a);
    FixupIs(dec, mem, a, r);
    LenBound(dec, mem, a);
    assert |Text(i)| < 100 by { ListingShort(dec, mem, a); }
    var d := ReadListing(Text(i));
    if d.None? {
      return None, false;
    }
    var offset := FindField(mem, a, i.len, d.value);
    if offset == 0 {
      return Some(InternalError), false;
    }
    var rel := d.value - (r - a);
    if !Fits32(rel) {
      return Some(NotSupported), false;
    }
    var code := Splice(Read(mem, a, i.len), offset, Le(rel, 4));
    Store(buffer, pos, code);
    return None, true;
  }

  lemma FixupIs(dec: Decoder, mem: Memory, a: int, r: int)
    ensures var i := At(dec, mem, a); var d := ParseRip(Text(i)); var x := Fixup(dec, mem, a, r);
      && (d.None? ==> x == NotRipRel)
      && (d.Some? && (forall p :: !OnlyField(mem, a, i.len, d.value, p)) ==> x == Failed(InternalError))
      && (forall p :: d.Some? && OnlyField(mem, a, i.len, d.value, p) ==>
           1 <= p <= i.len - 4 && x == MovedAt(dec, mem, a, r, d.value, p))
  {
    hide ParseRip, Field, Splice, Le, Read, At, Text;
  }

  lemma ListingShort(dec: Decoder, mem: Memory, a: int)
    requires SoundAt(dec, mem, a)
    ensures |Text(At(dec, mem, a))| < 100
  {
    hide SoundAt, At, Text;
    SoundListed(dec, mem, a);
  }

  // ---- the entry point -----------------------------------------------------

  /** The relocation loop between two iterations: pOld, the prefix flag, the buffer and
      the distance of pRes from its start. */
  datatype Progress = Progress(old_: int, a16: bool, out: seq<Byte>, pos: nat)

  datatype Step = Next(p: Progress) | Stop(status: Status)

  /** The entry point and the address of the buffer. */
  datatype Job = Job(ep: int, size: nat, base: int)

  function Int16(b: seq<Byte>): (r: int)
    requires |b| == 2
  {
    Signed(UInt(b), 0x8000)
  }

  predicate IsTransfer(b: Byte) { b == 0xE8 || b == 0xE9 || b == 0xEB }

  predicate IsRejected(b1: Byte, b2: Byte) {
    b1 == 0xE3 || (b1 == 0x0F && 0x80 <= b2 < 0x90) || 0x70 <= b1 < 0x80
  }

  /** Absolute target the code computes for the call or jump at `at`. */
  function AbsTarget(mem: Memory, at: int, a16: bool): (r: int) {
    if mem(at) == 0xEB then at + 2 + Int8(mem(at + 1))
    else if a16 then at + 3 + Int16(Read(mem, at + 1, 2))
    else at + 5 + Int32(Read(mem, at + 1, 4))
  }

  /** mov rax, target; then call rax or jmp rax. */
  function Rewritten(b1: Byte, target: int): (c: seq<Byte>)
    ensures |c| == 12
  {
    [0x48, 0xB8] + Le(target, 8) + [0xFF, if b1 == 0xE8 then 0xD0 else 0xE0]
  }

  /** One iteration of the loop in LhRelocateEntryPoint. */
  ghost function Iterate(dec: Decoder, mem: Memory, j: Job, p: Progress): (r: Step) {
    var b1 := mem(p.old_);
    var start := if p.a16 then p.old_ - 1 else p.old_;
    var n := At(dec, mem, start).len;
    if b1 == 0x67 then Next(p.(old_ := p.old_ + 1, a16 := true))
    else if IsRejected(b1, mem(p.old_ + 1)) then Stop(NotSupported)
    else if p.pos + 15 > |p.out| then Stop(NoRoom)
    else if IsTransfer(b1) then
      var target := AbsTarget(mem, p.old_, p.a16);
      if j.ep <= target < j.ep + j.size then Stop(NotSupported)
      else if n == 0 then Stop(InvalidParameter)
      else Next(Progress(start + n, false, Splice(p.out, p.pos, Rewritten(b1, target)), p.pos + 12))
    else
      var x := Fixup(dec, mem, p.old_, j.base + p.pos);
      if x.Failed? then Stop(x.status)
      else if n == 0 then Stop(InvalidParameter)
      else if n > 15 || At(dec, mem, p.old_).len > 15 then Stop(NoRoom)
      else Next(Progress(start + n, false, Splice(p.out, p.pos, if x.Moved? then x.code else Read(mem, start, n)),
                         p.pos + n))
  }

  /** The buffer, the bytes emitted and where the loop stopped reading. */
  datatype Outcome = Done(out: seq<Byte>, size: nat, end: int) | Stopped(status: Status)

  /** The whole loop from p on. */
  ghost function Relocated(dec: Decoder, mem: Memory, j: Job, p: Progress): (r: Outcome)
    decreases j.ep + j.size - p.old_, p.a16
  {
    if p.old_ >= j.ep + j.size then Done(p.out, p.pos, p.old_)
    else
      match Iterate(dec, mem, j, p)
      case Stop(s) => Stopped(s)
      case Next(q) => Relocated(dec, mem, j, q)
  }

  ghost predicate IsEntrySize(dec: Decoder, mem: Memory, j: Job) {
    Round(dec, mem, j.ep, 5) == Some(j.size)
  }

  function Start(j: Job, out: seq<Byte>): (r: Progress) { Progress(j.ep, false, out, 0) }

  // ---- the loop stays on instruction boundaries and inside the buffer ------

  /** p is k prefix bytes into the instruction at boundary p.old_ - k, and has written at
      most six bytes for each byte of the finished instructions; the decoder can be trusted
      from that boundary on. */
  ghost predicate InWalk(dec: Decoder, mem: Memory, j: Job, p: Progress, k: nat) {
    var b := p.old_ - k;
    && (p.a16 <==> k > 0) && j.ep <= b && (k > 0 ==> b < j.ep + j.size)
    && (forall t :: b <= t < p.old_ ==> mem(t) == 0x67)
    && b <= j.ep + j.size && Round(dec, mem, b, 5 - (b - j.ep)) == Some(j.ep + j.size - b)
    && p.pos <= 6 * (b - j.ep) && p.pos <= 39
    && SoundCode(dec, mem, b, j.ep + j.size)
  }

  lemma PrefixedLen(dec: Decoder, mem: Memory, b: int)
    requires SoundAt(dec, mem, b) && mem(b) == 0x67 && At(dec, mem, b).len > 0
    ensures At(dec, mem, b).len >= 2
    ensures mem(b + 1) == 0x67 ==> At(dec, mem, b).len == At(dec, mem, b + 1).len + 1
  {
    hide Listed, Local, Int32, UInt, Int8;
    var w, v := Read(mem, b, 32), Read(mem, b + 1, 32);
    assert w[0] == mem(b) && w[1] == mem(b + 1);
    assert w[1..] == v[..31];
    hide Read;
    assert WellDecoded(w, dec(w)) && PrefixAdds(dec, w);
  }

  /** Behind k address-size prefixes the decoder is still to be trusted. */
  lemma {:induction false} SoundChain(dec: Decoder, mem: Memory, b: int, k: nat, end: int)
    requires SoundCode(dec, mem, b, end) && forall t :: b <= t < b + k ==> mem(t) == 0x67
    ensures b + k < end ==> SoundCode(dec, mem, b + k, end) && SoundAt(dec, mem, b + k)
    decreases k
  {
    hide SoundAt, At;
    if k > 0 && b + k < end {
      SoundChain(dec, mem, b + 1, k - 1, end);
    }
  }

  lemma {:induction false} PrefixChain(dec: Decoder, mem: Memory, b: int, k: nat, end: int)
    requires SoundCode(dec, mem, b, end) && 0 < k <= end - b && At(dec, mem, b).len > 0
    requires forall t :: b <= t < b + k ==> mem(t) == 0x67
    ensures At(dec, mem, b).len == k - 1 + At(dec, mem, b + k - 1).len
    ensures At(dec, mem, b + k - 1).len >= 2
    decreases k
  {
    hide SoundAt, At;
    PrefixedLen(dec, mem, b);
    if k > 1 {
      PrefixChain(dec, mem, b + 1, k - 1, end);
    }
  }

  lemma TransferLen(dec: Decoder, mem: Memory, a: int)
    requires SoundAt(dec, mem, a)
    ensures At(dec, mem, a).len <= 15
    ensures IsTransfer(mem(a)) ==> At(dec, mem, a).len >= 2
  {
    var w := Read(mem, a, 32);
    assert w[0] == mem(a) && WellDecoded(w, dec(w));
  }

  /** The instruction an iteration in the walk handles, and where it ends. */
  lemma WalkAt(dec: Decoder, mem: Memory, j: Job, p: Progress, k: nat)
    requires InWalk(dec, mem, j, p, k) && p.old_ < j.ep + j.size
    ensures var b, start := p.old_ - k, if p.a16 then p.old_ - 1 else p.old_;
      && b - j.ep < 5 && At(dec, mem, b).len > 0
      && b + At(dec, mem, b).len == start + At(dec, mem, start).len
      && (k > 0 ==> At(dec, mem, start).len >= 2)
      && Round(dec, mem, b + At(dec, mem, b).len, 5 - (b + At(dec, mem, b).len - j.ep))
         == Some(j.ep + j.size - b - At(dec, mem, b).len)
      && SoundCode(dec, mem, b + At(dec, mem, b).len, j.ep + j.size)
  {
    hide SoundAt, At;
    var b := p.old_ - k;
    if k > 0 {
      PrefixChain(dec, mem, b, k, j.ep + j.size);
    }
  }

  /** The windows an iteration looks at. */
  lemma WalkSound(dec: Decoder, mem: Memory, j: Job, p: Progress, k: nat)
    requires InWalk(dec, mem, j, p, k) && p.old_ < j.ep + j.size
    ensures SoundAt(dec, mem, p.old_) && SoundAt(dec, mem, if p.a16 then p.old_ - 1 else p.old_)
  {
    hide SoundAt, At, Round;
    var b, end := p.old_ - k, j.ep + j.size;
    SoundChain(dec, mem, b, k, end);
    if k > 0 {
      SoundChain(dec, mem, b, k - 1, end);
    }
  }

  lemma WalkPrefix(dec: Decoder, mem: Memory, j: Job, p: Progress, k: nat)
    requires InWalk(dec, mem, j, p, k) && p.old_ < j.ep + j.size && mem(p.old_) == 0x67
    ensures InWalk(dec, mem, j, p.(old_ := p.old_ + 1, a16 := true), k + 1)
  {
    hide SoundCode, At, Round;
  }

  /** Any bytes an iteration may emit keep the walk. */
  lemma WalkEmit(dec: Decoder, mem: Memory, j: Job, p: Progress, k: nat, start: int, out: seq<Byte>, emitted: nat)
    requires InWalk(dec, mem, j, p, k) && p.old_ < j.ep + j.size
    requires start == if p.a16 then p.old_ - 1 else p.old_
    requires var n := At(dec, mem, start).len; emitted == n <= 15 || (emitted == 12 && n >= 2)
    ensures InWalk(dec, mem, j, Progress(start + At(dec, mem, start).len, false, out, p.pos + emitted), 0)
  {
    hide SoundCode, At, Round;
    WalkAt(dec, mem, j, p, k);
    RoundPositive(dec, mem, p.old_ - k + At(dec, mem, p.old_ - k).len,
                  5 - (p.old_ - k + At(dec, mem, p.old_ - k).len - j.ep));
  }

  lemma RoundPositive(dec: Decoder, mem: Memory, a: int, need: int)
    ensures var r := Round(dec, mem, a, need); r.Some? ==> r.value >= 0
  {
  }

  /** Every iteration keeps the walk, and the buffer never runs out. */
  lemma WalkStep(dec: Decoder, mem: Memory, j: Job, p: Progress, k: nat)
    requires InWalk(dec, mem, j, p, k) && p.old_ < j.ep + j.size && |p.out| >= 100
    ensures var x := Iterate(dec, mem, j, p);
      && x != Stop(NoRoom)
      && (x.Next? ==> |x.p.out| == |p.out| && InWalk(dec, mem, j, x.p, if mem(p.old_) == 0x67 then k + 1 else 0))
  {
    hide SoundAt, SoundCode, At, InWalk, Splice, Rewritten, AbsTarget, IsRejected, Fixup;
    WalkPos(dec, mem, j, p, k);
    WalkSound(dec, mem, j, p, k);
    TransferLen(dec, mem, p.old_);
    TransferLen(dec, mem, if p.a16 then p.old_ - 1 else p.old_);
    FixupStatus(dec, mem, p.old_, j.base + p.pos);
    if mem(p.old_) == 0x67 {
      WalkPrefix(dec, mem, j, p, k);
    } else {
      var x := Iterate(dec, mem, j, p);
      var start := if p.a16 then p.old_ - 1 else p.old_;
      if x.Next? {
        if IsTransfer(mem(p.old_)) {
          PrefixedTwo(dec, mem, j, p, k);
          WalkEmit(dec, mem, j, p, k, start, x.p.out, 12);
        } else {
          WalkEmit(dec, mem, j, p, k, start, x.p.out, At(dec, mem, start).len);
        }
      }
    }
  }

  lemma PrefixedTwo(dec: Decoder, mem: Memory, j: Job, p: Progress, k: nat)
    requires InWalk(dec, mem, j, p, k) && p.old_ < j.ep + j.size && IsTransfer(mem(p.old_))
    ensures At(dec, mem, if p.a16 then p.old_ - 1 else p.old_).len >= 2
  {
    hide SoundAt, At, InWalk;
    WalkAt(dec, mem, j, p, k);
    WalkSound(dec, mem, j, p, k);
    WalkFlag(dec, mem, j, p, k);
    TransferLen(dec, mem, p.old_);
  }

  lemma WalkFlag(dec: Decoder, mem: Memory, j: Job, p: Progress, k: nat)
    requires InWalk(dec, mem, j, p, k)
    ensures p.a16 <==> k > 0
  {
  }

  lemma FixupStatus(dec: Decoder, mem: Memory, a: int, r: int)
    ensures Fixup(dec, mem, a, r) != Failed(NoRoom)
  {
  }

  lemma WalkEnds(dec: Decoder, mem: Memory, j: Job, p: Progress, k: nat)
    requires InWalk(dec, mem, j, p, k) && p.old_ >= j.ep + j.size
    ensures k == 0 && p.old_ == j.ep + j.size
  {
    hide SoundAt, At;
    if k > 0 {
      var b, end := p.old_ - k, j.ep + j.size;
      RoundNeeds(dec, mem, b, 5 - (b - j.ep));
      PrefixChain(dec, mem, b, end - b, end);
      RoundSpans(dec, mem, b, 5 - (b - j.ep));
    }
  }

  lemma RoundSpans(dec: Decoder, mem: Memory, a: int, need: int)
    ensures var r := Round(dec, mem, a, need); need > 0 && r.Some? ==> r.value >= At(dec, mem, a).len
  {
  }

  lemma RoundNeeds(dec: Decoder, mem: Memory, a: int, need: int)
    ensures var r := Round(dec, mem, a, need); r.Some? && r.value > 0 ==> need > 0 && At(dec, mem, a).len > 0
  {
  }

  lemma WalkStarts(dec: Decoder, mem: Memory, j: Job, out: seq<Byte>)
    requires IsEntrySize(dec, mem, j) && SoundCode(dec, mem, j.ep, j.ep + j.size)
    ensures InWalk(dec, mem, j, Start(j, out), 0)
  {
  }

  /** From the entry point on, the loop never runs out of a 100-byte buffer, stops exactly
      at the boundary the caller rounded to, and leaves at most 39 bytes. */
  lemma {:induction false} RelocationFits(dec: Decoder, mem: Memory, j: Job, p: Progress, k: nat)
    requires InWalk(dec, mem, j, p, k) && |p.out| >= 100
    ensures var x := Relocated(dec, mem, j, p);
      x != Stopped(NoRoom) && (x.Done? ==> x.end == j.ep + j.size && x.size <= 39 && |x.out| == |p.out|)
    decreases j.ep + j.size - p.old_, p.a16
  {
    hide Iterate, InWalk;
    if p.old_ < j.ep + j.size {
      WalkStep(dec, mem, j, p, k);
      match Iterate(dec, mem, j, p)
      case Stop(_) =>
      case Next(q) =>
        IterateAdvances(dec, mem, j, p);
        RelocationFits(dec, mem, j, q, if mem(p.old_) == 0x67 then k + 1 else 0);
    } else {
      WalkPos(dec, mem, j, p, k);
      WalkEnds(dec, mem, j, p, k);
    }
  }

  lemma WalkPos(dec: Decoder, mem: Memory, j: Job, p: Progress, k: nat)
    requires InWalk(dec, mem, j, p, k)
    ensures p.pos <= 39
    ensures p.old_ < j.ep + j.size ==> p.pos <= 24
  {
    hide At;
    if p.old_ < j.ep + j.size {
      RoundNeeds(dec, mem, p.old_ - k, 5 - (p.old_ - k - j.ep));
    }
  }

  lemma IterateAdvances(dec: Decoder, mem: Memory, j: Job, p: Progress)
    ensures var x := Iterate(dec, mem, j, p);
      x.Next? ==> x.p.old_ > p.old_ || (x.p.old_ == p.old_ && p.a16 && !x.p.a16)
  {
  }

  /** LhRelocateEntryPoint, called with the size its caller rounds to. */
  method LhRelocateEntryPoint(dec: Decoder, mem: Memory, j: Job, buffer: array<Byte>)
    returns (status: Option<Status>, relocSize: nat)
    requires SoundCode(dec, mem, j.ep, j.ep + j.size) && IsEntrySize(dec, mem, j) && buffer.Length >= 100
    modifies buffer
    ensures match Relocated(dec, mem, j, Start(j, old(buffer[..])))
      case Done(out, n, end) => status.None? && relocSize == n && buffer[..] == out && end == j.ep + j.size
      case Stopped(s) => status == Some(s)
    ensures status != Some(NoRoom) && relocSize <= 39
  {
    hide SoundAt, SoundCode, InWalk, IsEntrySize, Iterate;
    ghost var p := Start(j, buffer[..]);
    ghost var k: nat := 0;
    WalkStarts(dec, mem, j, buffer[..]);
    RelocationFits(dec, mem, j, p, 0);
    var pOld, a16, pos := j.ep, false, 0;
    while pOld < j.ep + j.size
      invariant p == Progress(pOld, a16, buffer[..], pos)
      invariant InWalk(dec, mem, j, p, k)
      invariant Relocated(dec, mem, j, p) == Relocated(dec, mem, j, Start(j, old(buffer[..])))
      decreases j.ep + j.size - pOld, a16
    {
      WalkStep(dec, mem, j, p, k);
      WalkPos(dec, mem, j, p, k);
      WalkSound(dec, mem, j, p, k);
      IterateAdvances(dec, mem, j, p);
      k := if mem(p.old_) == 0x67 then k + 1 else 0;
      ghost var x := Iterate(dec, mem, j, p);
      if mem(pOld) == 0x67 {
        a16 := true;
        pOld := pOld + 1;
      } else {
        var stop: Option<Status>;
        stop, pOld, pos := RelocateOne(dec, mem, j, pOld, a16, buffer, pos);
        if stop.Some? {
          return stop, 0;
        }
        a16 := false;
      }
      assert x == Next(Progress(pOld, a16, buffer[..], pos)) by { PrefixIterate(dec, mem, j, p); }
      p := x.p;
    }
    return None, pos;
  }

  lemma PrefixIterate(dec: Decoder, mem: Memory, j: Job, p: Progress)
    ensures mem(p.old_) == 0x67 ==> Iterate(dec, mem, j, p) == Next(p.(old_ := p.old_ + 1, a16 := true))
  {
  }

  /** The body of the loop behind the prefix check. */
  method RelocateOne(dec: Decoder, mem: Memory, j: Job, pOld: int, a16: bool, buffer: array<Byte>, pos: nat)
    returns (status: Option<Status>, next: int, newPos: nat)
    requires SoundAt(dec, mem, pOld) && SoundAt(dec, mem, if a16 then pOld - 1 else pOld)
    requires mem(pOld) != 0x67 && pos + 15 <= buffer.Length
    modifies buffer
    ensures match Iterate(dec, mem, j, Progress(pOld, a16, old(buffer[..]), pos))
      case Stop(s) => status == Some(s)
      case Next(q) => status.None? && q == Progress(next, false, buffer[..], newPos)
  {
    hide SoundAt, Fixup, At;
    ghost var before := buffer[..];
    next, newPos := pOld, pos;
    var b1 := mem(pOld);
    if IsRejected(b1, mem(pOld + 1)) {
      return Some(NotSupported), next, newPos;
    }
    var start := if a16 then pOld - 1 else pOld;
    var n := At(dec, mem, start).len;
    TransferLen(dec, mem, start);
    TransferLen(dec, mem, pOld);
    if IsTransfer(b1) {
      var target := AbsTarget(mem, pOld, a16);
      if j.ep <= target < j.ep + j.size {
        return Some(NotSupported), next, newPos;
      }
      Store(buffer, pos, Rewritten(b1, target));
      newPos := pos + 12;
    } else {
      var stop, moved := LhRelocateRIPRelativeInstruction(dec, mem, pOld, j.base + pos, buffer, pos);
      if stop.Some? {
        return stop, next, newPos;
      }
      if !moved {
        Store(buffer, pos, Read(mem, start, n));
      }
      newPos := pos + n;
    }
    if n == 0 {
      return Some(InvalidParameter), next, newPos;
    }
    return None, start + n, newPos;
  }
}
