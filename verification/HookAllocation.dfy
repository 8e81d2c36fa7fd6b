/** EasyHook's LhAllocateHook up to the placeholders: a page near the target, the relocated
    entry point on it and the jump back, put together. */
module HookAllocation {
  import opened Bytes
  import opened Wrappers
  import opened X64
  import opened Reloc
  import opened RelocMeaning
  import opened PageSearch

  datatype Refusal = NoMemory | Undecodable | Unmovable(status: Status) | OutOfReach

  /** What an allocated hook has to offer: `code` at `base` goes on behind the first
      entrySize bytes of the target with the effects these had. */
  ghost predicate Replaces(dec: Decoder, mem: Memory, entry: int, entrySize: nat, base: int, code: seq<Byte>) {
    SameMeaning(Exec(dec, mem, entry, entry + entrySize, None),
                Exec(dec, Overlay(mem, base, code), base, base + |code|, None))
  }

  /** The relocation code handles what control reaches in the target, and the decoder can be
      trusted with what it emitted. */
  ghost predicate Movable(dec: Decoder, mem: Memory, entry: int, entrySize: nat, base: int, code: seq<Byte>) {
    ReachedHandled(dec, mem, entry, entry + entrySize) && SoundCode(dec, Overlay(mem, base, code), base, base + |code|)
  }

  /** LhAllocateHook: `free` says where an allocation succeeds, `record` and `trampoline` are
      the sizes of what stands on the page in front of the moved code. */
  method LhAllocateHook(dec: Decoder, mem: Memory, entry: int, pages: nat, minApp: int, maxApp: int, free: int -> bool,
                        record: nat, trampoline: nat)
    returns (refused: Option<Refusal>, hook: int, base: int, entrySize: nat, code: seq<Byte>)
    requires Round(dec, mem, entry, 5).Some? ==> SoundCode(dec, mem, entry, entry + Round(dec, mem, entry, 5).value)
    requires pages > 0 && minApp <= entry <= maxApp && SizesFit(record, trampoline)
    ensures refused != Some(OutOfReach) && refused != Some(Unmovable(NoRoom))
    ensures refused == Some(NoMemory) <==>
      forall k: nat :: !Hit(entry, 4096 * pages, Low(entry, minApp), High(entry, maxApp), free, k)
    ensures refused == Some(Undecodable) ==> Round(dec, mem, entry, 5).None?
    ensures refused.None? ==>
      && free(hook) && Tried(entry, 4096 * pages, Low(entry, minApp), High(entry, maxApp), hook)
      && base == hook + record + trampoline
      && Round(dec, mem, entry, 5) == Some(entrySize) && 5 <= entrySize < 20
      && 5 <= |code| <= 44
      && Fits32(hook + record - (entry + 5))
    ensures refused.None? && Movable(dec, mem, entry, entrySize, base, code) ==>
      Replaces(dec, mem, entry, entrySize, base, code)
  {
    hide SoundCode, Relocated, Tried, ReachedHandled, Hit, Replaces, Round, Overlay;
    hook, base, entrySize, code := 0, 0, 0, [];
    var page := LhAllocateMemoryEx(entry, 4096 * pages, minApp, maxApp, free);
    if page.None? { return Some(NoMemory), hook, base, entrySize, code; }
    hook := page.value;
    var rounded := LhRoundToNextInstruction(dec, mem, entry, 5);
    if rounded.None? { return Some(Undecodable), hook, base, entrySize, code; }
    entrySize := rounded.value;
    base := hook + record + trampoline;
    var j := Job(entry, entrySize, base);
    var oldProc := new Byte[4096 * pages - record - trampoline](_ => 0);
    ghost var before := oldProc[..];
    var status, size := LhRelocateEntryPoint(dec, mem, j, oldProc);
    if status.Some? { return Some(Unmovable(status.value)), hook, base, entrySize, code; }
    ghost var out := oldProc[..];
    EntryIsShort(dec, mem, j);
    NeverOutOfReach(dec, mem, j, before, pages, minApp, maxApp, hook, record, trampoline, entry, base);
    var back := entry + entrySize - (base + size + 5);
    if !Fits32(back) { return Some(OutOfReach), hook, base, entrySize, code; }
    Store(oldProc, size, [0xE9] + Le(back, 4));
    code := oldProc[..size + 5];
    assert code == out[..size] + ([0xE9] + Le(back, 4));
    if Movable(dec, mem, entry, entrySize, base, code) {
      MeaningKept(dec, mem, j, before, out, size, code);
    }
    refused := None;
  }

  lemma MeaningKept(dec: Decoder, mem: Memory, j: Job, before: seq<Byte>, out: seq<Byte>, size: nat, code: seq<Byte>)
    requires SoundCode(dec, mem, j.ep, j.ep + j.size) && IsEntrySize(dec, mem, j) && |before| >= 100
    requires ReachedHandled(dec, mem, j.ep, j.ep + j.size)
    requires SoundCode(dec, Overlay(mem, j.base, code), j.base, j.base + size + 5)
    requires Relocated(dec, mem, j, Start(j, before)) == Done(out, size, j.ep + j.size) && size <= |out|
    requires var back := j.ep + j.size - (j.base + size + 5);
      Fits32(back) && code == out[..size] + ([0xE9] + Le(back, 4))
    ensures Replaces(dec, mem, j.ep, j.size, j.base, code)
  {
    hide SoundCode, IsEntrySize, Relocated, ReachedHandled, Exec, SameMeaning, Overlay;
    CanBePlanted(mem, j, out, size);
    RelocationPreservesMeaning(dec, mem, j, before, out, size, Overlay(mem, j.base, code));
  }
}
