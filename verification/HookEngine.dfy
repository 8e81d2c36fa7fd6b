/** The life of EasyHook's hooks as values: the slot table, the two hook lists and the
    patched code bytes, under install, uninstall, uninstall-all and wait. */
module HookEngine {
  import opened Bytes
  import opened Wrappers

  const MAX_HOOKS: nat := 1024
  const FIRST_IDENT: int := 0x1000_0000
  const WAIT_BUDGET: int := 1000
  const WAIT_SLICE: int := 25

  /** What a hook record keeps: its target and trampoline, the eight bytes at the target before
      and after patching, its identity and its slot. */
  datatype Hook = Hook(target: int, trampoline: int, backup: seq<Byte>, copy: seq<Byte>, ident: int, index: nat)

  /** The global state. `list` and `removal` are the chains behind the two list heads;
      `dropped` are the hooks that are installed but on neither list. */
  datatype Engine = Engine(mem: seq<Byte>, slots: seq<int>, counter: int, list: seq<Hook>, removal: seq<Hook>,
                           dropped: set<Hook>)

  predicate InMem(mem: seq<Byte>, target: int) { 0 <= target && target + 8 <= |mem| }

  function Window(mem: seq<Byte>, target: int): (w: seq<Byte>)
    requires InMem(mem, target)
    ensures |w| == 8
  {
    mem[target..target + 8]
  }

  /** The jump planted at a target. */
  function Jump(target: int, trampoline: int): (j: seq<Byte>)
    ensures |j| == 5
  {
    [0xE9] + Le(trampoline - (target + 5), 4)
  }

  // ---- steps ---------------------------------------------------------------

  /** A jump at the target can name the trampoline. */
  predicate InReach(target: int, trampoline: int) { Fits32(trampoline - (target + 5)) }

  /** LhInstallHook, once the hook is allocated. Nothing happens when its trampoline is out of
      reach; the identity is used up even when no slot is free. */
  function Install(e: Engine, target: int, trampoline: int): (r: (Engine, Option<Hook>))
    requires InMem(e.mem, target)
  {
    if !InReach(target, trampoline) then (e, None) else
    var f := e.(counter := e.counter + 1);
    var at := Find(e.slots, 0);
    if at.None? then (f, None)
    else
      var was := Window(e.mem, target);
      var h := Hook(target, trampoline, was, Jump(target, trampoline) + was[5..], e.counter, at.value);
      (f.(mem := Splice(e.mem, target, h.copy), slots := e.slots[at.value := e.counter], list := [h] + e.list), Some(h))
  }

  predicate Installed(e: Engine, h: Hook) { h in e.list || h in e.dropped }

  function Elements(s: seq<Hook>): (r: set<Hook>) { set h | h in s }

  /** LhUninstallHook on a handle of h. The search for the predecessor never leaves the list
      head, so everything in front of h falls off the list with it. */
  function Uninstall(e: Engine, h: Hook): (r: Engine) {
    if !Installed(e, h) then e
    else
      var f := e.(removal := [h] + e.removal);
      var at := Find(e.list, h);
      if at.None? then f.(dropped := e.dropped - {h})
      else f.(list := e.list[at.value + 1..], dropped := e.dropped + Elements(e.list[..at.value]))
  }

  function Reverse(s: seq<Hook>): (r: seq<Hook>)
    ensures |r| == |s|
    ensures forall h :: h in r <==> h in s
  {
    if s == [] then [] else Reverse(s[1..]) + [s[0]]
  }

  /** LhUninstallAllHooks: newest first onto the removal list. */
  function UninstallAll(e: Engine): (r: Engine) {
    e.(list := [], removal := Reverse(e.list) + e.removal)
  }

  /** What the execution counter of a hook shows at each read of a counter. */
  type Counters = (Hook, nat) -> int

  /** Reads of one execution counter until it is not positive or the budget is used up; one
      sleep between two reads. */
  datatype Poll = Poll(next: nat, budget: int, idle: bool)

  function PollCounter(shown: Counters, h: Hook, next: nat, budget: int): (p: Poll)
    ensures p.next > next && p.budget <= budget
    ensures budget >= 0 && budget % WAIT_SLICE == 0 ==> p.budget >= 0 && p.budget % WAIT_SLICE == 0
    ensures p.idle ==> shown(h, p.next - 1) <= 0
    ensures !p.idle ==> p.budget <= 0 && forall i :: next <= i < p.next ==> shown(h, i) > 0
    decreases budget
  {
    if shown(h, next) <= 0 then Poll(next + 1, budget, true)
    else if budget <= 0 then Poll(next + 1, budget, false)
    else PollCounter(shown, h, next + 1, budget - WAIT_SLICE)
  }

  /** What a wait leaves: the engine, the reads made, the budget left, whether any hook
      timed out, and the hooks whose memory was freed. */
  datatype Waited = Waited(e: Engine, next: nat, budget: int, timedOut: bool, freed: seq<Hook>)

  /** The removal of the hook at the head of the removal list. */
  function DrainOne(w: Waited, shown: Counters): (v: Waited)
    requires w.e.removal != []
  {
    var h := w.e.removal[0];
    var e := w.e.(removal := w.e.removal[1..]);
    if !InMem(e.mem, h.target) || |h.backup| != 8 || Window(e.mem, h.target) != h.copy then w.(e := e)
    else
      var f := e.(mem := Splice(e.mem, h.target, h.backup));
      var p := PollCounter(shown, h, w.next, w.budget);
      if p.idle then
        var slots := if h.index < |f.slots| && f.slots[h.index] == h.ident then f.slots[h.index := 0] else f.slots;
        Waited(f.(slots := slots), p.next, p.budget, w.timedOut, w.freed + [h])
      else Waited(f, p.next, p.budget, true, w.freed)
  }

  function Drain(w: Waited, shown: Counters): (v: Waited)
    decreases |w.e.removal|
  {
    if w.e.removal == [] then w else Drain(DrainOne(w, shown), shown)
  }

  /** LhWaitForPendingRemovals; `shown` tells what the execution counters show, read after
      read. */
  function Wait(e: Engine, shown: Counters): (r: Waited) {
    Drain(Waited(e, 0, WAIT_BUDGET, false, []), shown)
  }
}
