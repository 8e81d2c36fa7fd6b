/** What every run of install, uninstall, uninstall-all and wait keeps, when no two live
    hooks patch the same bytes; and what is lost when hooks are not removed newest first. */
module HookRuns {
  import opened Bytes
  import opened Wrappers
  import opened HookEngine

  /** Every hook whose record is still reachable or whose code is still patched. */
  ghost function Live(e: Engine): (r: set<Hook>) { Elements(e.list) + Elements(e.removal) + e.dropped }

  ghost predicate Apart(t: int, u: int) { t + 8 <= u || u + 8 <= t }

  /** What was planted is the jump to the hook's own trampoline. */
  ghost predicate Jumps(h: Hook) {
    InReach(h.target, h.trampoline) && |h.copy| == 8 && h.copy[..5] == Jump(h.target, h.trampoline)
  }

  /** The patched window of a live hook: its jump, then the original bytes; and its slot. */
  ghost predicate HookOk(e: Engine, orig: seq<Byte>, h: Hook) {
    && |orig| == |e.mem| && InMem(e.mem, h.target)
    && h.backup == Window(orig, h.target)
    && |h.copy| == 8 && h.copy[5..] == h.backup[5..] && Window(e.mem, h.target) == h.copy
    && h.index < |e.slots| && e.slots[h.index] == h.ident && FIRST_IDENT <= h.ident < e.counter
    && Jumps(h)
  }

  ghost predicate NoDup(s: seq<Hook>) { forall i, j :: 0 <= i < j < |s| ==> s[i] != s[j] }

  ghost predicate Outside(e: Engine, a: int) { forall h :: h in Live(e) ==> a < h.target || h.target + 8 <= a }

  ghost predicate Inv(e: Engine, orig: seq<Byte>) {
    && |e.slots| == MAX_HOOKS && e.counter >= FIRST_IDENT && |orig| == |e.mem|
    && (forall h :: h in Live(e) ==> HookOk(e, orig, h))
    && (forall h, k :: h in Live(e) && k in Live(e) && h != k ==> Apart(h.target, k.target) && h.ident != k.ident)
    && (forall a :: 0 <= a < |e.mem| && Outside(e, a) ==> e.mem[a] == orig[a])
    && NoDup(e.list) && NoDup(e.removal)
    && Elements(e.list) !! Elements(e.removal) && Elements(e.list) !! e.dropped && Elements(e.removal) !! e.dropped
  }

  // ---- install -------------------------------------------------------------

  lemma SpliceWindow(mem: seq<Byte>, t: int, w: seq<Byte>, u: int)
    requires InMem(mem, t) && |w| == 8 && InMem(mem, u)
    ensures t == u ==> Window(Splice(mem, t, w), u) == w
    ensures Apart(t, u) ==> Window(Splice(mem, t, w), u) == Window(mem, u)
  {
    var n := Splice(mem, t, w);
    assert forall i :: 0 <= i < 8 ==> n[t + i] == w[i];
    assert forall a :: 0 <= a < |mem| && (a < t || t + 8 <= a) ==> n[a] == mem[a];
  }

  lemma ElementsCons(h: Hook, s: seq<Hook>)
    ensures Elements([h] + s) == Elements(s) + {h}
  {
    var t := [h] + s;
    assert t[0] == h;
    forall x | x in s
      ensures x in t
    {
      var i :| 0 <= i < |s| && s[i] == x;
      assert t[i + 1] == x;
    }
  }

  lemma NoDupCons(h: Hook, s: seq<Hook>)
    requires NoDup(s) && h !in s
    ensures NoDup([h] + s)
  {
  }

  /** A target far enough from every live hook. */
  ghost predicate Hookable(e: Engine, target: int) {
    InMem(e.mem, target) && forall h :: h in Live(e) ==> Apart(target, h.target)
  }

  lemma ClearWindow(e: Engine, orig: seq<Byte>, t: int)
    requires Inv(e, orig) && Hookable(e, t)
    ensures InMem(orig, t) && InMem(e.mem, t) && Window(e.mem, t) == Window(orig, t)
  {
    forall a | t <= a < t + 8
      ensures e.mem[a] == orig[a]
    {
      assert Outside(e, a);
    }
  }

  lemma InstallKeeps(e: Engine, orig: seq<Byte>, target: int, trampoline: int)
    requires Inv(e, orig) && Hookable(e, target)
    ensures Inv(Install(e, target, trampoline).0, orig)
    ensures Install(e, target, trampoline).1.Some? ==>
      Live(Install(e, target, trampoline).0) == Live(e) + {Install(e, target, trampoline).1.value}
  {
    hide Le, InReach;
    var (f, r) := Install(e, target, trampoline);
    if r.Some? {
      ElementsCons(r.value, e.list);
      assert Live(f) == Live(e) + {r.value};
      FreshHook(e, orig, target, r.value);
      InstalledKeeps(e, orig, f, r.value);
    } else {
      assert Live(f) == Live(e);
      assert forall k :: k in Live(f) ==> HookOk(e, orig, k);
      assert forall a :: Outside(f, a) ==> Outside(e, a);
    }
  }

  /** Writing a window leaves a hook elsewhere in order. */
  lemma OtherHookOk(e: Engine, orig: seq<Byte>, f: Engine, t: int, w: seq<Byte>, k: Hook)
    requires HookOk(e, orig, k) && Apart(t, k.target) && InMem(e.mem, t) && |w| == 8 && f.mem == Splice(e.mem, t, w)
    requires |f.slots| == |e.slots| && f.slots[k.index] == e.slots[k.index] && f.counter >= e.counter
    ensures HookOk(f, orig, k)
  {
    hide Jumps, Window, Splice;
    SpliceWindow(e.mem, t, w, k.target);
  }

  /** And its own hook. */
  lemma PlantedHookOk(e: Engine, orig: seq<Byte>, f: Engine, h: Hook)
    requires |orig| == |e.mem| && InMem(e.mem, h.target) && |h.copy| == 8 && h.backup == Window(orig, h.target)
    requires h.copy[5..] == h.backup[5..] && Jumps(h) && f.mem == Splice(e.mem, h.target, h.copy)
    requires h.index < |f.slots| && f.slots[h.index] == h.ident && FIRST_IDENT <= h.ident < f.counter
    ensures HookOk(f, orig, h)
  {
    hide Jumps, Window, Splice;
    SpliceWindow(e.mem, h.target, h.copy, h.target);
  }

  lemma OutsideAll(e: Engine, orig: seq<Byte>, f: Engine, h: Hook)
    requires Inv(e, orig) && InMem(e.mem, h.target) && |h.copy| == 8 && f.mem == Splice(e.mem, h.target, h.copy)
    requires Live(f) == Live(e) + {h}
    ensures |f.mem| == |orig| && forall a :: 0 <= a < |f.mem| && Outside(f, a) ==> f.mem[a] == orig[a]
  {
    hide HookOk, NoDup;
    forall a | 0 <= a < |f.mem| && Outside(f, a)
      ensures f.mem[a] == orig[a]
    {
      assert h in Live(f);
      assert Outside(e, a);
    }
  }

  /** Planting one fresh hook. */
  lemma InstalledKeeps(e: Engine, orig: seq<Byte>, f: Engine, h: Hook)
    requires Inv(e, orig) && Hookable(e, h.target) && h !in Live(e)
    requires |h.copy| == 8 && h.backup == Window(orig, h.target) && h.copy[5..] == h.backup[5..]
    requires h.index < |e.slots| && e.slots[h.index] == 0 && h.ident == e.counter && Jumps(h)
    requires f == e.(counter := e.counter + 1, mem := Splice(e.mem, h.target, h.copy),
                     slots := e.slots[h.index := h.ident], list := [h] + e.list)
    requires Live(f) == Live(e) + {h} && Elements(f.list) == Elements(e.list) + {h}
    ensures Inv(f, orig)
  {
    hide Jumps, Window, Splice, Outside, NoDup;
    PlantedHookOk(e, orig, f, h);
    OutsideAll(e, orig, f, h);
    forall k | k in Live(e)
      ensures HookOk(f, orig, k) && Apart(h.target, k.target) && h.ident != k.ident
    {
      assert HookOk(e, orig, k);
      OtherHookOk(e, orig, f, h.target, h.copy, k);
    }
    hide HookOk;
    NoDupCons(h, e.list);
    assert h !in Elements(e.removal) && h !in e.dropped;
  }

  /** The bytes saved at a fresh target are the original ones. */
  lemma FreshHook(e: Engine, orig: seq<Byte>, target: int, h: Hook)
    requires Inv(e, orig) && Hookable(e, target) && Find(e.slots, 0).Some?
    requires h.target == target && h.ident == e.counter
    ensures Window(e.mem, target) == Window(orig, target)
    ensures h !in Live(e)
  {
    forall a | target <= a < target + 8
      ensures e.mem[a] == orig[a]
    {
      assert Outside(e, a);
    }
    assert !Apart(target, h.target);
  }

  // ---- uninstall -----------------------------------------------------------

  /** Moving hooks between the lists changes nothing else. */
  lemma Relinked(e: Engine, orig: seq<Byte>, f: Engine)
    requires Inv(e, orig)
    requires f.mem == e.mem && f.slots == e.slots && f.counter == e.counter && Live(f) == Live(e)
    requires NoDup(f.list) && NoDup(f.removal)
    requires Elements(f.list) !! Elements(f.removal) && Elements(f.list) !! f.dropped
    requires Elements(f.removal) !! f.dropped
    ensures Inv(f, orig)
  {
    assert forall h :: h in Live(f) ==> HookOk(e, orig, h);
    assert forall a :: Outside(f, a) ==> Outside(e, a);
  }

  lemma SplitElements(s: seq<Hook>, i: nat)
    requires NoDup(s) && i < |s|
    ensures Elements(s) == Elements(s[..i]) + {s[i]} + Elements(s[i + 1..])
    ensures Elements(s[..i]) !! {s[i]} && Elements(s[..i]) !! Elements(s[i + 1..]) && s[i] !in s[i + 1..]
    ensures NoDup(s[i + 1..])
  {
    assert s == s[..i] + [s[i]] + s[i + 1..];
  }

  lemma UninstallKeeps(e: Engine, orig: seq<Byte>, h: Hook)
    requires Inv(e, orig)
    ensures Inv(Uninstall(e, h), orig) && Live(Uninstall(e, h)) == Live(e)
  {
    if Installed(e, h) {
      var f := Uninstall(e, h);
      ElementsCons(h, e.removal);
      NoDupCons(h, e.removal);
      var at := Find(e.list, h);
      if at.Some? {
        SplitElements(e.list, at.value);
      }
      Relinked(e, orig, f);
    }
  }

  lemma {:induction false} ReverseNoDup(s: seq<Hook>)
    requires NoDup(s)
    ensures NoDup(Reverse(s)) && Elements(Reverse(s)) == Elements(s)
  {
    if s != [] {
      assert NoDup(s[1..]) && s[0] !in s[1..];
      ReverseNoDup(s[1..]);
    }
  }

  lemma ElementsJoin(s: seq<Hook>, t: seq<Hook>)
    ensures Elements(s + t) == Elements(s) + Elements(t)
    ensures NoDup(s) && NoDup(t) && Elements(s) !! Elements(t) ==> NoDup(s + t)
  {
    assert forall h :: h in s + t <==> h in s || h in t;
    if NoDup(s) && NoDup(t) && Elements(s) !! Elements(t) {
      forall i, j | 0 <= i < j < |s + t|
        ensures (s + t)[i] != (s + t)[j]
      {
        if i < |s| <= j {
          assert s[i] in Elements(s) && t[j - |s|] in Elements(t);
        }
      }
    }
  }

  lemma UninstallAllKeeps(e: Engine, orig: seq<Byte>)
    requires Inv(e, orig)
    ensures Inv(UninstallAll(e), orig) && Live(UninstallAll(e)) == Live(e)
  {
    ReverseNoDup(e.list);
    ElementsJoin(Reverse(e.list), e.removal);
    assert Elements([]) == {};
    Relinked(e, orig, UninstallAll(e));
  }

  // ---- wait ----------------------------------------------------------------

  /** The live hooks and lists once the head of the removal list is gone. */
  lemma HeadRemoved(e: Engine, f: Engine)
    requires e.removal != [] && NoDup(e.removal)
    requires Elements(e.list) !! Elements(e.removal) && Elements(e.removal) !! e.dropped
    requires f.list == e.list && f.dropped == e.dropped && f.removal == e.removal[1..]
    ensures Live(f) == Live(e) - {e.removal[0]} && e.removal[0] in Live(e)
    ensures NoDup(f.removal) && Elements(f.removal) <= Elements(e.removal)
  {
    SplitElements(e.removal, 0);
    assert e.removal[..0] == [];
    assert Elements([]) == {};
    assert e.removal[0] in Elements(e.removal);
  }

  /** Restoring one window and clearing one slot. */
  lemma RestoreKeeps(e: Engine, orig: seq<Byte>, h: Hook, f: Engine, cleared: bool)
    requires Inv(e, orig) && e.removal != [] && h == e.removal[0] && h in Live(e)
    requires f == e.(removal := e.removal[1..], mem := Splice(e.mem, h.target, h.backup),
                     slots := if cleared then e.slots[h.index := 0] else e.slots)
    ensures Inv(f, orig) && Live(f) == Live(e) - {h}
  {
    hide Jumps;
    assert HookOk(e, orig, h);
    HeadRemoved(e, f);
    forall k | k in Live(f)
      ensures HookOk(f, orig, k)
    {
      assert HookOk(e, orig, k) && Apart(h.target, k.target) && h.ident != k.ident;
      SpliceWindow(e.mem, h.target, h.backup, k.target);
    }
    forall a | 0 <= a < |f.mem| && Outside(f, a)
      ensures f.mem[a] == orig[a]
    {
      RestoredByte(e, orig, h, a);
      if !(h.target <= a < h.target + 8) {
        OutsideBoth(e, f, h, a);
      }
    }
  }

  lemma OutsideBoth(e: Engine, f: Engine, h: Hook, a: int)
    requires Outside(f, a) && Live(f) == Live(e) - {h} && !(h.target <= a < h.target + 8)
    ensures Outside(e, a)
  {
  }

  lemma RestoredByte(e: Engine, orig: seq<Byte>, h: Hook, a: int)
    requires HookOk(e, orig, h) && 0 <= a < |e.mem|
    ensures Splice(e.mem, h.target, h.backup)[a] == if h.target <= a < h.target + 8 then orig[a] else e.mem[a]
  {
    if h.target <= a < h.target + 8 {
      assert orig[a] == Window(orig, h.target)[a - h.target];
    }
  }

  /** Draining a hook restores its window and forgets it. */
  lemma DrainOneKeeps(w: Waited, orig: seq<Byte>, shown: Counters)
    requires Inv(w.e, orig) && w.e.removal != []
    ensures var h, v := w.e.removal[0], DrainOne(w, shown);
      && Inv(v.e, orig) && v.e.removal == w.e.removal[1..] && v.e.list == w.e.list && v.e.dropped == w.e.dropped
      && Live(v.e) == Live(w.e) - {h}
      && (v.freed == w.freed + [h] || (v.freed == w.freed && v.timedOut && v.budget <= 0))
      && (v.freed == w.freed + [h] ==>
           v.timedOut == w.timedOut && v.e.slots == w.e.slots[h.index := 0]
           && w.next < v.next && shown(h, v.next - 1) <= 0)
  {
    var e, h := w.e, w.e.removal[0];
    assert h in Live(e) by { HeadRemoved(e, e.(removal := e.removal[1..])); }
    assert HookOk(e, orig, h);
    var v := DrainOne(w, shown);
    var p := PollCounter(shown, h, w.next, w.budget);
    RestoreKeeps(e, orig, h, v.e, p.idle);
    hide Inv, HookOk, Live;
    assert w.freed != w.freed + [h];
  }

  /** A wait empties the removal list, restores every window on it and keeps the rest. */
  lemma {:induction false} DrainKeeps(w: Waited, orig: seq<Byte>, shown: Counters)
    requires Inv(w.e, orig)
    ensures var v := Drain(w, shown);
      && Inv(v.e, orig) && v.e.removal == [] && v.e.list == w.e.list && v.e.dropped == w.e.dropped
      && (!v.timedOut ==> !w.timedOut && v.freed == w.freed + w.e.removal)
      && (v.timedOut && !w.timedOut ==> v.budget <= 0)
      && v.budget <= w.budget
    decreases |w.e.removal|
  {
    hide Inv, DrainOne;
    if w.e.removal != [] {
      DrainOneKeeps(w, orig, shown);
      DrainOneBudget(w, shown);
      var v := DrainOne(w, shown);
      DrainKeeps(v, orig, shown);
      assert w.freed + w.e.removal == w.freed + [w.e.removal[0]] + w.e.removal[1..];
      if v.timedOut {
        DrainBudget(v, shown);
      }
    }
  }

  lemma DrainOneBudget(w: Waited, shown: Counters)
    requires w.e.removal != []
    ensures var v := DrainOne(w, shown);
      && v.budget <= w.budget && v.next >= w.next
      && (w.budget >= 0 && w.budget % WAIT_SLICE == 0 ==> v.budget >= 0 && v.budget % WAIT_SLICE == 0)
      && |v.e.removal| == |w.e.removal| - 1
  {
  }

  lemma {:induction false} DrainBudget(w: Waited, shown: Counters)
    ensures var v := Drain(w, shown);
      && v.budget <= w.budget && v.next >= w.next && (w.timedOut ==> v.timedOut)
      && (w.budget >= 0 && w.budget % WAIT_SLICE == 0 ==> v.budget >= 0 && v.budget % WAIT_SLICE == 0)
    decreases |w.e.removal|
  {
    if w.e.removal != [] {
      DrainOneBudget(w, shown);
      DrainBudget(DrainOne(w, shown), shown);
    }
  }

  lemma WaitKeeps(e: Engine, orig: seq<Byte>, shown: Counters)
    requires Inv(e, orig)
    ensures var v := Wait(e, shown);
      && Inv(v.e, orig) && v.e.removal == [] && v.e.list == e.list && v.e.dropped == e.dropped
      && Live(v.e) == Elements(e.list) + e.dropped
  {
    DrainKeeps(Waited(e, 0, WAIT_BUDGET, false, []), orig, shown);
    assert Elements([]) == {};
  }

  /** A wait sleeps at most 40 times, for 25 of its 1000 milliseconds each, however many hooks are
      pending; either it frees every pending hook, or it reports a timeout with all 40 sleeps used
      up. */
  lemma WaitIsBounded(e: Engine, orig: seq<Byte>, shown: Counters)
    requires Inv(e, orig)
    ensures var v := Wait(e, shown); var sleeps := (1000 - v.budget) / 25;
      && 0 <= sleeps <= 40 && v.budget == 1000 - 25 * sleeps
      && (if v.timedOut then sleeps == 40 else v.freed == e.removal)
  {
    hide Inv, Drain;
    var w := Waited(e, 0, WAIT_BUDGET, false, []);
    DrainKeeps(w, orig, shown);
    DrainBudget(w, shown);
    assert w.freed + e.removal == e.removal;
  }

  /** A hook is freed, and its slot cleared, only after its own counter was read as not
      positive during this wait. */
  lemma {:induction false} FreedWhenIdle(w: Waited, orig: seq<Byte>, shown: Counters, h: Hook)
    requires Inv(w.e, orig) && h in Drain(w, shown).freed && h !in w.freed
    ensures h in w.e.removal && exists i :: w.next <= i < Drain(w, shown).next && shown(h, i) <= 0
    decreases |w.e.removal|
  {
    hide Inv, DrainOne;
    if w.e.removal != [] {
      DrainOneKeeps(w, orig, shown);
      var v := DrainOne(w, shown);
      if h in v.freed {
        assert v.freed == w.freed + [w.e.removal[0]];
        assert shown(h, v.next - 1) <= 0;
        DrainBudget(v, shown);
      } else {
        DrainOneBudget(w, shown);
        FreedWhenIdle(v, orig, shown, h);
      }
    }
  }

  // ---- runs ----------------------------------------------------------------

  datatype Event = EInstall(target: int, trampoline: int) | EUninstall(h: Hook) | EUninstallAll | EWait(shown: Counters)

  ghost predicate Legal(e: Engine, ev: Event) { ev.EInstall? ==> Hookable(e, ev.target) }

  ghost function Step(e: Engine, ev: Event): (r: Engine)
    requires Legal(e, ev)
  {
    match ev
    case EInstall(t, p) => Install(e, t, p).0
    case EUninstall(h) => Uninstall(e, h)
    case EUninstallAll => UninstallAll(e)
    case EWait(shown) => Wait(e, shown).e
  }

  ghost predicate LegalRun(e: Engine, evs: seq<Event>)
    decreases |evs|
  {
    evs != [] ==> Legal(e, evs[0]) && LegalRun(Step(e, evs[0]), evs[1..])
  }

  ghost function Run(e: Engine, evs: seq<Event>): (r: Engine)
    requires LegalRun(e, evs)
    decreases |evs|
  {
    if evs == [] then e else Run(Step(e, evs[0]), evs[1..])
  }

  lemma StepKeeps(e: Engine, orig: seq<Byte>, ev: Event)
    requires Inv(e, orig) && Legal(e, ev)
    ensures Inv(Step(e, ev), orig)
  {
    hide Inv;
    match ev
    case EInstall(t, p) => InstallKeeps(e, orig, t, p);
    case EUninstall(h) => UninstallKeeps(e, orig, h);
    case EUninstallAll => UninstallAllKeeps(e, orig);
    case EWait(shown) => WaitKeeps(e, orig, shown);
  }

  /** The engine after LhCriticalInitialize, over code that nothing has patched. */
  function Fresh(orig: seq<Byte>): (r: Engine) {
    Engine(orig, seq(MAX_HOOKS, _ => 0), FIRST_IDENT, [], [], {})
  }

  /** Every run keeps the invariant: distinct slots and identities, disjoint lists, and
      code bytes that differ from the original exactly inside live windows. */
  lemma {:induction false} RunKeeps(e: Engine, orig: seq<Byte>, evs: seq<Event>)
    requires Inv(e, orig) && LegalRun(e, evs)
    ensures Inv(Run(e, evs), orig)
    decreases |evs|
  {
    hide Inv;
    if evs != [] {
      StepKeeps(e, orig, evs[0]);
      RunKeeps(Step(e, evs[0]), orig, evs[1..]);
    }
  }

  lemma FreshInv(orig: seq<Byte>)
    ensures Inv(Fresh(orig), orig)
  {
    assert Elements([]) == {};
    assert Live(Fresh(orig)) == {};
  }

  /** Over every run from the start: at the target of a hook that is installed or awaits
      removal stand its jump and then the original bytes; every other byte is original. */
  lemma CodeBytes(orig: seq<Byte>, evs: seq<Event>, a: int)
    requires LegalRun(Fresh(orig), evs) && 0 <= a < |orig|
    ensures var e := Run(Fresh(orig), evs);
      && |e.mem| == |orig|
      && (forall h :: h in Live(e) ==>
           InMem(e.mem, h.target) && |h.copy| == 8
           && Window(e.mem, h.target) == h.copy[..5] + Window(orig, h.target)[5..])
      && ((forall h :: h in Live(e) ==> a < h.target || h.target + 5 <= a) ==> e.mem[a] == orig[a])
  {
    FreshInv(orig);
    RunKeeps(Fresh(orig), orig, evs);
    hide Inv, Live, Window, Run;
    InvBytes(Run(Fresh(orig), evs), orig, a);
  }

  lemma InvBytes(e: Engine, orig: seq<Byte>, a: int)
    requires Inv(e, orig) && 0 <= a < |orig|
    ensures |e.mem| == |orig|
    ensures forall h :: h in Live(e) ==>
      InMem(e.mem, h.target) && |h.copy| == 8 && InMem(orig, h.target)
        && Window(e.mem, h.target) == h.copy[..5] + Window(orig, h.target)[5..]
    ensures (forall h :: h in Live(e) ==> a < h.target || h.target + 5 <= a) ==> e.mem[a] == orig[a]
  {
    forall h | h in Live(e)
      ensures HookOk(e, orig, h)
    {
    }
    var outside := Outside(e, a);
    assert outside ==> e.mem[a] == orig[a];
    hide Inv, Live, Splice;
    forall h | h in Live(e)
      ensures InMem(e.mem, h.target) && |h.copy| == 8
      ensures Window(e.mem, h.target) == h.copy[..5] + Window(orig, h.target)[5..]
      ensures h.target + 5 <= a < h.target + 8 ==> e.mem[a] == orig[a]
    {
      WindowBytes(e, orig, h, a);
    }
  }

  lemma WindowBytes(e: Engine, orig: seq<Byte>, h: Hook, a: int)
    requires HookOk(e, orig, h) && 0 <= a < |orig|
    ensures Window(e.mem, h.target) == h.copy[..5] + Window(orig, h.target)[5..]
    ensures h.target + 5 <= a < h.target + 8 ==> e.mem[a] == orig[a]
  {
    assert h.copy == h.copy[..5] + h.copy[5..];
    if h.target + 5 <= a < h.target + 8 {
      var k := a - h.target - 5;
      assert Window(e.mem, h.target)[5..] == Window(orig, h.target)[5..];
      assert Window(e.mem, h.target)[5..][k] == e.mem[a] && Window(orig, h.target)[5..][k] == orig[a];
    }
  }

  /** Live hooks hold distinct slots, marked with their nonzero identities. */
  lemma SlotsAreDistinct(orig: seq<Byte>, evs: seq<Event>, h: Hook, k: Hook)
    requires LegalRun(Fresh(orig), evs)
    requires h in Live(Run(Fresh(orig), evs)) && k in Live(Run(Fresh(orig), evs)) && h != k
    ensures var e := Run(Fresh(orig), evs);
      && h.index != k.index && h.ident != k.ident
      && h.index < |e.slots| && e.slots[h.index] == h.ident != 0
  {
    FreshInv(orig);
    RunKeeps(Fresh(orig), orig, evs);
    var e := Run(Fresh(orig), evs);
    assert HookOk(e, orig, h) && HookOk(e, orig, k);
  }

  // ---- what uninstalling out of order loses --------------------------------

  /** Uninstalling takes exactly the one hook off the list if and only if it is at the head;
      from any other place it leaves exactly the hooks behind it. */
  lemma UninstallIsExactAtHead(e: Engine, orig: seq<Byte>, h: Hook)
    requires Inv(e, orig) && h in e.list
    ensures var k := Find(e.list, h).value; Uninstall(e, h).list == e.list[k + 1..]
    ensures Uninstall(e, h).dropped == e.dropped <==> h == e.list[0]
  {
    var k := Find(e.list, h).value;
    if k > 0 {
      assert e.list[..k][0] == e.list[0];
      assert e.list[0] in Elements(e.list[..k]);
      assert e.list[0] in Elements(e.list);
    } else {
      assert e.list[..0] == [];
      assert Elements([]) == {};
    }
  }

  /** After LhUninstallAllHooks and a wait, the hooks still patched are exactly the dropped
      ones, so the code is back to the original if and only if none of them changed it... */
  lemma FinalizeLeavesDropped(e: Engine, orig: seq<Byte>, shown: Counters)
    requires Inv(e, orig)
    ensures var f := Wait(UninstallAll(e), shown).e;
      && Inv(f, orig) && Live(f) == e.dropped
      && (f.mem == orig <==> forall h :: h in e.dropped ==> h.copy == h.backup)
  {
    UninstallAllKeeps(e, orig);
    WaitKeeps(UninstallAll(e), orig, shown);
    var f := Wait(UninstallAll(e), shown).e;
    assert Elements([]) == {};
    hide Wait, UninstallAll, Inv;
    AllUnchanged(f, orig);
  }

  lemma AllUnchanged(f: Engine, orig: seq<Byte>)
    requires Inv(f, orig)
    ensures f.mem == orig <==> forall h :: h in Live(f) ==> h.copy == h.backup
  {
    hide Window, NoDup;
    if f.mem == orig {
      forall h | h in Live(f)
        ensures h.copy == h.backup
      {
        assert HookOk(f, orig, h);
      }
    } else {
      var a :| 0 <= a < |f.mem| && f.mem[a] != orig[a];
      assert !Outside(f, a);
      var h :| h in Live(f) && h.target <= a < h.target + 8;
      assert HookOk(f, orig, h);
      WindowDiffers(f.mem, orig, h.target, a);
    }
  }

  lemma WindowDiffers(m: seq<Byte>, n: seq<Byte>, t: int, a: int)
    requires InMem(m, t) && InMem(n, t) && t <= a < t + 8 && m[a] != n[a]
    ensures Window(m, t) != Window(n, t)
  {
    assert Window(m, t)[a - t] == m[a] && Window(n, t)[a - t] == n[a];
  }

  /** Hooks come off in the reverse of the order they went on. */
  ghost predicate NewestFirst(e: Engine, evs: seq<Event>)
    requires LegalRun(e, evs)
    decreases |evs|
  {
    evs != [] ==>
      (evs[0].EUninstall? && evs[0].h in e.list ==> evs[0].h == e.list[0]) && NewestFirst(Step(e, evs[0]), evs[1..])
  }

  lemma {:induction false} NewestFirstDropsNothing(e: Engine, orig: seq<Byte>, evs: seq<Event>)
    requires Inv(e, orig) && e.dropped == {} && LegalRun(e, evs) && NewestFirst(e, evs)
    ensures Inv(Run(e, evs), orig) && Run(e, evs).dropped == {}
    decreases |evs|
  {
    hide Inv;
    if evs != [] {
      StepKeeps(e, orig, evs[0]);
      match evs[0] {
        case EInstall(t, p) =>
        case EUninstall(h) => if h in e.list { UninstallIsExactAtHead(e, orig, h); }
        case EUninstallAll =>
        case EWait(shown) => WaitKeeps(e, orig, shown);
      }
      NewestFirstDropsNothing(Step(e, evs[0]), orig, evs[1..]);
    }
  }

  /** ...so when hooks are uninstalled newest first, LhCriticalFinalize restores every byte
      of the code. */
  lemma NewestFirstRestoresCode(orig: seq<Byte>, evs: seq<Event>, shown: Counters)
    requires LegalRun(Fresh(orig), evs) && NewestFirst(Fresh(orig), evs)
    ensures Wait(UninstallAll(Run(Fresh(orig), evs)), shown).e.mem == orig
  {
    FreshInv(orig);
    NewestFirstDropsNothing(Fresh(orig), orig, evs);
    FinalizeLeavesDropped(Run(Fresh(orig), evs), orig, shown);
  }
}
