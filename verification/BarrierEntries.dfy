/** Which entries the barrier grants: the one decision the rest of it is for. */
module BarrierEntries {
  import opened Wrappers
  import opened Barrier
  import opened BarrierRuns

  /** The thread may come in as far as its own record goes: it is new and there is room and memory
      for it, or it is known, its table was allocated, and no handler of the hook slot is active
      in it. */
  ghost predicate HasRoom(r: Stacks, h: Hook, e: Entry) {
    if e.thread in r.of then
      e.thread !in r.broken && forall i :: 0 <= i < |r.of[e.thread]| ==> r.of[e.thread][i].index != h.index
    else
      |r.of| < 128 && e.memory
  }

  /** An entry is granted if and only if the loader lock is free, the thread has room, and each
      list, global and local, either is exclusive without the thread or inclusive with it. Of the
      others those of a thread without table crash and the rest are refused. */
  lemma GrantedIff(u: Unit, r: Stacks, h: Hook, e: Entry)
    requires Refines(u, r) && Legal(r, EIntro(h, e))
    ensures Intro(u, h, e).1 == Entered <==>
      && !e.loaderLock && HasRoom(r, h, e)
      && (if u.acl.isExclusive then e.thread !in u.acl.entries else e.thread in u.acl.entries)
      && (if h.acl.isExclusive then e.thread !in h.acl.entries else e.thread in h.acl.entries)
    ensures Intro(u, h, e).1 in {Entered, Refused, Crashed}
    ensures Intro(u, h, e).1 == Crashed <==> !e.loaderLock && e.thread in r.broken
  {
    IntroStep(u, r, h, e);
    CrashesIffBroken(u, r, h, e);
    if !e.loaderLock && e.thread !in r.of {
      NoneActive(h.index);
      FreeSlot(u, r);
      CountIds(u.ids);
    }
  }

  /** In a freshly attached process, whatever has been called since: a thread with room is let
      into a hook with an exclusive list exactly when it is not on it, and into one with an
      inclusive list exactly when it is. */
  lemma AttachedProcessIntercepts(evs: seq<Event>, h: Hook, e: Entry)
    requires LegalRun(Stacks(map[], {}, {}), Acl(true, []), evs)
    requires Crashed !in TableRun(AttachedUnit(), evs).1
    requires var r := StackRun(Stacks(map[], {}, {}), Acl(true, []), evs).0;
      Legal(r, EIntro(h, e)) && HasRoom(r, h, e) && !e.loaderLock
    ensures Shaped(TableRun(AttachedUnit(), evs).0)
    ensures var x := Intro(TableRun(AttachedUnit(), evs).0, h, e).1;
      && (h.acl.isExclusive && e.thread !in h.acl.entries ==> x == Entered)
      && (h.acl.isExclusive && e.thread in h.acl.entries ==> x == Refused)
      && (!h.acl.isExclusive && e.thread in h.acl.entries ==> x == Entered)
      && (!h.acl.isExclusive && e.thread !in h.acl.entries ==> x == Refused)
  {
    hide Refines, Legal, HasRoom, Intro;
    var acl := Acl(true, []);
    assert AttachedUnit().(acl := acl) == AttachedUnit();
    AttachRefines(acl);
    RunRefines(AttachedUnit(), Stacks(map[], {}, {}), evs);
    RunKeepsAcl(AttachedUnit(), Stacks(map[], {}, {}), evs);
    var u, r := TableRun(AttachedUnit(), evs).0, StackRun(Stacks(map[], {}, {}), acl, evs).0;
    BrokenHasNoRoom(u, r, h, e);
    GrantedIff(u, r, h, e);
  }

  lemma BrokenHasNoRoom(u: Unit, r: Stacks, h: Hook, e: Entry)
    requires Refines(u, r) && HasRoom(r, h, e)
    ensures e.thread !in r.broken
  {
  }

  lemma {:induction false} RunKeepsAcl(u: Unit, r: Stacks, evs: seq<Event>)
    requires Refines(u, r) && LegalRun(r, u.acl, evs)
    ensures Shaped(TableRun(u, evs).0) && TableRun(u, evs).0.acl == u.acl
    decreases |evs|
  {
    hide Call, StackCall, Legal;
    if evs != [] {
      LegalIsReady(u, r, evs[0]);
      CallRefines(u, r, evs[0]);
      hide Refines;
      var (v, x) := Call(u, evs[0]);
      if x != Crashed {
        RunKeepsAcl(v, StackCall(r, u.acl, evs[0]).0, evs[1..]);
      }
    }
  }

  // ---- calls no trampoline makes -------------------------------------------

  /** Whatever hook an entry names, the assertion on its slot fires exactly when the slot is
      outside the table and the thread is not turned away before that. */
  lemma EntryAssertsIff(u: Unit, r: Stacks, h: Hook, e: Entry)
    requires Refines(u, r) && e.thread != 0
    ensures Intro(u, h, e).1 == Asserted <==>
      !e.loaderLock && h.index >= 1024 && (e.thread in r.of || |r.of| < 128)
  {
    hide IntroThread;
    KnownThread(u, r, e.thread);
    FreeSlot(u, r);
    CountIds(u.ids);
    if h.index < 1024 {
      NeverAsserted(u, h, e);
    }
  }

  lemma NeverAsserted(u: Unit, h: Hook, e: Entry)
    requires Shaped(u) && h.index < 1024
    ensures Intro(u, h, e).1 != Asserted
  {
    hide Admits;
  }

  /** An exit asserts exactly when its thread is unknown, when it is in no handler of the hook's
      slot, or when the place for the return address is not empty; without a table, or with a slot
      outside it, it crashes. */
  lemma ExitAssertsIff(u: Unit, r: Stacks, h: Hook, thread: int, space: int)
    requires Refines(u, r) && thread != 0
    ensures Outro(u, h, thread, space).1 == Asserted <==>
      || thread !in r.of
      || (thread !in r.broken && h.index < 1024 && (space != 0 || !Active(r.of[thread], h.index)))
    ensures Outro(u, h, thread, space).1 == Crashed <==> thread in r.of && (thread in r.broken || h.index >= 1024)
  {
    KnownThread(u, r, thread);
    if thread in r.of && thread !in r.broken && h.index < 1024 {
      var es, s := u.infos[Find(u.ids, thread).value].entries.value, r.of[thread];
      if Active(s, h.index) {
        var i :| 0 <= i < |s| && s[i].index == h.index;
        assert es[s[i].index].isExecuting;
      }
    }
  }
}
