/** Whether a handler runs after its hook was uninstalled. The documentation of LhUninstallHook
    says never again; what holds is that no thread starts it again, and that a thread for which
    the trampoline has found the handler, and which it has not yet sent there, jumps to no
    address. */
module HookHandlers {
  import opened Wrappers
  import opened Bytes
  import opened HookEngine
  import R = HookRuns
  import opened HookSteps
  import opened HookedProcess
  import B = Barrier
  import BR = BarrierRuns

  /** This step takes the handler out of the record of h. */
  ghost predicate Disarms(w: World, move: Move, h: Hook) {
    || (move == SUninstall(h) && (h in w.e.list || h in w.e.dropped))
    || (move == SUninstallAll && h in w.e.list)
  }

  /** The hook's identity is in use or was; no install under way has it. */
  ghost predicate Issued(w: World, h: Hook) {
    h.ident < w.e.counter && forall q :: q in w.pending && q.Claimed? ==> q.ident != h.ident
  }

  lemma PresentIsIssued(w: World, orig: seq<Byte>, h: Hook)
    requires WorldOk(w, orig) && Present(w, h)
    ensures Issued(w, h)
  {
    if h in R.Live(Seen(w)) {
      assert R.HookOk(Seen(w), orig, h);
    } else {
      assert Marked(w.e, h);
    }
    forall q | q in w.pending && q.Claimed?
      ensures q.ident != h.ident
    {
      assert PendingOk(w, orig, q);
    }
  }

  lemma ArmedIsIssued(p: Process, orig: seq<Byte>, h: Hook)
    requires ProcessOk(p, orig) && Armed(p.w, h)
    ensures Issued(p.w, h)
  {
    hide WorldOk;
    assert h in Elements(p.w.e.list) || h in p.w.e.dropped || h in p.w.planted;
    PresentIsIssued(p.w, orig, h);
  }

  lemma UninstallArms(e: Engine, k: Hook, h: Hook)
    requires R.NoDup(e.list) && Elements(e.list) !! e.dropped
    ensures var f := Uninstall(e, k);
      (h in f.list || h in f.dropped) <==> (h in e.list || h in e.dropped) && h != k
  {
    if HookEngine.Installed(e, k) {
      assert k in Elements(e.list) ==> k !in e.dropped;
      var at := Find(e.list, k);
      if at.Some? {
        R.SplitElements(e.list, at.value);
        assert h in e.list <==> h in Elements(e.list);
        assert h in e.list[..at.value] <==> h in Elements(e.list[..at.value]);
        assert h in e.list[at.value + 1..] <==> h in Elements(e.list[at.value + 1..]);
      }
    }
  }

  /** A hook loses its handler by these steps alone, and never gets it back. */
  lemma ArmedStep(w: World, orig: seq<Byte>, move: Move, h: Hook)
    requires WorldOk(w, orig) && Allowed(w, move) && Issued(w, h)
    ensures var v := Moved(w, move);
      Issued(v, h) && (Armed(v, h) <==> Armed(w, h) && !Disarms(w, move, h))
  {
    hide AllPending, Retired, Splice, Window, Jump;
    match move
    case SUninstall(k) => UninstallArms(w.e, k, h);
    case _ =>
  }

  // ---- runs ----------------------------------------------------------------

  /** Somewhere in the run the handler is taken out of the record of h. */
  ghost predicate DisarmedIn(p: Process, orig: seq<Byte>, acl: B.Acl, evs: seq<Event>, h: Hook)
    requires ProcessOk(p, orig) && PossibleRun(p, orig, acl, evs)
    decreases |evs|
  {
    evs != [] && (ProcessStep(p, orig, acl, evs[0]);
      !Crashes(p, acl, evs[0]) &&
        ((evs[0].HookMove? && Disarms(p.w, evs[0].move, h))
         || DisarmedIn(After(p, acl, evs[0]), orig, acl, evs[1..], h)))
  }

  /** Somewhere in the run a thread goes from the trampoline of h to the handler. */
  ghost predicate StartsIn(p: Process, orig: seq<Byte>, acl: B.Acl, evs: seq<Event>, h: Hook)
    requires ProcessOk(p, orig) && PossibleRun(p, orig, acl, evs)
    decreases |evs|
  {
    evs != [] && (ProcessStep(p, orig, acl, evs[0]);
      || (evs[0].Start? && p.visits[evs[0].i].h == h)
      || (!Crashes(p, acl, evs[0]) && StartsIn(After(p, acl, evs[0]), orig, acl, evs[1..], h)))
  }

  lemma ArmedEvent(p: Process, orig: seq<Byte>, acl: B.Acl, ev: Event, h: Hook)
    requires ProcessOk(p, orig) && Possible(p, ev) && Issued(p.w, h)
    requires BarrierCall(p, ev).Some? ==> BR.Legal(p.r, BarrierCall(p, ev).value)
    ensures var q := After(p, acl, ev);
      && Issued(q.w, h)
      && (Armed(q.w, h) <==> Armed(p.w, h) && !(ev.HookMove? && Disarms(p.w, ev.move, h)))
  {
    hide WorldOk, Moved, Issued, Disarms;
    if ev.HookMove? {
      ArmedStep(p.w, orig, ev.move, h);
    }
  }

  lemma {:induction false} ArmedRun(p: Process, orig: seq<Byte>, acl: B.Acl, evs: seq<Event>, h: Hook)
    requires ProcessOk(p, orig) && PossibleRun(p, orig, acl, evs) && Issued(p.w, h)
    ensures Issued(AfterRun(p, orig, acl, evs).w, h)
    ensures Armed(AfterRun(p, orig, acl, evs).w, h) <==> Armed(p.w, h) && !DisarmedIn(p, orig, acl, evs, h)
    decreases |evs|
  {
    hide ProcessOk, Possible, After, Armed, Issued, Disarms, BarrierCall;
    if evs != [] {
      ProcessStep(p, orig, acl, evs[0]);
      if !Crashes(p, acl, evs[0]) {
        ArmedEvent(p, orig, acl, evs[0], h);
        ArmedRun(After(p, acl, evs[0]), orig, acl, evs[1..], h);
      }
    }
  }

  /** Once a hook has been uninstalled no thread is sent to its handler, over every run and
      whatever hooks are installed meanwhile. */
  lemma {:induction false} NeverStartsAgain(p: Process, orig: seq<Byte>, acl: B.Acl, evs: seq<Event>, h: Hook)
    requires ProcessOk(p, orig) && PossibleRun(p, orig, acl, evs) && Issued(p.w, h) && !Armed(p.w, h)
    ensures !StartsIn(p, orig, acl, evs, h)
    decreases |evs|
  {
    hide ProcessOk, After, Armed, Issued, Disarms, BarrierCall;
    if evs != [] {
      ProcessStep(p, orig, acl, evs[0]);
      if !Crashes(p, acl, evs[0]) {
        ArmedEvent(p, orig, acl, evs[0], h);
        NeverStartsAgain(After(p, acl, evs[0]), orig, acl, evs[1..], h);
      }
    }
  }

  /** The thread's own next instructions that matter, or its end. */
  predicate StepOf(ev: Event, i: nat) {
    match ev
    case CountIn(k) => k == i
    case Test(k) => k == i
    case Enter(k, _, _, _) => k == i
    case Start(k) => k == i
    case Exit(k) => k == i
    case CountOut(k) => k == i
    case Leave(k) => k == i
    case _ => false
  }

  /** From a moment when the hook has its handler, such as that of the test: a thread whose entry
      the barrier has granted jumps to no address if and only if the hook was uninstalled in
      between. Then it has no step left, and as it is counted no wait frees the hook. */
  lemma JumpsNowhereIff(p: Process, orig: seq<Byte>, acl: B.Acl, evs: seq<Event>, i: nat)
    requires ProcessOk(p, orig) && PossibleRun(p, orig, acl, evs)
    requires var q := AfterRun(p, orig, acl, evs);
      Runs(q, i) && q.visits[i].stage.Granted? && Armed(p.w, q.visits[i].h)
    ensures var q := AfterRun(p, orig, acl, evs); var h := q.visits[i].h;
      && ((forall ev :: StepOf(ev, i) ==> !Possible(q, ev)) <==> DisarmedIn(p, orig, acl, evs, h))
      && !Possible(q, HookMove(SRelease(h)))
  {
    var q := AfterRun(p, orig, acl, evs);
    var h := q.visits[i].h;
    ArmedIsIssued(p, orig, h);
    ArmedRun(p, orig, acl, evs, h);
    hide AfterRun, PossibleRun, DisarmedIn, Armed, WorldOk;
    if Armed(q.w, h) {
      assert StepOf(Start(i), i) && Possible(q, Start(i));
    }
    assert q.visits[i] in q.visits;
    VisitIsCounted(q.visits, q.visits[i]);
  }

  // ---- a run that gets there -----------------------------------------------

  lemma OneMore(p: Process, orig: seq<Byte>, acl: B.Acl, ev: Event, rest: seq<Event>)
    requires ProcessOk(p, orig) && Possible(p, ev)
    requires BarrierCall(p, ev).Some? ==> BR.Legal(p.r, BarrierCall(p, ev).value)
    requires !Crashes(p, acl, ev) && ProcessOk(After(p, acl, ev), orig)
    requires PossibleRun(After(p, acl, ev), orig, acl, rest)
    ensures PossibleRun(p, orig, acl, [ev] + rest)
    ensures AfterRun(p, orig, acl, [ev] + rest) == AfterRun(After(p, acl, ev), orig, acl, rest)
  {
    hide ProcessOk, Possible, After, Crashes, BarrierCall;
    assert ([ev] + rest)[1..] == rest;
  }

  /** The barrier lets the thread in: it is new and there is room, or known with a table; and both
      lists admit it. */
  ghost predicate Welcome(r: BR.Stacks, acl: B.Acl, local: B.Acl, e: B.Entry) {
    && !e.loaderLock && (if e.thread in r.of then e.thread !in r.broken else |r.of| < 128 && e.memory)
    && (if acl.isExclusive then e.thread !in acl.entries else e.thread in acl.entries)
    && (if local.isExclusive then e.thread !in local.entries else e.thread in local.entries)
  }

  lemma WelcomeEnters(r: BR.Stacks, acl: B.Acl, k: B.Hook, e: B.Entry)
    requires Welcome(r, acl, k.acl, e) && (e.thread in r.of ==> r.of[e.thread] == [])
    ensures BR.StackCall(r, acl, BR.EIntro(k, e)).1 == B.Entered
  {
  }

  /** A tested thread is granted its entry, and the hook is uninstalled before it jumps. */
  lemma GrantedThenUninstalled(p: Process, orig: seq<Byte>, acl: B.Acl, i: nat, callback: int, local: B.Acl, e: B.Entry)
    requires ProcessOk(p, orig) && Possible(p, Enter(i, callback, local, e)) && Welcome(p.r, acl, local, e)
    requires p.visits[i].h in p.w.e.list && p.w.e.removal == []
    requires e.thread in p.r.of ==> p.r.of[e.thread] == []
    ensures var h := p.visits[i].h;
      var evs := [Enter(i, callback, local, e)] + ([HookMove(SUninstall(h))] + []);
      && PossibleRun(p, orig, acl, evs)
      && var q := AfterRun(p, orig, acl, evs);
      && q.visits == At(p.visits, i, Granted(BR.FrameOf(BarrierHook(h, callback, local), e)))
      && !Armed(q.w, h) && Runs(q, i)
  {
    hide WorldOk, R.Live, Seen, Retired, Armed, Present;
    var ev, h := Enter(i, callback, local, e), p.visits[i].h;
    ProcessStep(p, orig, acl, ev);
    WelcomeEnters(p.r, acl, BarrierHook(h, callback, local), e);
    var p1 := After(p, acl, ev);
    UninstallRuns(p1, orig, acl, h);
    var q := After(p1, acl, HookMove(SUninstall(h)));
    hide ProcessOk, PossibleRun, AfterRun, After;
    NoEvents(q, orig, acl);
    OneMore(p1, orig, acl, HookMove(SUninstall(h)), []);
    OneMore(p, orig, acl, ev, [HookMove(SUninstall(h))] + []);
  }

  /** From every state with an installed hook, nothing pending and a thread that the barrier lets
      in: the thread comes through the hook up to the jump to its handler, the hook is uninstalled,
      and the jump goes nowhere. */
  lemma UninstalledUnderThread(p: Process, orig: seq<Byte>, acl: B.Acl, h: Hook, callback: int, local: B.Acl,
                               e: B.Entry)
    requires ProcessOk(p, orig) && h in p.w.e.list && p.w.e.removal == []
    requires e.thread != 0 && (forall v :: v in p.visits ==> v.thread != e.thread) && Welcome(p.r, acl, local, e)
    ensures var n := |p.visits|;
      var evs := [Come(e.thread, h)] + ([CountIn(n)] + ([Test(n)] + ([Enter(n, callback, local, e)]
        + ([HookMove(SUninstall(h))] + []))));
      && PossibleRun(p, orig, acl, evs)
      && var q := AfterRun(p, orig, acl, evs);
      && q.visits == p.visits + [Visit(e.thread, h, Granted(BR.FrameOf(BarrierHook(h, callback, local), e)))]
      && Runs(q, n) && !Possible(q, Start(n))
  {
    hide WorldOk, R.Live, Seen, Retired, Present, Welcome, FramesOf;
    var n := |p.visits|;
    var last := [Enter(n, callback, local, e)] + ([HookMove(SUninstall(h))] + []);
    CountedIn(p, orig, acl, e.thread, h, [Test(n)] + last);
    var p2 := p.(visits := p.visits + [Visit(e.thread, h, Counted)], counters := p.counters[h := Counter(p, h) + 1]);
    var p3 := After(p2, acl, Test(n));
    ProcessStep(p2, orig, acl, Test(n));
    assert p3.visits == p.visits + [Visit(e.thread, h, Tested)];
    NoFrames(p.visits, e.thread);
    GrantedThenUninstalled(p3, orig, acl, n, callback, local, e);
    hide ProcessOk, PossibleRun, AfterRun, After;
    OneMore(p2, orig, acl, Test(n), last);
  }
}
