/** Threads running through trampolines while hooks come and go. Between the increment and the
    decrement of its execution counter a hook keeps its memory and slot, so what the barrier
    demands of its callers holds; on the way in and on the way out nothing keeps the memory. */
module HookedProcess {
  import opened Wrappers
  import opened Bytes
  import opened HookEngine
  import opened HookRuns
  import opened HookSteps
  import HookJumps
  import X = X64
  import B = Barrier
  import BR = BarrierRuns

  /** Where a thread is on the page of a hook: it has jumped there, it is counted, it has found a
      handler, the barrier has granted its entry, it runs the handler, it is to be counted out, or
      it is not counted any more and runs the end of the trampoline and the moved
      instructions. */
  datatype Stage =
    Coming | Counted | Tested | Granted(frame: BR.Frame) | Handling(frame: BR.Frame) | Past | Leaving

  datatype Visit = Visit(thread: int, h: Hook, stage: Stage)

  /** The hooks, the barrier's stacks, the visits in the order they began, and the execution
      counters. */
  datatype Process = Process(w: World, r: BR.Stacks, visits: seq<Visit>, counters: map<Hook, int>)

  function Counter(p: Process, h: Hook): (n: int) { if h in p.counters then p.counters[h] else 0 }

  /** The execution counter covers the visit. */
  predicate Counts(v: Visit) { !v.stage.Coming? && !v.stage.Leaving? }

  /** The record still names the handler: the hook is planted and has not been uninstalled. */
  ghost predicate Armed(w: World, h: Hook) { h in w.e.list || h in w.e.dropped || h in w.planted }

  /** The hook's memory is allocated. */
  ghost predicate Present(w: World, h: Hook) { h in Live(Seen(w)) || h in Retired(w) }

  /** i is the innermost visit of the thread. */
  predicate Top(vs: seq<Visit>, thread: int, i: nat) {
    i < |vs| && vs[i].thread == thread && forall j :: i < j < |vs| ==> vs[j].thread != thread
  }

  datatype Event =
    | HookMove(move: Move)
    | Come(thread: int, h: Hook)                                     // the planted jump
    | CountIn(i: nat)                                                // increment
    | Test(i: nat)                                                   // is there a handler?
    | Enter(i: nat, callback: int, acl: B.Acl, e: B.Entry)           // LhBarrierIntro
    | Start(i: nat)                                                  // the jump to the handler
    | Exit(i: nat)                                                   // LhBarrierOutro
    | CountOut(i: nat)                                               // decrement
    | Leave(i: nat)                                                  // off the hook's page
    | ThreadEnd(thread: int)

  function BarrierHook(h: Hook, callback: int, acl: B.Acl): (k: B.Hook) { B.Hook(h.index, h.ident, callback, acl) }

  /** The innermost visit of its thread, on memory that is still there. */
  ghost predicate Runs(p: Process, i: nat) {
    i < |p.visits| && Top(p.visits, p.visits[i].thread, i) && Present(p.w, p.visits[i].h)
  }

  /** Everything as the code does it: a thread comes through planted jumps, its visits nest,
      and a wait frees a hook only when its counter shows nobody. The handler's address is read
      twice, for the test and for the jump; a jump to no address is the end of the thread. */
  ghost predicate Possible(p: Process, ev: Event) {
    match ev
    case HookMove(move) => Allowed(p.w, move) && (move.SRelease? ==> Counter(p, move.h) <= 0)
    case Come(t, h) => t != 0 && h in Live(Seen(p.w))
    case CountIn(i) => Runs(p, i) && p.visits[i].stage.Coming?
    case Enter(i, _, _, e) => Runs(p, i) && e.thread == p.visits[i].thread && p.visits[i].stage.Tested?
    case Test(i) => Runs(p, i) && p.visits[i].stage.Counted?
    case Start(i) => Runs(p, i) && p.visits[i].stage.Granted? && Armed(p.w, p.visits[i].h)
    case Exit(i) => Runs(p, i) && p.visits[i].stage.Handling?
    case CountOut(i) => Runs(p, i) && p.visits[i].stage.Past?
    case Leave(i) => Runs(p, i) && p.visits[i].stage.Leaving?
    case ThreadEnd(t) => t != 0 && forall v :: v in p.visits ==> v.thread != t
  }

  /** The barrier call of an event, if it makes one. */
  function BarrierCall(p: Process, ev: Event): (c: Option<BR.Event>) {
    match ev
    case Enter(i, callback, acl, e) =>
      if i < |p.visits| then Some(BR.EIntro(BarrierHook(p.visits[i].h, callback, acl), e)) else None
    case Exit(i) =>
      if i < |p.visits| then Some(BR.EOutro(BarrierHook(p.visits[i].h, 0, B.Acl(true, [])), p.visits[i].thread))
        else None
    case ThreadEnd(t) => Some(BR.EDetach(t))
    case _ => None
  }

  /** The visits with visit i at another stage. */
  function At(vs: seq<Visit>, i: nat, stage: Stage): (us: seq<Visit>)
    requires i < |vs|
    ensures |us| == |vs|
  {
    vs[i := vs[i].(stage := stage)]
  }

  ghost function After(p: Process, acl: B.Acl, ev: Event): (q: Process)
    requires Possible(p, ev)
    requires BarrierCall(p, ev).Some? ==> BR.Legal(p.r, BarrierCall(p, ev).value)
  {
    match ev
    case HookMove(move) => p.(w := Moved(p.w, move))
    case Come(t, h) => p.(visits := p.visits + [Visit(t, h, Coming)])
    case CountIn(i) =>
      var h := p.visits[i].h;
      p.(visits := At(p.visits, i, Counted), counters := p.counters[h := Counter(p, h) + 1])
    case Enter(i, callback, local, e) =>
      var (r, x) := BR.StackCall(p.r, acl, BarrierCall(p, ev).value);
      var f := BR.FrameOf(BarrierHook(p.visits[i].h, callback, local), e);
      p.(r := r, visits := At(p.visits, i, if x == B.Entered then Granted(f) else Past))
    case Test(i) => p.(visits := At(p.visits, i, if Armed(p.w, p.visits[i].h) then Tested else Past))
    case Start(i) => p.(visits := At(p.visits, i, Handling(p.visits[i].stage.frame)))
    case Exit(i) =>
      p.(r := BR.StackCall(p.r, acl, BarrierCall(p, ev).value).0, visits := At(p.visits, i, Past))
    case CountOut(i) =>
      var h := p.visits[i].h;
      p.(visits := At(p.visits, i, Leaving), counters := p.counters[h := Counter(p, h) - 1])
    case Leave(i) => p.(visits := p.visits[..i] + p.visits[i + 1..])
    case ThreadEnd(t) => p.(r := BR.StackCall(p.r, acl, BR.EDetach(t)).0)
  }

  // ---- the invariant -------------------------------------------------------

  function One(v: Visit, h: Hook): (n: nat) { if v.h == h && Counts(v) then 1 else 0 }

  function Count(vs: seq<Visit>, h: Hook): (n: nat) {
    if vs == [] then 0 else One(vs[0], h) + Count(vs[1..], h)
  }

  /** The barrier holds a frame for the visit. */
  predicate Framed(g: Stage) { g.Granted? || g.Handling? }

  function FrameIn(g: Stage): (s: seq<BR.Frame>) { if Framed(g) then [g.frame] else [] }

  /** The frames of the thread's visits, outermost first. */
  function FramesOf(vs: seq<Visit>, thread: int): (s: seq<BR.Frame>) {
    if vs == [] then []
    else (if vs[0].thread == thread then FrameIn(vs[0].stage) else []) + FramesOf(vs[1..], thread)
  }

  ghost predicate VisitOk(w: World, v: Visit) {
    && v.thread != 0 && (Counts(v) ==> Present(w, v.h))
    && (Framed(v.stage) ==> v.stage.frame.index == v.h.index && v.stage.frame.ident == v.h.ident)
  }

  ghost predicate ProcessOk(p: Process, orig: seq<Byte>) {
    && WorldOk(p.w, orig)
    && (forall v :: v in p.visits ==> VisitOk(p.w, v))
    && (forall h :: Counter(p, h) == Count(p.visits, h))
    && (forall t :: t in p.r.of ==> p.r.of[t] == FramesOf(p.visits, t))
    && (forall t :: t !in p.r.of ==> FramesOf(p.visits, t) == [])
  }

  /** Every hook whose counter covers somebody still owns its slot. */
  lemma VisitedIsMarked(w: World, orig: seq<Byte>, v: Visit)
    requires WorldOk(w, orig) && VisitOk(w, v) && Counts(v)
    ensures Marked(w.e, v.h) && v.h.index < MAX_HOOKS
  {
    if v.h in Live(Seen(w)) {
      assert HookOk(Seen(w), orig, v.h);
    }
  }

  // ---- visits and frames ---------------------------------------------------

  lemma {:induction false} FramesJoin(a: seq<Visit>, b: seq<Visit>, thread: int)
    ensures FramesOf(a + b, thread) == FramesOf(a, thread) + FramesOf(b, thread)
  {
    if a == [] {
      assert a + b == b;
    } else {
      assert (a + b)[1..] == a[1..] + b;
      FramesJoin(a[1..], b, thread);
    }
  }

  lemma {:induction false} CountJoin(a: seq<Visit>, b: seq<Visit>, h: Hook)
    ensures Count(a + b, h) == Count(a, h) + Count(b, h)
  {
    if a == [] {
      assert a + b == b;
    } else {
      assert (a + b)[1..] == a[1..] + b;
      CountJoin(a[1..], b, h);
    }
  }

  lemma OneVisit(v: Visit, thread: int, h: Hook)
    ensures FramesOf([v], thread) == (if v.thread == thread then FrameIn(v.stage) else [])
    ensures Count([v], h) == One(v, h)
  {
    assert [v][1..] == [];
  }

  lemma {:induction false} NoFrames(vs: seq<Visit>, thread: int)
    requires forall v :: v in vs ==> v.thread != thread
    ensures FramesOf(vs, thread) == []
  {
    if vs != [] {
      assert vs[0] in vs && forall v :: v in vs[1..] ==> v in vs;
      NoFrames(vs[1..], thread);
    }
  }

  /** What a list of visits is around its visit i. */
  lemma Around(vs: seq<Visit>, i: nat, thread: int, h: Hook)
    requires i < |vs|
    ensures FramesOf(vs, thread)
      == FramesOf(vs[..i], thread) + (if vs[i].thread == thread then FrameIn(vs[i].stage) else [])
         + FramesOf(vs[i + 1..], thread)
    ensures Count(vs, h) == Count(vs[..i], h) + One(vs[i], h) + Count(vs[i + 1..], h)
    ensures FramesOf(vs[..i] + vs[i + 1..], thread) == FramesOf(vs[..i], thread) + FramesOf(vs[i + 1..], thread)
    ensures Count(vs[..i] + vs[i + 1..], h) == Count(vs[..i], h) + Count(vs[i + 1..], h)
  {
    hide FramesOf, Count, One, FrameIn;
    assert vs == vs[..i] + ([vs[i]] + vs[i + 1..]);
    OneVisit(vs[i], thread, h);
    FramesJoin(vs[..i], [vs[i]] + vs[i + 1..], thread);
    FramesJoin([vs[i]], vs[i + 1..], thread);
    CountJoin(vs[..i], [vs[i]] + vs[i + 1..], h);
    CountJoin([vs[i]], vs[i + 1..], h);
    FramesJoin(vs[..i], vs[i + 1..], thread);
    CountJoin(vs[..i], vs[i + 1..], h);
  }

  /** A visit at another stage: what its hook's counter and the frames become. */
  lemma Restaged(vs: seq<Visit>, i: nat, g: Stage, thread: int, h: Hook)
    requires i < |vs|
    ensures var us := At(vs, i, g);
      && Count(us, h) == Count(vs, h) - One(vs[i], h) + One(us[i], h)
      && (thread != vs[i].thread || FrameIn(g) == FrameIn(vs[i].stage) ==> FramesOf(us, thread) == FramesOf(vs, thread))
  {
    hide FramesOf, Count, One, FrameIn;
    var us := At(vs, i, g);
    assert us[..i] == vs[..i] && us[i + 1..] == vs[i + 1..];
    Around(vs, i, thread, h);
    Around(us, i, thread, h);
  }

  /** The innermost visit's frame is the last of its thread. */
  lemma TopFrame(vs: seq<Visit>, i: nat)
    requires i < |vs| && Top(vs, vs[i].thread, i)
    ensures FramesOf(vs, vs[i].thread) == FramesOf(vs[..i], vs[i].thread) + FrameIn(vs[i].stage)
  {
    var rest, t := vs[i + 1..], vs[i].thread;
    assert forall j :: 0 <= j < |rest| ==> rest[j] == vs[i + 1 + j];
    NoFrames(rest, t);
    Around(vs, i, t, vs[i].h);
    hide FramesOf, FrameIn;
    assert FramesOf(vs[..i], t) + FrameIn(vs[i].stage) + [] == FramesOf(vs[..i], t) + FrameIn(vs[i].stage);
  }

  lemma {:induction false} FrameHasVisit(vs: seq<Visit>, thread: int, k: nat) returns (v: Visit)
    requires k < |FramesOf(vs, thread)|
    ensures v in vs && v.thread == thread && Framed(v.stage) && v.stage.frame == FramesOf(vs, thread)[k]
  {
    var own := if vs[0].thread == thread then |FrameIn(vs[0].stage)| else 0;
    if k < own {
      v := vs[0];
    } else {
      v := FrameHasVisit(vs[1..], thread, k - own);
    }
  }

  lemma {:induction false} VisitIsCounted(vs: seq<Visit>, v: Visit)
    requires v in vs && Counts(v)
    ensures Count(vs, v.h) > 0
  {
    if vs[0] != v {
      VisitIsCounted(vs[1..], v);
    }
  }

  // ---- the barrier's demands are met ---------------------------------------

  lemma EnterIsLegal(p: Process, orig: seq<Byte>, i: nat, callback: int, acl: B.Acl, e: B.Entry)
    requires ProcessOk(p, orig) && Possible(p, Enter(i, callback, acl, e))
    ensures BR.Legal(p.r, BR.EIntro(BarrierHook(p.visits[i].h, callback, acl), e))
  {
    hide WorldOk, Present;
    var v := p.visits[i];
    assert v in p.visits;
    VisitedIsMarked(p.w, orig, v);
    if e.thread in p.r.of {
      var s := p.r.of[e.thread];
      forall k | 0 <= k < |s| && s[k].index == v.h.index
        ensures s[k].ident == v.h.ident
      {
        var u := FrameHasVisit(p.visits, e.thread, k);
        VisitedIsMarked(p.w, orig, u);
      }
    }
  }

  lemma ExitIsLegal(p: Process, orig: seq<Byte>, i: nat)
    requires ProcessOk(p, orig) && Possible(p, Exit(i))
    ensures BR.Legal(p.r, BarrierCall(p, Exit(i)).value)
  {
    hide WorldOk, Present;
    assert p.visits[i] in p.visits;
    TopFrame(p.visits, i);
  }

  /** In every state of the process the barrier is called as its run theorems demand: exits
      innermost first, and never for a slot that another hook's active handler still owns. */
  lemma CallsAreLegal(p: Process, orig: seq<Byte>, ev: Event)
    requires ProcessOk(p, orig) && Possible(p, ev)
    ensures BarrierCall(p, ev).Some? ==> BR.Legal(p.r, BarrierCall(p, ev).value)
  {
    match ev
    case Enter(i, callback, acl, e) => EnterIsLegal(p, orig, i, callback, acl, e);
    case Exit(i) => ExitIsLegal(p, orig, i);
    case _ =>
  }

  /** A thread that comes to a hook is one that runs the code at its target: the bytes there lead
      to the hook's trampoline and nowhere else. */
  lemma ComesByTheJump(p: Process, orig: seq<Byte>, t: int, h: Hook, dec: X.Decoder)
    requires ProcessOk(p, orig) && Possible(p, Come(t, h))
    ensures HookJumps.GoesTo(dec, p.w.e.mem, h.target, h.trampoline)
  {
    hide HookJumps.GoesTo, Inv;
    HookJumps.LiveGoesTo(Seen(p.w), orig, h, dec);
  }

  // ---- every step keeps the invariant --------------------------------------

  lemma EngineStep(p: Process, orig: seq<Byte>, acl: B.Acl, move: Move)
    requires ProcessOk(p, orig) && Possible(p, HookMove(move))
    ensures ProcessOk(After(p, acl, HookMove(move)), orig)
  {
    hide WorldOk, Moved, Live, Seen, Retired, FramesOf, Count;
    StepKeepsWorld(p.w, orig, move);
    forall v | v in p.visits
      ensures VisitOk(Moved(p.w, move), v)
    {
      assert VisitOk(p.w, v);
      if Counts(v) {
        VisitIsCounted(p.visits, v);
        HooksStay(p.w, orig, move, v.h);
      }
    }
  }

  lemma ComeStep(p: Process, orig: seq<Byte>, acl: B.Acl, t: int, h: Hook)
    requires ProcessOk(p, orig) && Possible(p, Come(t, h))
    ensures ProcessOk(After(p, acl, Come(t, h)), orig)
  {
    hide WorldOk, Present, FramesOf, Count;
    var q, v := After(p, acl, Come(t, h)), Visit(t, h, Coming);
    forall k: Hook
      ensures Counter(q, k) == Count(q.visits, k)
    {
      CountJoin(p.visits, [v], k);
      OneVisit(v, t, k);
    }
    forall o: int
      ensures FramesOf(q.visits, o) == FramesOf(p.visits, o)
    {
      FramesJoin(p.visits, [v], o);
      OneVisit(v, o, h);
    }
  }

  /** The visits are well with visit i at stage g. */
  lemma StageOk(w: World, vs: seq<Visit>, i: nat, g: Stage)
    requires i < |vs| && (forall v :: v in vs ==> VisitOk(w, v)) && Present(w, vs[i].h)
    requires Framed(g) ==> g.frame.index == vs[i].h.index && g.frame.ident == vs[i].h.ident
    ensures forall v :: v in At(vs, i, g) ==> VisitOk(w, v)
  {
    hide Present;
    assert VisitOk(w, vs[i]);
  }

  /** Steps that leave the barrier alone. */
  lemma QuietStep(p: Process, orig: seq<Byte>, acl: B.Acl, i: nat, ev: Event)
    requires ProcessOk(p, orig) && Possible(p, ev)
    requires ev == CountIn(i) || ev == CountOut(i) || ev == Test(i) || ev == Start(i)
    ensures ProcessOk(After(p, acl, ev), orig)
  {
    hide WorldOk, Present, FramesOf, Count, Armed;
    var q, v := After(p, acl, ev), p.visits[i];
    var g := q.visits[i].stage;
    assert q.visits == At(p.visits, i, g) && v in p.visits;
    forall k: Hook
      ensures Counter(q, k) == Count(q.visits, k)
    {
      Restaged(p.visits, i, g, v.thread, k);
    }
    forall o: int
      ensures FramesOf(q.visits, o) == FramesOf(p.visits, o)
    {
      Restaged(p.visits, i, g, o, v.h);
    }
    StageOk(p.w, p.visits, i, g);
  }

  lemma EnterStep(p: Process, orig: seq<Byte>, acl: B.Acl, i: nat, callback: int, l: B.Acl, e: B.Entry)
    requires ProcessOk(p, orig) && Possible(p, Enter(i, callback, l, e))
    requires BR.Legal(p.r, BR.EIntro(BarrierHook(p.visits[i].h, callback, l), e))
    ensures ProcessOk(After(p, acl, Enter(i, callback, l, e)), orig)
  {
    hide WorldOk, Present, FramesOf, Count, B.Admits;
    var ev := Enter(i, callback, l, e);
    var q, v := After(p, acl, ev), p.visits[i];
    var (r, x) := BR.StackCall(p.r, acl, BarrierCall(p, ev).value);
    var f := BR.FrameOf(BarrierHook(v.h, callback, l), e);
    var g := if x == B.Entered then Granted(f) else Past;
    forall k: Hook
      ensures Counter(q, k) == Count(q.visits, k)
    {
      Restaged(p.visits, i, g, e.thread, k);
    }
    forall o: int
      ensures o != e.thread || x != B.Entered ==> FramesOf(q.visits, o) == FramesOf(p.visits, o)
      ensures o == e.thread && x == B.Entered ==> FramesOf(q.visits, o) == FramesOf(p.visits, o) + [f]
    {
      EnterFrames(p.visits, i, g, o);
    }
    if x == B.Entered {
      assert r.of[e.thread] == (if e.thread in p.r.of then p.r.of[e.thread] else []) + [f];
    }
    StageOk(p.w, p.visits, i, g);
  }

  lemma EnterFrames(vs: seq<Visit>, i: nat, g: Stage, o: int)
    requires i < |vs| && Top(vs, vs[i].thread, i) && !Framed(vs[i].stage)
    ensures FramesOf(At(vs, i, g), o) == FramesOf(vs, o) + (if o == vs[i].thread then FrameIn(g) else [])
  {
    hide FramesOf;
    var us := At(vs, i, g);
    Restaged(vs, i, g, o, vs[i].h);
    TopFrame(vs, i);
    TopFrame(us, i);
    assert us[..i] == vs[..i] && FramesOf(vs, o) + [] == FramesOf(vs, o);
    assert FramesOf(vs[..i], vs[i].thread) + [] == FramesOf(vs[..i], vs[i].thread);
  }

  lemma ExitStep(p: Process, orig: seq<Byte>, acl: B.Acl, i: nat)
    requires ProcessOk(p, orig) && Possible(p, Exit(i)) && BR.Legal(p.r, BarrierCall(p, Exit(i)).value)
    ensures ProcessOk(After(p, acl, Exit(i)), orig)
  {
    hide WorldOk, Present, FramesOf, Count;
    var q, v := After(p, acl, Exit(i)), p.visits[i];
    forall k: Hook
      ensures Counter(q, k) == Count(q.visits, k)
    {
      Restaged(p.visits, i, Past, v.thread, k);
    }
    forall o: int
      ensures o != v.thread ==> FramesOf(q.visits, o) == FramesOf(p.visits, o)
    {
      Restaged(p.visits, i, Past, o, v.h);
    }
    TopFrame(p.visits, i);
    TopFrame(q.visits, i);
    var front := FramesOf(p.visits[..i], v.thread);
    assert q.visits[..i] == p.visits[..i] && (front + [v.stage.frame])[..|front|] == front + [] == front;
    StageOk(p.w, p.visits, i, Past);
  }

  lemma LeaveStep(p: Process, orig: seq<Byte>, acl: B.Acl, i: nat)
    requires ProcessOk(p, orig) && Possible(p, Leave(i))
    ensures ProcessOk(After(p, acl, Leave(i)), orig)
  {
    hide WorldOk, Present, FramesOf, Count;
    var q, v := After(p, acl, Leave(i)), p.visits[i];
    forall k: Hook
      ensures Counter(q, k) == Count(q.visits, k)
    {
      Around(p.visits, i, v.thread, k);
    }
    forall o: int
      ensures FramesOf(q.visits, o) == FramesOf(p.visits, o)
    {
      Around(p.visits, i, o, v.h);
      assert FramesOf(p.visits[..i], o) + [] == FramesOf(p.visits[..i], o);
    }
    forall u | u in q.visits
      ensures VisitOk(q.w, u)
    {
      assert u in p.visits;
    }
  }

  lemma ThreadEndStep(p: Process, orig: seq<Byte>, acl: B.Acl, t: int)
    requires ProcessOk(p, orig) && Possible(p, ThreadEnd(t))
    ensures ProcessOk(After(p, acl, ThreadEnd(t)), orig)
  {
    hide WorldOk, VisitOk, FramesOf, Count;
    NoFrames(p.visits, t);
  }

  /** Hooks being installed, uninstalled and freed, and threads running through them, in any
      order: slots, code bytes, counters and the barrier's stacks stay in step. */
  lemma ProcessStep(p: Process, orig: seq<Byte>, acl: B.Acl, ev: Event)
    requires ProcessOk(p, orig) && Possible(p, ev)
    ensures BarrierCall(p, ev).Some? ==> BR.Legal(p.r, BarrierCall(p, ev).value)
    ensures ProcessOk(After(p, acl, ev), orig)
  {
    hide ProcessOk, After, BR.Legal;
    CallsAreLegal(p, orig, ev);
    match ev
    case HookMove(move) => EngineStep(p, orig, acl, move);
    case Come(t, h) => ComeStep(p, orig, acl, t, h);
    case CountIn(i) => QuietStep(p, orig, acl, i, ev);
    case Test(i) => QuietStep(p, orig, acl, i, ev);
    case Start(i) => QuietStep(p, orig, acl, i, ev);
    case Enter(i, callback, l, e) => EnterStep(p, orig, acl, i, callback, l, e);
    case Exit(i) => ExitStep(p, orig, acl, i);
    case CountOut(i) => QuietStep(p, orig, acl, i, ev);
    case Leave(i) => LeaveStep(p, orig, acl, i);
    case ThreadEnd(t) => ThreadEndStep(p, orig, acl, t);
  }

  // ---- what the counter does not cover -------------------------------------

  /** A hook whose counter lets a wait free it has no counted visit; so the free is safe if and
      only if no thread is on its way in or out of the hook's page. */
  lemma FreeIsSafeIff(p: Process, orig: seq<Byte>, h: Hook)
    requires ProcessOk(p, orig) && Possible(p, HookMove(SRelease(h)))
    ensures forall v :: v in p.visits && v.h == h ==> v.stage.Coming? || v.stage.Leaving?
    ensures (forall v :: v in p.visits ==> v.h != h)
      <==> forall v :: v in p.visits && v.h == h ==> !v.stage.Coming? && !v.stage.Leaving?
  {
    hide WorldOk;
    forall v | v in p.visits && v.h == h
      ensures !Counts(v)
    {
      if Counts(v) { VisitIsCounted(p.visits, v); }
    }
  }

  /** A thread loses the memory it runs on exactly when a wait frees its hook, and then it was
      not counted. */
  lemma StrandedIffFreed(p: Process, orig: seq<Byte>, acl: B.Acl, ev: Event, v: Visit)
    requires ProcessOk(p, orig) && Possible(p, ev) && v in p.visits && Present(p.w, v.h)
    requires BarrierCall(p, ev).Some? ==> BR.Legal(p.r, BarrierCall(p, ev).value)
    ensures !Present(After(p, acl, ev).w, v.h) <==> ev == HookMove(SRelease(v.h))
    ensures !Present(After(p, acl, ev).w, v.h) ==> !Counts(v)
  {
    hide WorldOk, Live, Seen, Retired;
    if ev.HookMove? {
      if ev.move == SRelease(v.h) {
        FreeIsSafeIff(p, orig, v.h);
        ReleasedIsGone(p.w, orig, v.h);
      } else {
        HooksStay(p.w, orig, ev.move, v.h);
      }
    }
  }

  lemma ReleasedIsGone(w: World, orig: seq<Byte>, h: Hook)
    requires WorldOk(w, orig) && h in w.held
    ensures !Present(Moved(w, SRelease(h)), h)
  {
    ReleaseStep(w, orig, h);
    hide Inv, AllPending, Live, Seen;
    assert h in Retired(w);
  }

  // ---- runs ----------------------------------------------------------------

  /** A run ends where the process crashes. */
  ghost predicate Crashes(p: Process, acl: B.Acl, ev: Event)
    requires BarrierCall(p, ev).Some? ==> BR.Legal(p.r, BarrierCall(p, ev).value)
  {
    BarrierCall(p, ev).Some? && BR.StackCall(p.r, acl, BarrierCall(p, ev).value).1 == B.Crashed
  }

  ghost predicate PossibleRun(p: Process, orig: seq<Byte>, acl: B.Acl, evs: seq<Event>)
    requires ProcessOk(p, orig)
    decreases |evs|
  {
    evs != [] ==>
      && Possible(p, evs[0])
      && (ProcessStep(p, orig, acl, evs[0]); !Crashes(p, acl, evs[0]) ==>
         PossibleRun(After(p, acl, evs[0]), orig, acl, evs[1..]))
  }

  /** The barrier calls of a run, in order. */
  ghost function Calls(p: Process, orig: seq<Byte>, acl: B.Acl, evs: seq<Event>): (cs: seq<BR.Event>)
    requires ProcessOk(p, orig) && PossibleRun(p, orig, acl, evs)
    decreases |evs|
  {
    if evs == [] then []
    else
      ProcessStep(p, orig, acl, evs[0]);
      var c := BarrierCall(p, evs[0]);
      (if c.Some? then [c.value] else [])
      + if Crashes(p, acl, evs[0]) then [] else Calls(After(p, acl, evs[0]), orig, acl, evs[1..])
  }

  /** The barrier calls of every run of the process form a run its theorems speak of. */
  lemma {:induction false} CallsAreLegalRun(p: Process, orig: seq<Byte>, acl: B.Acl, evs: seq<Event>)
    requires ProcessOk(p, orig) && PossibleRun(p, orig, acl, evs)
    ensures BR.LegalRun(p.r, acl, Calls(p, orig, acl, evs))
    decreases |evs|
  {
    hide ProcessOk, Possible, BarrierCall, BR.Legal, BR.StackCall;
    if evs != [] {
      ProcessStep(p, orig, acl, evs[0]);
      var c := BarrierCall(p, evs[0]);
      if !Crashes(p, acl, evs[0]) {
        var q := After(p, acl, evs[0]);
        CallsAreLegalRun(q, orig, acl, evs[1..]);
        StacksAfter(p, orig, acl, evs[0]);
        var rest := Calls(q, orig, acl, evs[1..]);
        if c.Some? {
          assert ([c.value] + rest)[1..] == rest;
        } else {
          assert [] + rest == rest;
        }
      }
    }
  }

  /** The state a run ends in. */
  ghost function AfterRun(p: Process, orig: seq<Byte>, acl: B.Acl, evs: seq<Event>): (q: Process)
    requires ProcessOk(p, orig) && PossibleRun(p, orig, acl, evs)
    ensures ProcessOk(q, orig)
    decreases |evs|
  {
    if evs == [] then p
    else
      ProcessStep(p, orig, acl, evs[0]);
      if Crashes(p, acl, evs[0]) then p else AfterRun(After(p, acl, evs[0]), orig, acl, evs[1..])
  }

  lemma StacksAfter(p: Process, orig: seq<Byte>, acl: B.Acl, ev: Event)
    requires ProcessOk(p, orig) && Possible(p, ev)
    requires BarrierCall(p, ev).Some? ==> BR.Legal(p.r, BarrierCall(p, ev).value)
    ensures var c := BarrierCall(p, ev);
      After(p, acl, ev).r == if c.Some? then BR.StackCall(p.r, acl, c.value).0 else p.r
  {
    hide ProcessOk;
  }

  function Loaded(orig: seq<Byte>): (p: Process) { Process(Begun(orig), BR.Stacks(map[], {}, {}), [], map[]) }

  lemma LoadedOk(orig: seq<Byte>)
    ensures ProcessOk(Loaded(orig), orig)
  {
    hide WorldOk;
    BegunOk(orig);
  }

  /** So whatever hooks come and go while threads run through them, no assertion of the
      barrier fires. */
  lemma NoAssertionInProcess(orig: seq<Byte>, acl: B.Acl, evs: seq<Event>)
    requires (LoadedOk(orig); PossibleRun(Loaded(orig), orig, acl, evs))
    ensures (LoadedOk(orig);
      B.Asserted !in BR.TableRun(BR.AttachedUnit().(acl := acl), Calls(Loaded(orig), orig, acl, evs)).1)
  {
    CallsAreLegalRun(Loaded(orig), orig, acl, evs);
    BR.AssertionsNeverFire(acl, Calls(Loaded(orig), orig, acl, evs));
  }

  // ---- a run that frees memory under a thread ------------------------------

  lemma OneEvent(p: Process, orig: seq<Byte>, acl: B.Acl, ev: Event, rest: seq<Event>)
    requires ProcessOk(p, orig) && Possible(p, ev) && BarrierCall(p, ev).None? && ProcessOk(After(p, acl, ev), orig)
    requires PossibleRun(After(p, acl, ev), orig, acl, rest)
    ensures PossibleRun(p, orig, acl, [ev] + rest)
    ensures AfterRun(p, orig, acl, [ev] + rest) == AfterRun(After(p, acl, ev), orig, acl, rest)
  {
    hide ProcessOk, Possible, After;
    assert ([ev] + rest)[1..] == rest;
  }

  /** A wait that finds h pending and idle. */
  function Freeing(h: Hook): (evs: seq<Event>) {
    [HookMove(SPop)] + ([HookMove(SRestore(h))] + ([HookMove(SRelease(h))] + []))
  }

  lemma FreeingRuns(p: Process, orig: seq<Byte>, acl: B.Acl, h: Hook)
    requires ProcessOk(p, orig) && p.w.e.removal == [h] && Counter(p, h) <= 0
    ensures PossibleRun(p, orig, acl, Freeing(h))
    ensures var q := AfterRun(p, orig, acl, Freeing(h)); q.visits == p.visits && !Present(q.w, h)
  {
    hide WorldOk, Live, Seen, Retired, Splice, Window;
    var p2 := After(p, acl, HookMove(SPop));
    ProcessStep(p, orig, acl, HookMove(SPop));
    assert h in p2.w.popped;
    var p3 := After(p2, acl, HookMove(SRestore(h)));
    ProcessStep(p2, orig, acl, HookMove(SRestore(h)));
    RestoreStep(p2.w, orig, h);
    var p4 := After(p3, acl, HookMove(SRelease(h)));
    ProcessStep(p3, orig, acl, HookMove(SRelease(h)));
    ReleasedIsGone(p3.w, orig, h);
    hide ProcessOk, After, PossibleRun, AfterRun;
    NoEvents(p4, orig, acl);
    OneEvent(p3, orig, acl, HookMove(SRelease(h)), []);
    OneEvent(p2, orig, acl, HookMove(SRestore(h)), [HookMove(SRelease(h))] + []);
    OneEvent(p, orig, acl, HookMove(SPop), [HookMove(SRestore(h))] + ([HookMove(SRelease(h))] + []));
  }

  /** Uninstalling h while nothing else is pending. */
  lemma UninstallRuns(p: Process, orig: seq<Byte>, acl: B.Acl, h: Hook)
    requires ProcessOk(p, orig) && h in p.w.e.list && p.w.e.removal == []
    ensures Possible(p, HookMove(SUninstall(h)))
    ensures var q := After(p, acl, HookMove(SUninstall(h)));
      ProcessOk(q, orig) && q == p.(w := q.w) && q.w.e.removal == [h] && !Armed(q.w, h) && Present(q.w, h)
  {
    var q := After(p, acl, HookMove(SUninstall(h)));
    ProcessStep(p, orig, acl, HookMove(SUninstall(h)));
    Unlisted(p.w, orig, h);
    hide ProcessOk, WorldOk;
    assert q.w.e.removal == [h] + [] == [h];
    assert h in Elements(q.w.e.removal);
  }

  lemma Unlisted(w: World, orig: seq<Byte>, h: Hook)
    requires WorldOk(w, orig) && h in w.e.list
    ensures var v := Moved(w, SUninstall(h)); h !in v.e.list && h !in v.e.dropped && h !in v.planted
  {
    var at := Find(w.e.list, h);
    SplitElements(w.e.list, at.value);
    assert h in Elements(w.e.list);
    hide Inv, AllPending;
  }

  lemma NoEvents(p: Process, orig: seq<Byte>, acl: B.Acl)
    requires ProcessOk(p, orig)
    ensures PossibleRun(p, orig, acl, []) && AfterRun(p, orig, acl, []) == p
  {
  }

  /** A new thread comes to a listed hook. */
  lemma NewcomerComes(p: Process, orig: seq<Byte>, acl: B.Acl, t: int, h: Hook)
    requires ProcessOk(p, orig) && h in p.w.e.list && t != 0 && forall v :: v in p.visits ==> v.thread != t
    ensures Possible(p, Come(t, h))
    ensures var q, n := After(p, acl, Come(t, h)), |p.visits|;
      && ProcessOk(q, orig) && q == p.(visits := p.visits + [Visit(t, h, Coming)]) && Possible(q, CountIn(n))
  {
    ListedIsLive(p.w, h);
    ComeStep(p, orig, acl, t, h);
    hide ProcessOk, WorldOk, Live, Seen, Retired, Armed;
    var q := After(p, acl, Come(t, h));
    assert Top(q.visits, t, |p.visits|);
  }

  lemma NewcomerCounts(p: Process, orig: seq<Byte>, acl: B.Acl, i: nat)
    requires ProcessOk(p, orig) && Possible(p, CountIn(i))
    ensures var q, v := After(p, acl, CountIn(i)), p.visits[i];
      && ProcessOk(q, orig) && Runs(q, i)
      && q == p.(visits := At(p.visits, i, Counted), counters := p.counters[v.h := Counter(p, v.h) + 1])
  {
    QuietStep(p, orig, acl, i, CountIn(i));
    hide ProcessOk, Present, Armed, FramesOf, Count;
    StaysTop(p.visits, i, Counted);
  }

  lemma StaysTop(vs: seq<Visit>, i: nat, g: Stage)
    requires i < |vs| && Top(vs, vs[i].thread, i)
    ensures Top(At(vs, i, g), vs[i].thread, i)
  {
  }

  /** It comes and is counted in. */
  lemma CountedIn(p: Process, orig: seq<Byte>, acl: B.Acl, t: int, h: Hook, rest: seq<Event>)
    requires ProcessOk(p, orig) && h in p.w.e.list && t != 0 && forall v :: v in p.visits ==> v.thread != t
    ensures var q := p.(visits := p.visits + [Visit(t, h, Counted)], counters := p.counters[h := Counter(p, h) + 1]);
      var evs := [Come(t, h)] + ([CountIn(|p.visits|)] + rest);
      && ProcessOk(q, orig) && Runs(q, |p.visits|)
      && (PossibleRun(q, orig, acl, rest) ==>
           PossibleRun(p, orig, acl, evs) && AfterRun(p, orig, acl, evs) == AfterRun(q, orig, acl, rest))
  {
    hide ProcessOk, After, PossibleRun, AfterRun, Possible, Runs;
    var n := |p.visits|;
    NewcomerComes(p, orig, acl, t, h);
    var p1 := After(p, acl, Come(t, h));
    NewcomerCounts(p1, orig, acl, n);
    var q := After(p1, acl, CountIn(n));
    assert At(p1.visits, n, Counted) == p.visits + [Visit(t, h, Counted)];
    if PossibleRun(q, orig, acl, rest) {
      OneEvent(p1, orig, acl, CountIn(n), rest);
      OneEvent(p, orig, acl, Come(t, h), [CountIn(n)] + rest);
    }
  }

  /** A counted thread whose hook is uninstalled finds no handler and is counted out. */
  lemma LedPast(p: Process, orig: seq<Byte>, acl: B.Acl, i: nat, h: Hook)
    requires ProcessOk(p, orig) && h in p.w.e.list && p.w.e.removal == [] && Counter(p, h) == 1
    requires Runs(p, i) && p.visits[i] == Visit(p.visits[i].thread, h, Counted)
    ensures var evs := [HookMove(SUninstall(h))] + ([Test(i)] + ([CountOut(i)] + Freeing(h)));
      && PossibleRun(p, orig, acl, evs)
      && var q := AfterRun(p, orig, acl, evs);
      && q.visits == At(p.visits, i, Leaving) && !Present(q.w, h)
  {
    hide WorldOk, Live, Seen, Retired, Armed, Present;
    UninstallRuns(p, orig, acl, h);
    var p1 := After(p, acl, HookMove(SUninstall(h)));
    var p2 := After(p1, acl, Test(i));
    ProcessStep(p1, orig, acl, Test(i));
    var p3 := After(p2, acl, CountOut(i));
    ProcessStep(p2, orig, acl, CountOut(i));
    assert p3.visits == At(p.visits, i, Leaving);
    FreeingRuns(p3, orig, acl, h);
    hide ProcessOk, After, PossibleRun, AfterRun, Freeing;
    OneEvent(p2, orig, acl, CountOut(i), Freeing(h));
    OneEvent(p1, orig, acl, Test(i), [CountOut(i)] + Freeing(h));
    OneEvent(p, orig, acl, HookMove(SUninstall(h)), [Test(i)] + ([CountOut(i)] + Freeing(h)));
  }

  /** A thread comes to an installed hook and is counted in; the hook is uninstalled, so the thread
      finds no handler and is counted out; then the hook is freed before the thread has left the
      page. */
  lemma FreedWhileLeaving(p: Process, orig: seq<Byte>, acl: B.Acl, t: int, h: Hook)
    requires ProcessOk(p, orig) && h in p.w.e.list && p.w.e.removal == [] && Counter(p, h) == 0
    requires t != 0 && forall v :: v in p.visits ==> v.thread != t
    ensures var n := |p.visits|;
      var evs := [Come(t, h)]
        + ([CountIn(n)] + ([HookMove(SUninstall(h))] + ([Test(n)] + ([CountOut(n)] + Freeing(h)))));
      && PossibleRun(p, orig, acl, evs)
      && var q := AfterRun(p, orig, acl, evs);
      && q.visits == p.visits + [Visit(t, h, Leaving)] && !Present(q.w, h)
  {
    hide ProcessOk, PossibleRun, AfterRun, Freeing, Runs;
    var n := |p.visits|;
    var rest := [HookMove(SUninstall(h))] + ([Test(n)] + ([CountOut(n)] + Freeing(h)));
    CountedIn(p, orig, acl, t, h, rest);
    var q := p.(visits := p.visits + [Visit(t, h, Counted)], counters := p.counters[h := Counter(p, h) + 1]);
    LedPast(q, orig, acl, n, h);
    assert At(q.visits, n, Leaving) == p.visits + [Visit(t, h, Leaving)];
  }

  /** The same for a thread that has taken the jump and is not counted yet. */
  lemma FreedWhileComing(p: Process, orig: seq<Byte>, acl: B.Acl, t: int, h: Hook)
    requires ProcessOk(p, orig) && h in p.w.e.list && p.w.e.removal == [] && Counter(p, h) == 0 && t != 0
    ensures var evs := [Come(t, h)] + ([HookMove(SUninstall(h))] + Freeing(h));
      && PossibleRun(p, orig, acl, evs)
      && var q := AfterRun(p, orig, acl, evs);
      && q.visits == p.visits + [Visit(t, h, Coming)] && !Present(q.w, h)
  {
    hide WorldOk, Live, Seen, Retired, Armed;
    ListedIsLive(p.w, h);
    var p1 := After(p, acl, Come(t, h));
    ProcessStep(p, orig, acl, Come(t, h));
    UninstallRuns(p1, orig, acl, h);
    var p2 := After(p1, acl, HookMove(SUninstall(h)));
    FreeingRuns(p2, orig, acl, h);
    hide ProcessOk, After, PossibleRun, AfterRun, Freeing;
    OneEvent(p1, orig, acl, HookMove(SUninstall(h)), Freeing(h));
    OneEvent(p, orig, acl, Come(t, h), [HookMove(SUninstall(h))] + Freeing(h));
  }

  lemma ListedIsLive(w: World, h: Hook)
    requires h in w.e.list
    ensures h in Live(Seen(w))
  {
  }
}
