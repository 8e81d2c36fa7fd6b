/** The flat per-hook table of the barrier refines one stack of handler frames per thread,
    over every run of entries, exits and thread ends. */
module BarrierRuns {
  import opened Wrappers
  import opened Barrier

  /** An active handler: the hook it belongs to and what to restore on exit. */
  datatype Frame = Frame(index: nat, ident: int, ret: int, addrOfRet: int, callback: int)

  /** The reference machine: a stack for every known thread, the threads whose table could
      not be allocated, and the threads whose last barrier call entered a handler. */
  datatype Stacks = Stacks(of: map<int, seq<Frame>>, broken: set<int>, live: set<int>)

  /** The frame an entry pushes. */
  function FrameOf(h: Hook, e: Entry): (f: Frame) { Frame(h.index, h.ident, e.ret, e.addrOfRet, h.callback) }

  predicate Active(s: seq<Frame>, index: nat) { exists i :: 0 <= i < |s| && s[i].index == index }

  function EnterFrame(r: Stacks, acl: Acl, h: Hook, e: Entry): (x: (Stacks, Result))
    requires e.thread in r.of
  {
    var s := r.of[e.thread];
    if Active(s, h.index) || !Admits(acl, e.thread)
      || !Admits(h.acl, e.thread) then (r.(live := r.live - {e.thread}), Refused)
    else (r.(of := r.of[e.thread := s + [FrameOf(h, e)]], live := r.live + {e.thread}),
          Entered)
  }

  function StackIntro(r: Stacks, acl: Acl, h: Hook, e: Entry): (x: (Stacks, Result)) {
    if e.loaderLock then (r, Refused)
    else if e.thread !in r.of then
      if |r.of| == MAX_THREAD_COUNT then (r, Refused)
      else
        var q := r.(of := r.of[e.thread := []]);
        if e.memory then EnterFrame(q, acl, h, e) else (q.(broken := q.broken + {e.thread}), Refused)
    else if e.thread in r.broken then (r, Crashed)
    else EnterFrame(r, acl, h, e)
  }

  function StackOutro(r: Stacks, thread: int): (x: (Stacks, Result))
    requires thread in r.of && r.of[thread] != []
  {
    var s := r.of[thread];
    (r.(of := r.of[thread := s[..|s| - 1]], live := r.live - {thread}), Returned(s[|s| - 1].ret))
  }

  function StackDetach(r: Stacks, thread: int): (x: (Stacks, Result)) {
    (Stacks(r.of - {thread}, r.broken - {thread}, r.live - {thread}), Detached)
  }

  // ---- the refinement relation ---------------------------------------------

  /** The table holds exactly the frames of the stack. */
  ghost predicate Framed(es: seq<RuntimeInfo>, s: seq<Frame>) {
    && |es| == MAX_HOOK_COUNT
    && (forall i :: 0 <= i < |s| ==> s[i].index < MAX_HOOK_COUNT)
    && (forall i :: 0 <= i < |s| ==> es[s[i].index] == RuntimeInfo(true, s[i].ident, s[i].ret, s[i].addrOfRet))
    && (forall i, j :: 0 <= i < j < |s| ==> s[i].index != s[j].index)
    && (forall k :: 0 <= k < |es| && es[k].isExecuting ==> Active(s, k))
  }

  ghost predicate ThreadOk(t: ThreadInfo, s: seq<Frame>, broken: bool, live: bool) {
    && !t.isProtected
    && (broken ==> t.entries.None? && s == [] && !live)
    && (!broken ==> t.entries.Some? && Framed(t.entries.value, s))
    && (live ==> s != [])
    && t.current == (if live then Some(s[|s| - 1].index) else None)
    && t.callback == (if live then s[|s| - 1].callback else 0)
  }

  ghost predicate Distinct(ids: seq<int>) {
    forall i, j :: 0 <= i < j < |ids| && ids[i] != 0 ==> ids[i] != ids[j]
  }

  ghost function IdSet(ids: seq<int>): (r: set<int>) { set x | x in ids && x != 0 }

  ghost predicate SlotOk(u: Unit, r: Stacks, i: int)
    requires Shaped(u) && 0 <= i < MAX_THREAD_COUNT
  {
    u.ids[i] != 0 ==> u.ids[i] in r.of && ThreadOk(u.infos[i], r.of[u.ids[i]], u.ids[i] in r.broken, u.ids[i] in r.live)
  }

  ghost predicate Refines(u: Unit, r: Stacks) {
    && Shaped(u) && Distinct(u.ids) && r.of.Keys == IdSet(u.ids) && r.broken <= r.of.Keys && r.live <= r.of.Keys
    && forall i :: 0 <= i < MAX_THREAD_COUNT ==> SlotOk(u, r, i)
  }

  // ---- one thread ----------------------------------------------------------

  /** Entering: the flat table refuses exactly when the stack does, and otherwise holds the
      new frame. */
  lemma EnterRefines(acl: Acl, t: ThreadInfo, h: Hook, e: Entry, s: seq<Frame>)
    requires h.index < MAX_HOOK_COUNT && t.entries.Some? && Framed(t.entries.value, s)
    requires forall i :: 0 <= i < |s| && s[i].index == h.index ==> s[i].ident == h.ident
    ensures var (n, r) := IntroThread(acl, t, h, e);
      if Active(s, h.index) || !Admits(acl, e.thread) || !Admits(h.acl, e.thread)
      then r == Refused && ThreadOk(n, s, false, false)
      else r == Entered && ThreadOk(n, s + [FrameOf(h, e)], false, true)
  {
    hide Admits;
    var es := t.entries.value;
    if Active(s, h.index) {
      var i :| 0 <= i < |s| && s[i].index == h.index;
      assert es[h.index] == RuntimeInfo(true, s[i].ident, s[i].ret, s[i].addrOfRet);
    } else {
      assert !es[h.index].isExecuting;
      var slot := if es[h.index].ident != h.ident then es[h.index].(ident := h.ident, isExecuting := false)
        else es[h.index];
      var f := FrameOf(h, e);
      IdleSlot(es, s, h.index, slot);
      PushedSlot(es, s, f);
      assert slot.(isExecuting := true, ret := e.ret, addrOfRet := e.addrOfRet)
        == RuntimeInfo(true, f.ident, f.ret, f.addrOfRet);
    }
  }

  /** Rewriting an idle slot keeps the frames. */
  lemma IdleSlot(es: seq<RuntimeInfo>, s: seq<Frame>, k: nat, slot: RuntimeInfo)
    requires Framed(es, s) && k < |es| && !Active(s, k) && !slot.isExecuting
    ensures Framed(es[k := slot], s)
  {
    assert forall i :: 0 <= i < |s| ==> s[i].index != k;
  }

  lemma PushedSlot(es: seq<RuntimeInfo>, s: seq<Frame>, f: Frame)
    requires Framed(es, s) && f.index < |es| && !Active(s, f.index)
    ensures Framed(es[f.index := RuntimeInfo(true, f.ident, f.ret, f.addrOfRet)], s + [f])
  {
    var n, q := es[f.index := RuntimeInfo(true, f.ident, f.ret, f.addrOfRet)], s + [f];
    assert forall i :: 0 <= i < |s| ==> s[i].index != f.index;
    assert q[|s|] == f;
    forall k | 0 <= k < |n| && n[k].isExecuting
      ensures Active(q, k)
    {
      if k == f.index {
        assert q[|s|].index == k;
      } else {
        var i :| 0 <= i < |s| && s[i].index == k;
        assert q[i].index == k;
      }
    }
  }

  /** Leaving: the slot of the top frame becomes idle. */
  lemma PoppedSlot(es: seq<RuntimeInfo>, s: seq<Frame>)
    requires Framed(es, s) && s != []
    ensures var f := s[|s| - 1];
      es[f.index] == RuntimeInfo(true, f.ident, f.ret, f.addrOfRet)
      && Framed(es[f.index := es[f.index].(isExecuting := false)], s[..|s| - 1])
  {
    var f, q := s[|s| - 1], s[..|s| - 1];
    var n := es[f.index := es[f.index].(isExecuting := false)];
    forall k | 0 <= k < |n| && n[k].isExecuting
      ensures Active(q, k)
    {
      var i :| 0 <= i < |s| && s[i].index == k;
      assert q[i].index == k;
    }
  }

  // ---- the slot table ------------------------------------------------------

  lemma SlotIsUnique(ids: seq<int>, i: nat)
    requires Distinct(ids) && i < |ids| && ids[i] != 0
    ensures Find(ids, ids[i]) == Some(i)
  {
    FindIs(ids, ids[i], i);
  }

  lemma {:induction false} CountIds(ids: seq<int>)
    requires Distinct(ids)
    ensures |IdSet(ids)| <= |ids|
    ensures |IdSet(ids)| == |ids| <==> 0 !in ids
  {
    if ids == [] {
      assert IdSet(ids) == {};
    } else {
      var rest := ids[1..];
      assert Distinct(rest) by {
        assert forall i, j :: 0 <= i < j < |rest| ==> rest[i] == ids[i + 1] && rest[j] == ids[j + 1];
      }
      CountIds(rest);
      assert ids == [ids[0]] + rest;
      if ids[0] == 0 {
        assert IdSet(ids) == IdSet(rest);
      } else {
        assert ids[0] !in rest;
        assert IdSet(ids) == IdSet(rest) + {ids[0]};
      }
    }
  }

  /** There is a free slot exactly while fewer than MAX_THREAD_COUNT threads are known. */
  lemma FreeSlot(u: Unit, r: Stacks)
    requires Refines(u, r)
    ensures Find(u.ids, 0).None? <==> |r.of| == MAX_THREAD_COUNT
  {
    CountIds(u.ids);
    assert |r.of| == |r.of.Keys|;
  }

  /** Replacing one thread's record and stack keeps the refinement of the others. */
  lemma UpdateThread(u: Unit, r: Stacks, i: nat, t: ThreadInfo, q: Stacks)
    requires Refines(u, r) && i < MAX_THREAD_COUNT && u.ids[i] != 0
    requires q.of.Keys == r.of.Keys && q.broken == r.broken && q.live <= q.of.Keys
    requires forall x :: x in r.of && x != u.ids[i] ==> q.of[x] == r.of[x] && (x in q.live <==> x in r.live)
    requires ThreadOk(t, q.of[u.ids[i]], u.ids[i] in q.broken, u.ids[i] in q.live)
    ensures Refines(SetInfo(u, i, t), q)
  {
    hide ThreadOk;
    var v := SetInfo(u, i, t);
    forall k | 0 <= k < MAX_THREAD_COUNT
      ensures SlotOk(v, q, k)
    {
      assert SlotOk(u, r, k);
    }
  }

  /** Claiming a free slot for an unknown thread. */
  lemma AddThread(u: Unit, r: Stacks, thread: int, i: nat, t: ThreadInfo, s: seq<Frame>, broken: bool, live: bool)
    requires Refines(u, r) && i < MAX_THREAD_COUNT && u.ids[i] == 0 && thread != 0 && thread !in u.ids
    requires ThreadOk(t, s, broken, live)
    ensures Refines(SetInfo(u.(ids := u.ids[i := thread]), i, t),
                    Stacks(r.of[thread := s], if broken then r.broken + {thread}
                      else r.broken, if live then r.live + {thread} else r.live))
  {
    hide ThreadOk;
    var v := SetInfo(u.(ids := u.ids[i := thread]), i, t);
    var q := Stacks(r.of[thread := s], if broken then r.broken + {thread} else r.broken, if live then r.live + {thread}
      else r.live);
    assert thread !in r.of.Keys;
    assert IdSet(v.ids) == IdSet(u.ids) + {thread} by {
      forall x | x in IdSet(u.ids)
        ensures x in IdSet(v.ids)
      {
        var k :| 0 <= k < |u.ids| && u.ids[k] == x;
        assert v.ids[k] == x;
      }
      assert v.ids[i] == thread;
    }
    forall k | 0 <= k < MAX_THREAD_COUNT
      ensures SlotOk(v, q, k)
    {
      assert SlotOk(u, r, k);
    }
  }

  /** Giving up a slot. */
  lemma RemoveThread(u: Unit, r: Stacks, i: nat)
    requires Refines(u, r) && i < MAX_THREAD_COUNT && u.ids[i] != 0
    ensures Refines(SetInfo(u, i, ZERO_THREAD).(ids := u.ids[i := 0]), StackDetach(r, u.ids[i]).0)
  {
    hide ThreadOk;
    var thread := u.ids[i];
    var v, q := SetInfo(u, i, ZERO_THREAD).(ids := u.ids[i := 0]), StackDetach(r, thread).0;
    assert IdSet(v.ids) == IdSet(u.ids) - {thread} by {
      forall x | x in IdSet(u.ids) - {thread}
        ensures x in IdSet(v.ids)
      {
        var k :| 0 <= k < |u.ids| && u.ids[k] == x;
        assert v.ids[k] == x;
      }
      assert thread !in v.ids;
    }
    forall k | 0 <= k < MAX_THREAD_COUNT
      ensures SlotOk(v, q, k)
    {
      assert SlotOk(u, r, k);
    }
  }

  // ---- one call ------------------------------------------------------------

  datatype Event = EIntro(h: Hook, e: Entry) | EOutro(h: Hook, thread: int) | EDetach(thread: int)

  /** Calls as the trampoline makes them: hook slots in range, exits innermost first, no
      slot given to another hook while a handler of its old hook is active. */
  ghost predicate Legal(r: Stacks, ev: Event) {
    match ev
    case EIntro(h, e) =>
      && e.thread != 0 && h.index < MAX_HOOK_COUNT
      && (e.thread in r.of ==> forall i :: 0 <= i < |r.of[e.thread]| && r.of[e.thread][i].index == h.index ==>
         r.of[e.thread][i].ident == h.ident)
    case EOutro(h, t) =>
      t in r.of && r.of[t] != [] && r.of[t][|r.of[t]| - 1].index == h.index && r.of[t][|r.of[t]| - 1].ident == h.ident
    case EDetach(t) => t != 0
  }

  /** One call on the table; the trampoline leaves zero where the return address goes. */
  function Call(u: Unit, ev: Event): (r: (Unit, Result))
    requires Shaped(u)
  {
    match ev
    case EIntro(h, e) => Intro(u, h, e)
    case EOutro(h, t) => Outro(u, h, t, 0)
    case EDetach(t) => Detach(u, t)
  }

  function StackCall(r: Stacks, acl: Acl, ev: Event): (res: (Stacks, Result))
    requires ev.EOutro? ==> ev.thread in r.of && r.of[ev.thread] != []
  {
    match ev
    case EIntro(h, e) => StackIntro(r, acl, h, e)
    case EOutro(h, t) => StackOutro(r, t)
    case EDetach(t) => StackDetach(r, t)
  }

  lemma KnownThread(u: Unit, r: Stacks, thread: int)
    requires Refines(u, r) && thread != 0
    ensures var at := Find(u.ids, thread);
      && (at.Some? <==> thread in r.of)
      && (at.Some? ==> at.value < MAX_THREAD_COUNT && u.ids[at.value] == thread)
      && (at.Some? ==> ThreadOk(u.infos[at.value], r.of[thread], thread in r.broken, thread in r.live))
  {
    hide ThreadOk;
    var at := Find(u.ids, thread);
    assert thread in r.of <==> thread in IdSet(u.ids);
    if at.Some? {
      assert SlotOk(u, r, at.value);
    }
  }

  lemma NewThreadIntro(u: Unit, r: Stacks, h: Hook, e: Entry)
    requires Refines(u, r) && Legal(r, EIntro(h, e)) && !e.loaderLock && e.thread !in r.of && Find(u.ids, 0).Some?
    ensures var (v, x), (q, y) := Intro(u, h, e), StackIntro(r, u.acl, h, e);
      x == y && (x != Crashed ==> Refines(v, q))
  {
    hide SlotOk, Intro, StackIntro, Distinct;
    KnownThread(u, r, e.thread);
    FreeSlot(u, r);
    if e.memory {
      NewThreadEnters(u, r, h, e, Find(u.ids, 0).value);
    } else {
      NewThreadFails(u, r, h, e, Find(u.ids, 0).value);
    }
  }

  /** Without memory the new thread is broken from the start. */
  lemma NewThreadFails(u: Unit, r: Stacks, h: Hook, e: Entry, i: nat)
    requires Refines(u, r) && !e.loaderLock && !e.memory && e.thread !in r.of && e.thread != 0
    requires |r.of| != MAX_THREAD_COUNT && h.index < MAX_HOOK_COUNT
    requires Find(u.ids, 0) == Some(i) && i < MAX_THREAD_COUNT && u.ids[i] == 0 && e.thread !in u.ids
    ensures var (v, x), (q, y) := Intro(u, h, e), StackIntro(r, u.acl, h, e);
      x == y && (x != Crashed ==> Refines(v, q))
  {
    hide Admits, SlotOk, Distinct;
    AddThread(u, r, e.thread, i, ZERO_THREAD, [], true, false);
    assert r.live - {e.thread} == r.live;
  }

  lemma NewThreadEnters(u: Unit, r: Stacks, h: Hook, e: Entry, i: nat)
    requires Refines(u, r) && !e.loaderLock && e.memory && e.thread !in r.of && e.thread != 0
    requires |r.of| != MAX_THREAD_COUNT && h.index < MAX_HOOK_COUNT
    requires Find(u.ids, 0) == Some(i) && i < MAX_THREAD_COUNT && u.ids[i] == 0 && e.thread !in u.ids
    ensures var (v, x), (q, y) := Intro(u, h, e), StackIntro(r, u.acl, h, e);
      x == y && (x != Crashed ==> Refines(v, q))
  {
    hide Refines, Intro, StackIntro, Framed, ThreadOk, IntroThread, Admits, ZeroEntries, Active;
    var t0 := ZERO_THREAD.(entries := Some(ZeroEntries()));
    NothingFramed();
    NoneActive(h.index);
    EnterRefines(u.acl, t0, h, e, []);
    var (t, x) := IntroThread(u.acl, t0, h, e);
    var f := [FrameOf(h, e)];
    assert [] + f == f;
    NewIntroIs(u, r, h, e, i);
    NewStackIs(u, r, h, e);
    AddThread(u, r, e.thread, i, t, if x == Entered then f else [], false, x == Entered);
  }

  lemma NoneActive(index: nat)
    ensures !Active([], index)
  {
  }

  lemma NewIntroIs(u: Unit, r: Stacks, h: Hook, e: Entry, i: nat)
    requires Refines(u, r) && !e.loaderLock && e.memory && h.index < MAX_HOOK_COUNT
    requires Find(u.ids, 0) == Some(i) && i < MAX_THREAD_COUNT && e.thread !in u.ids
    ensures var (t, x) := IntroThread(u.acl, ZERO_THREAD.(entries := Some(ZeroEntries())), h, e);
      Shaped(u) && Intro(u, h, e) == (SetInfo(u.(ids := u.ids[i := e.thread]), i, t), x)
  {
    hide IntroThread, SlotOk, Distinct, ZeroEntries;
  }

  lemma NewStackIs(u: Unit, r: Stacks, h: Hook, e: Entry)
    requires Refines(u, r) && !e.loaderLock && e.memory && e.thread !in r.of && |r.of| != MAX_THREAD_COUNT
    ensures StackIntro(r, u.acl, h, e) ==
      if Admits(u.acl, e.thread) && Admits(h.acl, e.thread)
      then (Stacks(r.of[e.thread := [FrameOf(h, e)]], r.broken, r.live + {e.thread}),
            Entered)
      else (Stacks(r.of[e.thread := []], r.broken, r.live), Refused)
  {
    hide SlotOk, Distinct, Admits;
    NoneActive(h.index);
    var f := [FrameOf(h, e)];
    assert [] + f == f && r.of[e.thread := []][e.thread := f] == r.of[e.thread := f];
    assert r.live - {e.thread} == r.live;
  }

  lemma NothingFramed()
    ensures Framed(ZeroEntries(), [])
  {
  }

  lemma KnownThreadIntro(u: Unit, r: Stacks, h: Hook, e: Entry)
    requires Refines(u, r) && Legal(r, EIntro(h, e)) && !e.loaderLock && e.thread in r.of
    ensures var (v, x), (q, y) := Intro(u, h, e), StackIntro(r, u.acl, h, e);
      x == y && (x != Crashed ==> Refines(v, q))
  {
    hide Admits;
    KnownThread(u, r, e.thread);
    var i := Find(u.ids, e.thread).value;
    if e.thread !in r.broken {
      EnterRefines(u.acl, u.infos[i], h, e, r.of[e.thread]);
      var (t, x) := IntroThread(u.acl, u.infos[i], h, e);
      hide IntroThread, ThreadOk;
      UpdateThread(u, r, i, t, EnterFrame(r, u.acl, h, e).0);
    }
  }

  lemma OutroStep(u: Unit, r: Stacks, h: Hook, thread: int)
    requires Refines(u, r) && Legal(r, EOutro(h, thread)) && thread != 0
    ensures var (v, x), (q, y) := Outro(u, h, thread, 0), StackOutro(r, thread);
      x == y && Refines(v, q)
  {
    KnownThread(u, r, thread);
    var i, s := Find(u.ids, thread).value, r.of[thread];
    PoppedSlot(u.infos[i].entries.value, s);
    UpdateThread(u, r, i, Outro(u, h, thread, 0).0.infos[i], StackOutro(r, thread).0);
  }

  lemma LegalIsReady(u: Unit, r: Stacks, ev: Event)
    requires Refines(u, r) && Legal(r, ev)
    ensures Shaped(u) && (ev.EOutro? ==> ev.thread in r.of && r.of[ev.thread] != [])
  {
  }

  /** One legal call has the same result on the table as on the stacks, and keeps them in
      step; only an entry of a thread whose table could not be allocated crashes. */
  lemma CallRefines(u: Unit, r: Stacks, ev: Event)
    requires Refines(u, r) && Legal(r, ev)
    ensures var (v, x), (q, y) := Call(u, ev), StackCall(r, u.acl, ev);
      x == y && v.acl == u.acl && Shaped(v) && (x != Crashed ==> Refines(v, q))
  {
    match ev
    case EIntro(h, e) =>
      hide Refines, StackIntro;
      IntroStep(u, r, h, e);
    case EOutro(h, t) =>
      assert t != 0;
      OutroStep(u, r, h, t);
    case EDetach(t) =>
      KnownThread(u, r, t);
      var at := Find(u.ids, t);
      if at.Some? {
        RemoveThread(u, r, at.value);
      } else {
        assert r.of - {t} == r.of && r.broken - {t} == r.broken && r.live - {t} == r.live;
      }
  }

  lemma IntroStep(u: Unit, r: Stacks, h: Hook, e: Entry)
    requires Refines(u, r) && Legal(r, EIntro(h, e))
    ensures var (v, x), (q, y) := Intro(u, h, e), StackIntro(r, u.acl, h, e);
      x == y && v.acl == u.acl && (x != Crashed ==> Refines(v, q))
  {
    hide IntroThread, EnterFrame;
    KnownThread(u, r, e.thread);
    FreeSlot(u, r);
    if !e.loaderLock {
      if e.thread in r.of {
        KnownThreadIntro(u, r, h, e);
      } else if Find(u.ids, 0).Some? {
        NewThreadIntro(u, r, h, e);
      }
    }
  }

  // ---- whole runs ----------------------------------------------------------

  /** All calls of all threads in one order; a run ends where the process crashes. */
  ghost predicate LegalRun(r: Stacks, acl: Acl, evs: seq<Event>)
    decreases |evs|
  {
    evs != [] ==>
      Legal(r, evs[0]) && (StackCall(r, acl, evs[0]).1 != Crashed ==>
        LegalRun(StackCall(r, acl, evs[0]).0, acl, evs[1..]))
  }

  function TableRun(u: Unit, evs: seq<Event>): (r: (Unit, seq<Result>))
    requires Shaped(u)
    decreases |evs|
  {
    if evs == [] then (u, [])
    else
      var (v, x) := Call(u, evs[0]);
      if x == Crashed then (v, [x])
      else
        var (w, xs) := TableRun(v, evs[1..]);
        (w, [x] + xs)
  }

  ghost function StackRun(r: Stacks, acl: Acl, evs: seq<Event>): (res: (Stacks, seq<Result>))
    requires LegalRun(r, acl, evs)
    decreases |evs|
  {
    if evs == [] then (r, [])
    else
      var (q, x) := StackCall(r, acl, evs[0]);
      if x == Crashed then (q, [x])
      else
        var (w, xs) := StackRun(q, acl, evs[1..]);
        (w, [x] + xs)
  }

  /** Over every interleaving of threads the table gives the results of the stacks: it
      enters and refuses the same calls and restores the same return addresses. */
  lemma {:induction false} RunRefines(u: Unit, r: Stacks, evs: seq<Event>)
    requires Refines(u, r) && LegalRun(r, u.acl, evs)
    ensures var (v, xs), (q, ys) := TableRun(u, evs), StackRun(r, u.acl, evs);
      xs == ys && (Crashed !in xs ==> Refines(v, q))
    decreases |evs|
  {
    if evs != [] {
      CallRefines(u, r, evs[0]);
      hide Call, StackCall, Legal, Refines;
      var (v, x) := Call(u, evs[0]);
      if x != Crashed {
        CallRefines(u, r, evs[0]);
        RunRefines(v, StackCall(r, u.acl, evs[0]).0, evs[1..]);
      }
    }
  }

  /** The zeroed unit of LhBarrierProcessAttach, with an exclusive, empty global list. */
  function AttachedUnit(): (u: Unit)
    ensures Shaped(u)
  {
    Unit(seq(MAX_THREAD_COUNT, _ => 0), seq(MAX_THREAD_COUNT, _ => ZERO_THREAD), Acl(true, []))
  }

  lemma AttachRefines(acl: Acl)
    ensures Refines(AttachedUnit().(acl := acl), Stacks(map[], {}, {}))
  {
    assert IdSet(AttachedUnit().ids) == {};
  }

  /** No assertion of the barrier ever fires in a legal run from the start. */
  lemma AssertionsNeverFire(acl: Acl, evs: seq<Event>)
    requires LegalRun(Stacks(map[], {}, {}), acl, evs)
    ensures Asserted !in TableRun(AttachedUnit().(acl := acl), evs).1
  {
    AttachRefines(acl);
    RunRefines(AttachedUnit().(acl := acl), Stacks(map[], {}, {}), evs);
    NoAsserted(Stacks(map[], {}, {}), acl, evs);
  }

  lemma {:induction false} NoAsserted(r: Stacks, acl: Acl, evs: seq<Event>)
    requires LegalRun(r, acl, evs)
    ensures Asserted !in StackRun(r, acl, evs).1
    decreases |evs|
  {
    if evs != [] && StackCall(r, acl, evs[0]).1 != Crashed {
      NoAsserted(StackCall(r, acl, evs[0]).0, acl, evs[1..]);
    }
  }

  /** The event is an entry of the thread for the hook slot. */
  predicate Enters(ev: Event, thread: int, index: nat) { ev.EIntro? && ev.e.thread == thread && ev.h.index == index }

  /** The event is the thread's exit from the hook slot's handler, or the thread's end. */
  predicate Leaves(ev: Event, thread: int, index: nat) {
    (ev.EOutro? && ev.thread == thread && ev.h.index == index) || (ev.EDetach? && ev.thread == thread)
  }

  /** Between two entries that a thread is granted for one hook it has left the first. */
  lemma {:induction false} NeverTwice(u: Unit, r: Stacks, evs: seq<Event>, thread: int, index: nat, i: nat, j: nat)
    requires Refines(u, r) && LegalRun(r, u.acl, evs)
    requires i < j < |TableRun(u, evs).1| <= |evs| && Enters(evs[i], thread, index) && Enters(evs[j], thread, index)
    requires TableRun(u, evs).1[i] == Entered && TableRun(u, evs).1[j] == Entered
    ensures exists k ::
      i < k < j && Leaves(evs[k], thread, index) && (TableRun(u, evs).1[k].Returned? || TableRun(u, evs).1[k].Detached?)
    decreases |evs|
  {
    hide Refines, Call, StackCall, Legal, Active, Enters, Leaves;
    LegalIsReady(u, r, evs[0]);
    var (v, x) := Call(u, evs[0]);
    var q := StackCall(r, u.acl, evs[0]).0;
    CallRefines(u, r, evs[0]);
    var xs, ys := TableRun(u, evs).1, TableRun(v, evs[1..]).1;
    assert xs == [x] + ys;
    var k: nat;
    if i == 0 {
      EnteredIsActive(r, u.acl, evs[0], thread, index);
      k := SecondEntryLeft(v, q, evs[1..], thread, index, j - 1);
      k := k + 1;
    } else {
      NeverTwice(v, q, evs[1..], thread, index, i - 1, j - 1);
      var l :| i - 1 < l < j - 1 && Leaves(evs[1..][l], thread, index) && (ys[l].Returned? || ys[l].Detached?);
      k := l + 1;
    }
    assert evs[k] == evs[1..][k - 1] && xs[k] == ys[k - 1];
  }

  lemma EnteredIsActive(r: Stacks, acl: Acl, ev: Event, thread: int, index: nat)
    requires Legal(r, ev) && Enters(ev, thread, index) && StackCall(r, acl, ev).1 == Entered
    ensures var q := StackCall(r, acl, ev).0; thread in q.of && Active(q.of[thread], index)
  {
    hide Admits;
    var s := StackCall(r, acl, ev).0.of[thread];
    assert s[|s| - 1].index == index;
  }

  /** A thread inside a hook's handler has left it before it is granted another entry. */
  lemma {:induction false} SecondEntryLeft(u: Unit, r: Stacks, evs: seq<Event>, thread: int, index: nat, j: nat)
    returns (k: nat)
    requires Refines(u, r) && LegalRun(r, u.acl, evs) && thread in r.of && Active(r.of[thread], index)
    requires j < |TableRun(u, evs).1| <= |evs| && Enters(evs[j], thread, index) && TableRun(u, evs).1[j] == Entered
    ensures k < j && Leaves(evs[k], thread, index)
    ensures (TableRun(u, evs).1[k].Returned? || TableRun(u, evs).1[k].Detached?)
    decreases |evs|
  {
    hide Refines, Call, StackCall, Legal, Active, Enters, Leaves;
    LegalIsReady(u, r, evs[0]);
    CallRefines(u, r, evs[0]);
    var (v, x) := Call(u, evs[0]);
    var q := StackCall(r, u.acl, evs[0]).0;
    ActiveStays(r, u.acl, evs[0], thread, index);
    var xs := TableRun(u, evs).1;
    assert xs[0] == x;
    if Leaves(evs[0], thread, index) {
      k := 0;
    } else {
      var l := SecondEntryLeft(v, q, evs[1..], thread, index, j - 1);
      k := l + 1;
      assert xs == [x] + TableRun(v, evs[1..]).1;
    }
  }

  /** A call that is not the thread's exit from the hook keeps it inside, and grants it no
      other entry. */
  lemma ActiveStays(r: Stacks, acl: Acl, ev: Event, thread: int, index: nat)
    requires Legal(r, ev) && thread in r.of && Active(r.of[thread], index)
    ensures var (q, x) := StackCall(r, acl, ev);
      if Leaves(ev, thread, index) then x.Returned? || x.Detached?
      else thread in q.of && Active(q.of[thread], index) && (Enters(ev, thread, index) ==> x != Entered)
  {
    hide Admits;
    var i :| 0 <= i < |r.of[thread]| && r.of[thread][i].index == index;
    var q := StackCall(r, acl, ev).0;
    if !Leaves(ev, thread, index) {
      assert thread in q.of && i < |q.of[thread]| && q.of[thread][i] == r.of[thread][i];
    }
  }

  /** The thread's stack never gets lower than d during the run. */
  ghost predicate StaysAbove(r: Stacks, acl: Acl, evs: seq<Event>, thread: int, d: nat)
    requires LegalRun(r, acl, evs)
    decreases |evs|
  {
    && thread in r.of && |r.of[thread]| >= d
    && (evs != [] && StackCall(r, acl, evs[0]).1 != Crashed ==>
         StaysAbove(StackCall(r, acl, evs[0]).0, acl, evs[1..], thread, d))
  }

  /** Whatever runs inside a handler leaves the frames below alone... */
  lemma {:induction false} InnerRunKeepsFrames(r: Stacks, acl: Acl, evs: seq<Event>, thread: int, d: nat)
    requires LegalRun(r, acl, evs) && StaysAbove(r, acl, evs, thread, d) && Crashed !in StackRun(r, acl, evs).1
    ensures var q := StackRun(r, acl, evs).0;
      thread in q.of && |q.of[thread]| >= d && q.of[thread][..d] == r.of[thread][..d]
    decreases |evs|
  {
    if evs != [] {
      var (q, x) := StackCall(r, acl, evs[0]);
      assert x != Crashed by { assert StackRun(r, acl, evs).1[0] == x; }
      assert q.of[thread][..d] == r.of[thread][..d];
      assert Crashed !in StackRun(q, acl, evs[1..]).1 by {
        assert StackRun(r, acl, evs).1 == [x] + StackRun(q, acl, evs[1..]).1;
      }
      InnerRunKeepsFrames(q, acl, evs[1..], thread, d);
    }
  }

  /** ...so the exit that matches an entry returns to the address that entry saved. */
  lemma ExitRestoresEntry(u: Unit, r: Stacks, h: Hook, e: Entry, evs: seq<Event>)
    requires Refines(u, r) && Legal(r, EIntro(h, e)) && Intro(u, h, e).1 == Entered
    requires var v := Intro(u, h, e).0; var q := StackIntro(r, u.acl, h, e).0;
      && LegalRun(q, u.acl, evs) && Crashed !in TableRun(v, evs).1
      && e.thread in q.of && StaysAbove(q, u.acl, evs, e.thread, |q.of[e.thread]|)
      && var w := StackRun(q, u.acl, evs).0; e.thread in w.of && |w.of[e.thread]| == |q.of[e.thread]|
    ensures var v := TableRun(Intro(u, h, e).0, evs).0;
      Shaped(v) && Outro(v, h, e.thread, 0).1 == Returned(e.ret)
  {
    IntroStep(u, r, h, e);
    var v, q := Intro(u, h, e).0, StackIntro(r, u.acl, h, e).0;
    RunRefines(v, q, evs);
    var d := |q.of[e.thread]|;
    InnerRunKeepsFrames(q, u.acl, evs, e.thread, d);
    var w := StackRun(q, u.acl, evs).0;
    assert w.of[e.thread][..d] == w.of[e.thread] && q.of[e.thread][..d] == q.of[e.thread];
    assert q.of[e.thread][d - 1] == FrameOf(h, e);
    OutroStep(TableRun(v, evs).0, w, h, e.thread);
  }

  // ---- what the code does not keep -----------------------------------------

  /** LhBarrierGetReturnAddress and LhBarrierGetCallback answer exactly when no other barrier call
      of the thread came after the entry of the running handler: a nested or refused hook leaves
      Current NULL for the rest of the handler. */
  lemma ReturnAddressOnlyAtFirst(u: Unit, r: Stacks, thread: int)
    requires Refines(u, r) && thread != 0
    ensures thread in r.live ==> thread in r.of && r.of[thread] != []
    ensures ReturnAddress(u, thread)
         == if thread in r.live then Some(r.of[thread][|r.of[thread]| - 1].ret) else None
    ensures Callback(u, thread)
         == if thread in r.live then Some(r.of[thread][|r.of[thread]| - 1].callback) else None
  {
    KnownThread(u, r, thread);
  }

  /** A thread whose table could not be allocated stays registered, and its next entry
      dereferences NULL. */
  lemma FailedAllocationCrashesNextEntry(u: Unit, r: Stacks, h: Hook, e: Entry, k: Hook, f: Entry)
    requires Refines(u, r) && Legal(r, EIntro(h, e)) && Find(u.ids, 0).Some?
    requires e.thread !in r.of && !e.loaderLock && !e.memory
    requires f.thread == e.thread && !f.loaderLock && k.index < MAX_HOOK_COUNT
    ensures Intro(u, h, e).1 == Refused && Intro(Intro(u, h, e).0, k, f).1 == Crashed
  {
    IntroStep(u, r, h, e);
    FreeSlot(u, r);
    var (v, q) := (Intro(u, h, e).0, StackIntro(r, u.acl, h, e).0);
    assert e.thread in q.broken && q.of[e.thread] == [];
    IntroStep(v, q, k, f);
  }

  /** An entry crashes exactly when its thread is in that state. */
  lemma CrashesIffBroken(u: Unit, r: Stacks, h: Hook, e: Entry)
    requires Refines(u, r) && Legal(r, EIntro(h, e))
    ensures Intro(u, h, e).1 == Crashed <==> !e.loaderLock && e.thread in r.broken
  {
    hide Admits;
    IntroStep(u, r, h, e);
  }

  /** Why a slot must not be reused while a handler of its old hook is active: the new hook
      is let in over the frame, and the old handler's exit then fails its assertion. */
  lemma ReusedSlotBreaksExit(u: Unit, r: Stacks, h: Hook, e: Entry, old_: Hook)
    requires Refines(u, r) && e.thread != 0 && !e.loaderLock && e.thread in r.of && e.thread !in r.broken
    requires old_.index == h.index < MAX_HOOK_COUNT && r.of[e.thread] != []
    requires var f := r.of[e.thread][|r.of[e.thread]| - 1]; f.index == h.index && f.ident == old_.ident != h.ident
    requires Admits(u.acl, e.thread) && Admits(h.acl, e.thread)
    ensures var a := Intro(u, h, e); var b := Outro(a.0, h, e.thread, 0);
      a.1 == Entered && b.1 == Returned(e.ret) && Outro(b.0, old_, e.thread, 0).1 == Asserted
  {
    KnownThread(u, r, e.thread);
    var i := Find(u.ids, e.thread).value;
    SlotIsUnique(u.ids, i);
  }
}
