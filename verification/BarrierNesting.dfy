/** Self protection: hooked functions that LhBarrierIntro and LhBarrierOutro call themselves,
    and the calls other threads make meanwhile, do not change what an entry or exit does. */
module BarrierNesting {
  import opened Wrappers
  import opened Barrier
  import opened BarrierRuns

  /** A call is over, or it goes on behind AcquireSelfProtection with the record at i; `known`
      tells whether the thread had that record before. */
  datatype Phase = Over(u: Unit, r: Result) | Inside(u: Unit, i: nat, known: bool)

  /** LhBarrierIntro up to AcquireSelfProtection. */
  function IntroBegin(u: Unit, h: Hook, e: Entry): (p: Phase)
    requires Shaped(u)
  {
    var at, free := Find(u.ids, e.thread), Find(u.ids, 0);
    if e.loaderLock then Over(u, Refused)
    else if at.None? then
      if free.None? then Over(u, Refused)
      else Inside(SetInfo(u.(ids := u.ids[free.value := e.thread]), free.value, ZERO_THREAD.(isProtected := true)),
                  free.value, false)
    else if u.infos[at.value].isProtected then Over(u, Refused)
    else Inside(SetInfo(u, at.value, u.infos[at.value].(isProtected := true)), at.value, true)
  }

  /** The rest of it, on the thread's own record. */
  function IntroRest(acl: Acl, t: ThreadInfo, known: bool, h: Hook, e: Entry): (r: (ThreadInfo, Result)) {
    var s := if known then t else t.(entries := Some(ZeroEntries()));
    if h.index >= MAX_HOOK_COUNT then (t, Asserted)
    else if !known && !e.memory then (LeaveHandler(t), Refused)
    else if s.entries.None? || |s.entries.value| <= h.index then (t, Crashed)
    else IntroThread(acl, s, h, e)
  }

  function IntroEnd(u: Unit, i: nat, known: bool, h: Hook, e: Entry): (r: (Unit, Result))
    requires i < |u.infos|
  {
    var (t, r) := IntroRest(u.acl, u.infos[i], known, h, e);
    (SetInfo(u, i, t), r)
  }

  /** LhBarrierOutro in the same two parts. */
  function OutroBegin(u: Unit, thread: int): (p: Phase)
    requires Shaped(u)
  {
    var at := Find(u.ids, thread);
    if at.None? || u.infos[at.value].isProtected then Over(u, Asserted)
    else Inside(SetInfo(u, at.value, u.infos[at.value].(isProtected := true)), at.value, true)
  }

  function OutroRest(t: ThreadInfo, h: Hook, space: int): (r: (ThreadInfo, Result)) {
    if t.entries.None? || |t.entries.value| <= h.index then (LeaveHandler(t).(isProtected := true), Crashed)
    else
      var slot := t.entries.value[h.index];
      if !slot.isExecuting || space != 0 then (LeaveHandler(t).(isProtected := true), Asserted)
      else (LeaveHandler(t.(entries := Some(t.entries.value[h.index := slot.(isExecuting := false)]))),
            Returned(slot.ret))
  }

  function OutroEnd(u: Unit, i: nat, h: Hook, space: int): (r: (Unit, Result))
    requires i < |u.infos|
  {
    var (t, r) := OutroRest(u.infos[i], h, space);
    (SetInfo(u, i, t), r)
  }

  lemma SetAgain(u: Unit, i: nat, x: ThreadInfo, y: ThreadInfo)
    requires i < |u.infos|
    ensures SetInfo(SetInfo(u, i, x), i, y) == SetInfo(u, i, y)
  {
    assert u.infos[i := x][i := y] == u.infos[i := y];
  }

  lemma IntroIsBoth(u: Unit, h: Hook, e: Entry)
    requires Shaped(u)
    ensures match IntroBegin(u, h, e)
      case Over(v, r) => Intro(u, h, e) == (v, r)
      case Inside(v, i, known) => i < |v.infos| && Intro(u, h, e) == IntroEnd(v, i, known, h, e)
  {
    hide IntroThread;
    var p := IntroBegin(u, h, e);
    if p.Inside? {
      var v := u.(ids := p.u.ids);
      SetAgain(v, p.i, p.u.infos[p.i], IntroRest(u.acl, p.u.infos[p.i], p.known, h, e).0);
      assert u.(ids := u.ids) == u;
    }
    if p.Inside? && h.index < MAX_HOOK_COUNT {
      var t := if p.known then u.infos[p.i] else ZERO_THREAD.(entries := Some(ZeroEntries()));
      if t.entries.Some? && h.index < |t.entries.value| {
        FlagIgnored(u.acl, t, h, e);
      }
    }
  }

  lemma OutroIsBoth(u: Unit, h: Hook, thread: int, space: int)
    requires Shaped(u)
    ensures match OutroBegin(u, thread)
      case Over(v, r) => Outro(u, h, thread, space) == (v, r)
      case Inside(v, i, _) => i < |v.infos| && Outro(u, h, thread, space) == OutroEnd(v, i, h, space)
  {
    var p := OutroBegin(u, thread);
    if p.Inside? {
      SetAgain(u, p.i, p.u.infos[p.i], OutroRest(p.u.infos[p.i], h, space).0);
    }
  }

  // ---- what happens in between ---------------------------------------------

  function ThreadOf(ev: Event): (r: int) {
    match ev
    case EIntro(_, e) => e.thread
    case EOutro(_, t) => t
    case EDetach(t) => t
  }

  /** Calls that can fall between: entries of the same thread, by hooked functions the barrier
      uses, and any calls of other threads. */
  ghost predicate Nested(evs: seq<Event>, thread: int) {
    forall ev :: ev in evs ==> ThreadOf(ev) != 0 && (ThreadOf(ev) == thread ==> ev.EIntro?)
  }

  /** The part of xs that belongs to events of other threads. */
  function Others<T>(evs: seq<Event>, xs: seq<T>, thread: int): (ys: seq<T>)
    requires |xs| <= |evs|
  {
    if xs == [] then [] else (if ThreadOf(evs[0]) == thread then [] else [xs[0]]) + Others(evs[1..], xs[1..], thread)
  }

  /** The thread holds self protection, with its record at i. */
  ghost predicate Section(u: Unit, i: nat, thread: int) {
    Shaped(u) && thread != 0 && Find(u.ids, thread) == Some(i) && u.infos[i].isProtected
  }

  lemma OwnCallRefused(u: Unit, i: nat, thread: int, ev: Event)
    requires Section(u, i, thread) && ThreadOf(ev) == thread && ev.EIntro?
    ensures Call(u, ev) == (u, Refused)
  {
  }

  lemma FindOther(ids: seq<int>, k: nat, x: int, thread: int, i: nat)
    requires k < |ids| && Find(ids, thread) == Some(i) && x != thread && k != i
    ensures Find(ids[k := x], thread) == Some(i)
  {
    assert forall j :: 0 <= j < i ==> ids[j] == ids[..i][j];
    FindIs(ids[k := x], thread, i);
  }

  /** An entry of another thread. */
  lemma OtherIntro(u: Unit, i: nat, thread: int, t: ThreadInfo, h: Hook, e: Entry)
    requires Section(u, i, thread) && e.thread != thread && e.thread != 0
    ensures var (v, x), (w, y) := Intro(u, h, e), Intro(SetInfo(u, i, t), h, e);
      x == y && Section(v, i, thread) && v.infos[i] == u.infos[i] && v.acl == u.acl && w == SetInfo(v, i, t)
  {
    hide Intro, IntroRest, Find;
    var s := SetInfo(u, i, t);
    IntroIsBoth(u, h, e);
    IntroIsBoth(s, h, e);
    var at, free := Find(u.ids, e.thread), Find(u.ids, 0);
    var p := IntroBegin(u, h, e);
    if p.Inside? {
      assert p.i != i;
      if at.None? { FindOther(u.ids, free.value, e.thread, thread, i); }
      var o := IntroRest(u.acl, p.u.infos[p.i], p.known, h, e).0;
      OtherRecord(p.u, i, p.i, t, o);
      OtherRecord(u.(ids := p.u.ids), i, p.i, t, p.u.infos[p.i]);
    }
  }

  /** A call of another thread neither sees nor changes this thread's record. */
  lemma OtherCall(u: Unit, i: nat, thread: int, t: ThreadInfo, ev: Event)
    requires Section(u, i, thread) && ThreadOf(ev) != thread && ThreadOf(ev) != 0
    ensures var (v, x), (w, y) := Call(u, ev), Call(SetInfo(u, i, t), ev);
      x == y && Section(v, i, thread) && v.infos[i] == u.infos[i] && v.acl == u.acl && w == SetInfo(v, i, t)
  {
    hide Intro, Outro, Detach, Section, SetInfo;
    match ev
    case EIntro(h, e) => OtherIntro(u, i, thread, t, h, e);
    case EOutro(h, o) => OtherOutro(u, i, thread, t, h, o);
    case EDetach(o) => OtherDetach(u, i, thread, t, o);
  }

  lemma OtherOutro(u: Unit, i: nat, thread: int, t: ThreadInfo, h: Hook, o: int)
    requires Section(u, i, thread) && o != thread && o != 0
    ensures var (v, x), (w, y) := Outro(u, h, o, 0), Outro(SetInfo(u, i, t), h, o, 0);
      x == y && Section(v, i, thread) && v.infos[i] == u.infos[i] && v.acl == u.acl && w == SetInfo(v, i, t)
  {
    hide Find;
    var at := Find(u.ids, o);
    assert at.Some? ==> at.value != i;
    if at.Some? { OtherRecord(u, i, at.value, t, Outro(u, h, o, 0).0.infos[at.value]); }
  }

  lemma OtherDetach(u: Unit, i: nat, thread: int, t: ThreadInfo, o: int)
    requires Section(u, i, thread) && o != thread && o != 0
    ensures var (v, x), (w, y) := Detach(u, o), Detach(SetInfo(u, i, t), o);
      x == y && Section(v, i, thread) && v.infos[i] == u.infos[i] && v.acl == u.acl && w == SetInfo(v, i, t)
  {
    hide Find;
    var at := Find(u.ids, o);
    assert at.Some? ==> at.value != i;
    if at.Some? {
      FindOther(u.ids, at.value, 0, thread, i);
      OtherRecord(u, i, at.value, t, ZERO_THREAD);
    }
  }

  lemma OtherRecord(u: Unit, i: nat, k: nat, t: ThreadInfo, o: ThreadInfo)
    requires i < |u.infos| && k < |u.infos| && i != k
    ensures SetInfo(SetInfo(u, i, t), k, o) == SetInfo(SetInfo(u, k, o), i, t)
  {
    assert u.infos[i := t][k := o] == u.infos[k := o][i := t];
  }

  /** Over any calls in between: the section's record stays, its own nested entries are
      refused, and other threads see the same as if the section had already ended with t. */
  lemma {:induction false} SectionIsTransparent(u: Unit, i: nat, thread: int, t: ThreadInfo, evs: seq<Event>)
    requires Section(u, i, thread) && Nested(evs, thread)
    ensures var (v, xs), (w, ys) := TableRun(u, evs), TableRun(SetInfo(u, i, t), Others(evs, evs, thread));
      && Section(v, i, thread) && v.infos[i] == u.infos[i] && v.acl == u.acl && w == SetInfo(v, i, t)
      && |xs| <= |evs| && ys == Others(evs, xs, thread)
      && forall k :: 0 <= k < |xs| && ThreadOf(evs[k]) == thread ==> xs[k] == Refused
    decreases |evs|
  {
    hide Section, Call, SetInfo, ThreadOf;
    SectionShape(u, i, thread, t);
    if evs != [] {
      var ev, rest := evs[0], evs[1..];
      var (v, x) := Call(u, ev);
      if ThreadOf(ev) == thread {
        OwnCallRefused(u, i, thread, ev);
        SectionIsTransparent(u, i, thread, t, rest);
        assert Others(evs, evs, thread) == Others(rest, rest, thread);
      } else {
        OtherCall(u, i, thread, t, ev);
        assert Others(evs, evs, thread) == [ev] + Others(rest, rest, thread);
        SectionShape(v, i, thread, t);
        SectionIsTransparent(v, i, thread, t, rest);
      }
      assert TableRun(u, evs).1 == [x] + (if x == Crashed then [] else TableRun(v, rest).1);
    }
  }

  lemma SectionShape(u: Unit, i: nat, thread: int, t: ThreadInfo)
    requires Section(u, i, thread)
    ensures Shaped(u) && i < |u.infos| && Shaped(SetInfo(u, i, t)) && thread != 0
  {
  }

  /** An entry during which hooked functions call back into the barrier, and other threads go
      on, ends as it would have alone: the nested entries of its own thread are refused, the
      others get the results they would have got behind it. */
  lemma IntroIsTransparent(u: Unit, h: Hook, e: Entry, evs: seq<Event>)
    requires Shaped(u) && e.thread != 0 && IntroBegin(u, h, e).Inside? && Nested(evs, e.thread)
    ensures var p := IntroBegin(u, h, e); p.i < |p.u.infos| && Shaped(p.u) && Shaped(Intro(u, h, e).0)
    ensures var p, (a, r) := IntroBegin(u, h, e), Intro(u, h, e);
      var (v, xs), (w, ys) := TableRun(p.u, evs), TableRun(a, Others(evs, evs, e.thread));
      && |v.infos| == |p.u.infos| && IntroEnd(v, p.i, p.known, h, e) == (w, r)
      && |xs| <= |evs| && ys == Others(evs, xs, e.thread)
      && forall k :: 0 <= k < |xs| && ThreadOf(evs[k]) == e.thread ==> xs[k] == Refused
  {
    hide TableRun, IntroRest, Intro;
    var p := IntroBegin(u, h, e);
    IntroIsBoth(u, h, e);
    IntroSection(u, h, e);
    var t := IntroRest(p.u.acl, p.u.infos[p.i], p.known, h, e).0;
    SectionIsTransparent(p.u, p.i, e.thread, t, evs);
  }

  lemma IntroSection(u: Unit, h: Hook, e: Entry)
    requires Shaped(u) && e.thread != 0 && IntroBegin(u, h, e).Inside?
    ensures var p := IntroBegin(u, h, e); Section(p.u, p.i, e.thread)
  {
    var free := Find(u.ids, 0);
    if Find(u.ids, e.thread).None? {
      var ids := u.ids[free.value := e.thread];
      assert forall j :: 0 <= j < free.value ==> ids[j] == u.ids[j];
      FindIs(ids, e.thread, free.value);
    }
  }

  /** The same for an exit. */
  lemma OutroIsTransparent(u: Unit, h: Hook, thread: int, space: int, evs: seq<Event>)
    requires Shaped(u) && thread != 0 && OutroBegin(u, thread).Inside? && Nested(evs, thread)
    ensures var p := OutroBegin(u, thread); p.i < |p.u.infos| && Shaped(p.u) && Shaped(Outro(u, h, thread, space).0)
    ensures var p, (a, r) := OutroBegin(u, thread), Outro(u, h, thread, space);
      var (v, xs), (w, ys) := TableRun(p.u, evs), TableRun(a, Others(evs, evs, thread));
      && |v.infos| == |p.u.infos| && OutroEnd(v, p.i, h, space) == (w, r)
      && |xs| <= |evs| && ys == Others(evs, xs, thread)
      && forall k :: 0 <= k < |xs| && ThreadOf(evs[k]) == thread ==> xs[k] == Refused
  {
    hide TableRun, OutroRest, Outro;
    var p := OutroBegin(u, thread);
    OutroIsBoth(u, h, thread, space);
    assert Section(p.u, p.i, thread);
    var t := OutroRest(p.u.infos[p.i], h, space).0;
    SectionIsTransparent(p.u, p.i, thread, t, evs);
  }
}
