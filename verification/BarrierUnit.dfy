/** The barrier as barrier.c runs it: slot arrays updated in place, proved against the steps
    of module Barrier. */
module BarrierUnit {
  import opened Wrappers
  import opened Barrier

  class BarrierUnit {
    const idList: array<int>
    const entries: array<ThreadInfo>
    var globalAcl: Acl

    ghost predicate Valid()
      reads this
    {
      idList.Length == MAX_THREAD_COUNT && entries.Length == MAX_THREAD_COUNT
    }

    ghost function State(): (u: Unit)
      reads this, idList, entries
      requires Valid()
      ensures Shaped(u)
    {
      Unit(idList[..], entries[..], globalAcl)
    }

    /** LhBarrierProcessAttach: no thread known, nobody excluded globally. */
    constructor ()
      ensures Valid() && fresh(idList) && fresh(entries)
      ensures State() == Unit(seq(MAX_THREAD_COUNT, _ => 0), seq(MAX_THREAD_COUNT, _ => ZERO_THREAD), Acl(true, []))
    {
      idList := new int[MAX_THREAD_COUNT](_ => 0);
      entries := new ThreadInfo[MAX_THREAD_COUNT](_ => ZERO_THREAD);
      globalAcl := Acl(true, []);
    }

    /** The slot of a thread, or -1. */
    method TlsGetCurrentValue(thread: int) returns (index: int)
      requires Valid()
      ensures var at := Find(State().ids, thread); index == if at.Some? then at.value else -1
    {
      index := 0;
      while index < MAX_THREAD_COUNT
        invariant 0 <= index <= MAX_THREAD_COUNT && thread !in idList[..index]
      {
        if idList[index] == thread {
          assert idList[..][..index] == idList[..index];
          FindIs(idList[..], thread, index);
          return;
        }
        index := index + 1;
      }
      assert idList[..] == idList[..index];
      index := -1;
    }

    /** Takes the first free slot; the thread must not be registered (an assertion in the
        source, which looks at every slot). */
    method TlsAddCurrentThread(thread: int) returns (ok: bool)
      requires Valid() && thread != 0 && thread !in idList[..]
      modifies idList, entries
      ensures var u, free := old(State()), Find(old(State()).ids, 0);
        && ok == free.Some?
        && State() == if ok then SetInfo(u.(ids := u.ids[free.value := thread]), free.value, ZERO_THREAD) else u
    {
      var index := -1;
      var i := 0;
      while i < MAX_THREAD_COUNT
        invariant 0 <= i <= MAX_THREAD_COUNT
        invariant -1 <= index < i && (index == -1 ==> 0 !in idList[..i])
        invariant index >= 0 ==> idList[index] == 0 && 0 !in idList[..index]
      {
        if idList[i] == 0 && index == -1 {
          index := i;
        }
        assert idList[i] != thread;
        i := i + 1;
      }
      if index == -1 {
        assert idList[..] == idList[..i];
        return false;
      }
      assert idList[..][..index] == idList[..index];
      FindIs(idList[..], 0, index);
      idList[index] := thread;
      entries[index] := ZERO_THREAD;
      return true;
    }

    /** Clears every slot of the thread; a thread has at most one. */
    method TlsRemoveCurrentThread(thread: int)
      requires Valid() && thread != 0
      requires forall i, j :: 0 <= i < j < MAX_THREAD_COUNT && idList[i] != 0 ==> idList[i] != idList[j]
      modifies idList, entries
      ensures State() == Detach(old(State()), thread).0
    {
      ghost var at := Find(idList[..], thread);
      var index := 0;
      while index < MAX_THREAD_COUNT
        invariant 0 <= index <= MAX_THREAD_COUNT
        invariant at.Some? && at.value < index ==>
          idList[..] == old(idList[..])[at.value := 0] && entries[..] == old(entries[..])[at.value := ZERO_THREAD]
        invariant at.None? || at.value >= index ==> idList[..] == old(idList[..]) && entries[..] == old(entries[..])
      {
        if idList[index] == thread {
          assert old(idList[..])[index] == thread;
          idList[index] := 0;
          entries[index] := ZERO_THREAD;
        }
        index := index + 1;
      }
    }

    /** False when the thread is unknown or already protected. */
    method AcquireSelfProtection(thread: int) returns (ok: bool)
      requires Valid()
      modifies entries
      ensures var u, at := old(State()), Find(old(State()).ids, thread);
        && ok == (at.Some? && !u.infos[at.value].isProtected)
        && State() == if ok then SetInfo(u, at.value, u.infos[at.value].(isProtected := true)) else u
    {
      var i := TlsGetCurrentValue(thread);
      if i < 0 || entries[i].isProtected {
        return false;
      }
      entries[i] := entries[i].(isProtected := true);
      return true;
    }

    /** LhBarrierIntro. A result of Asserted or Crashed ends the process where it occurs. */
    method LhBarrierIntro(h: Hook, e: Entry) returns (r: Result)
      requires Valid() && e.thread != 0
      modifies idList, entries
      ensures (State(), r) == Intro(old(State()), h, e)
    {
      if e.loaderLock {
        return Refused;
      }
      var i := TlsGetCurrentValue(e.thread);
      if i < 0 {
        r := IntroNewThread(h, e);
      } else {
        r := IntroKnownThread(h, e, i);
      }
    }

    /** LhBarrierIntro when the thread has no slot yet (Exists is FALSE). */
    method IntroNewThread(h: Hook, e: Entry) returns (r: Result)
      requires Valid() && e.thread != 0 && !e.loaderLock && Find(State().ids, e.thread).None?
      modifies idList, entries
      ensures (State(), r) == Intro(old(State()), h, e)
    {
      hide IntroThread;
      ghost var u := State();
      var added := TlsAddCurrentThread(e.thread);
      if !added {
        return Refused;
      }
      AddedIsFound(u, e.thread);
      var acquired := AcquireSelfProtection(e.thread);
      assert acquired;
      ghost var v := State();
      if h.index >= MAX_HOOK_COUNT {
        assert v.infos == Intro(u, h, e).0.infos;
        return Asserted;
      }
      var i := TlsGetCurrentValue(e.thread);
      if !e.memory {
        entries[i] := LeaveHandler(entries[i]);
        assert State().infos == Intro(u, h, e).0.infos;
        return Refused;
      }
      entries[i] := entries[i].(entries := Some(ZeroEntries()));
      r := Negotiate(h, e, i);
      FlagIgnored(globalAcl, ZERO_THREAD.(entries := Some(ZeroEntries())), h, e);
      assert State().infos == Intro(u, h, e).0.infos;
    }

    /** LhBarrierIntro when the thread has a slot. */
    method IntroKnownThread(h: Hook, e: Entry, i: nat) returns (r: Result)
      requires Valid() && !e.loaderLock && Find(State().ids, e.thread) == Some(i)
      modifies entries
      ensures (State(), r) == Intro(old(State()), h, e)
    {
      hide IntroThread;
      ghost var u := State();
      var acquired := AcquireSelfProtection(e.thread);
      if !acquired {
        return Refused;
      }
      if h.index >= MAX_HOOK_COUNT {
        return Asserted;
      }
      if entries[i].entries.None? || |entries[i].entries.value| <= h.index {
        return Crashed;
      }
      r := Negotiate(h, e, i);
      FlagIgnored(globalAcl, u.infos[i], h, e);
      assert State().infos == Intro(u, h, e).0.infos;
    }

    /** The rest of LhBarrierIntro, on the record of the calling thread. */
    method Negotiate(h: Hook, e: Entry, i: nat) returns (r: Result)
      requires Valid() && i < MAX_THREAD_COUNT
      requires entries[i].entries.Some? && h.index < |entries[i].entries.value|
      modifies entries
      ensures var t := IntroThread(globalAcl, old(entries[i]), h, e);
        r == t.1 && entries[..] == old(entries[..])[i := t.0]
    {
      var t := entries[i];
      ghost var es := t.entries.value;
      var slot := t.entries.value[h.index];
      if slot.ident != h.ident {
        slot := slot.(ident := h.ident, isExecuting := false);
        t := t.(entries := Some(t.entries.value[h.index := slot]));
      }
      if slot.isExecuting {
        entries[i] := LeaveHandler(t);
        return Refused;
      }
      t := t.(callback := h.callback, current := Some(h.index));
      var intercepted := IsThreadIntercepted(globalAcl, h.acl, e.thread);
      slot := slot.(isExecuting := intercepted);
      t := t.(entries := Some(t.entries.value[h.index := slot]));
      assert t.entries.value == es[h.index := slot];
      if !intercepted {
        entries[i] := LeaveHandler(t);
        return Refused;
      }
      slot := slot.(ret := e.ret, addrOfRet := e.addrOfRet);
      assert t.entries.value[h.index := slot] == es[h.index := slot];
      entries[i] := t.(entries := Some(t.entries.value[h.index := slot]), isProtected := false);
      return Entered;
    }

    /** LhBarrierOutro. */
    method LhBarrierOutro(h: Hook, thread: int, space: int) returns (r: Result)
      requires Valid()
      modifies entries
      ensures (State(), r) == Outro(old(State()), h, thread, space)
    {
      var acquired := AcquireSelfProtection(thread);
      if !acquired {
        return Asserted;
      }
      var i := TlsGetCurrentValue(thread);
      entries[i] := entries[i].(current := None, callback := 0);
      if entries[i].entries.None? || |entries[i].entries.value| <= h.index {
        assert State().infos == Outro(old(State()), h, thread, space).0.infos;
        return Crashed;
      }
      var slot := entries[i].entries.value[h.index];
      if !slot.isExecuting || space != 0 {
        assert State().infos == Outro(old(State()), h, thread, space).0.infos;
        return Asserted;
      }
      entries[i] := entries[i].(entries := Some(entries[i].entries.value[h.index := slot.(isExecuting := false)]),
                                isProtected := false);
      assert State().infos == Outro(old(State()), h, thread, space).0.infos;
      return Returned(slot.ret);
    }

    /** LhBarrierGetCallback. */
    method LhBarrierGetCallback(thread: int) returns (r: Option<int>)
      requires Valid()
      ensures r == Callback(State(), thread)
    {
      var i := TlsGetCurrentValue(thread);
      if i < 0 || entries[i].current.None? {
        return None;
      }
      return Some(entries[i].callback);
    }

    /** LhBarrierGetReturnAddress. */
    method LhBarrierGetReturnAddress(thread: int) returns (r: Option<int>)
      requires Valid()
      ensures r == ReturnAddress(State(), thread)
    {
      var i := TlsGetCurrentValue(thread);
      if i < 0 || entries[i].current.None? || entries[i].entries.None?
        || |entries[i].entries.value| <= entries[i].current.value {
        return None;
      }
      return Some(entries[i].entries.value[entries[i].current.value].ret);
    }
  }

  lemma AddedIsFound(u: Unit, thread: int)
    requires Shaped(u) && thread != 0 && thread !in u.ids && Find(u.ids, 0).Some?
    ensures var i := Find(u.ids, 0).value; Find(u.ids[i := thread], thread) == Some(i)
  {
    var i := Find(u.ids, 0).value;
    assert u.ids[i := thread][..i] == u.ids[..i];
    FindIs(u.ids[i := thread], thread, i);
  }
}
