/** EasyHook's barrier.c as values: the slot table of the thread storage, one step per
    entry into or exit from a hook handler, and the stack of handler frames it stands for. */
module Barrier {
  import opened Wrappers

  const MAX_THREAD_COUNT: nat := 128
  const MAX_HOOK_COUNT: nat := 1024

  // ---- access control ------------------------------------------------------

  datatype Acl = Acl(isExclusive: bool, entries: seq<int>)

  /** An inclusive list admits its entries, an exclusive one everybody else. */
  predicate Admits(acl: Acl, id: int) { (id in acl.entries) != acl.isExclusive }

  method AclContains(acl: Acl, id: int) returns (r: bool)
    ensures r == (id in acl.entries)
  {
    var i := 0;
    while i < |acl.entries|
      invariant 0 <= i <= |acl.entries| && id !in acl.entries[..i]
    {
      if acl.entries[i] == id {
        return true;
      }
      i := i + 1;
    }
    return false;
  }

  /** A thread is intercepted exactly when both lists admit it: it is on no exclusive and on
      every inclusive one. */
  method IsThreadIntercepted(global: Acl, local: Acl, id: int) returns (r: bool)
    ensures global.isExclusive && local.isExclusive ==> r == (id !in global.entries && id !in local.entries)
    ensures global.isExclusive && !local.isExclusive ==> r == (id !in global.entries && id in local.entries)
    ensures !global.isExclusive && local.isExclusive ==> r == (id in global.entries && id !in local.entries)
    ensures !global.isExclusive && !local.isExclusive ==> r == (id in global.entries && id in local.entries)
  {
    var inGlobal := AclContains(global, id);
    var inLocal := AclContains(local, id);
    if inGlobal {
      if inLocal {
        if local.isExclusive { return false; }
      } else {
        if !local.isExclusive { return false; }
      }
      return !global.isExclusive;
    } else {
      if inLocal {
        if local.isExclusive { return false; }
      } else {
        if !local.isExclusive { return false; }
      }
      return global.isExclusive;
    }
  }

  // ---- the thread storage --------------------------------------------------

  /** RUNTIME_INFO: what one thread keeps about one hook slot. */
  datatype RuntimeInfo = RuntimeInfo(isExecuting: bool, ident: int, ret: int, addrOfRet: int)

  /** THREAD_RUNTIME_INFO; `entries` is None for NULL, `current` the slot it points at. */
  datatype ThreadInfo = ThreadInfo(entries: Option<seq<RuntimeInfo>>, current: Option<nat>, callback: int,
                                   isProtected: bool)

  const ZERO_THREAD := ThreadInfo(None, None, 0, false)
  const ZERO_ENTRY := RuntimeInfo(false, 0, 0, 0)

  function ZeroEntries(): (e: seq<RuntimeInfo>)
    ensures |e| == MAX_HOOK_COUNT && forall k :: 0 <= k < |e| ==> e[k] == ZERO_ENTRY
  {
    seq(MAX_HOOK_COUNT, _ => ZERO_ENTRY)
  }

  /** THREAD_LOCAL_STORAGE and the global list of BARRIER_UNIT; id 0 marks a free slot. */
  datatype Unit = Unit(ids: seq<int>, infos: seq<ThreadInfo>, acl: Acl)

  ghost predicate Shaped(u: Unit) { |u.ids| == |u.infos| == MAX_THREAD_COUNT }

  // ---- steps ---------------------------------------------------------------

  /** The part of a hook record the barrier reads. */
  datatype Hook = Hook(index: nat, ident: int, callback: int, acl: Acl)

  /** What a barrier call ends in. Crashed is a null dereference, Asserted a failed
      assertion. */
  datatype Result = Entered | Refused | Returned(ret: int) | Detached | Crashed | Asserted

  /** Everything an entry depends on besides the unit: the thread, the return address and
      where it stands on the stack, the loader lock, and whether memory is available. */
  datatype Entry = Entry(thread: int, ret: int, addrOfRet: int, loaderLock: bool, memory: bool)

  function SetInfo(u: Unit, i: nat, t: ThreadInfo): (v: Unit)
    requires i < |u.infos|
  {
    u.(infos := u.infos[i := t])
  }

  /** The exit DONT_INTERCEPT: leave the handler context and self protection. */
  function LeaveHandler(t: ThreadInfo): (r: ThreadInfo) { t.(current := None, callback := 0, isProtected := false) }

  /** The part of LhBarrierIntro behind the allocation, on the calling thread's record. */
  function IntroThread(acl: Acl, t: ThreadInfo, h: Hook, e: Entry): (r: (ThreadInfo, Result))
    requires t.entries.Some? && h.index < |t.entries.value|
  {
    var es := t.entries.value;
    var slot := if es[h.index].ident != h.ident then es[h.index].(ident := h.ident, isExecuting := false)
      else es[h.index];
    if slot.isExecuting then (LeaveHandler(t), Refused)
    else if !(Admits(acl, e.thread) && Admits(h.acl, e.thread))
      then (LeaveHandler(t.(entries := Some(es[h.index := slot]))), Refused)
    else
      var taken := slot.(isExecuting := true, ret := e.ret, addrOfRet := e.addrOfRet);
      (t.(entries := Some(es[h.index := taken]), current := Some(h.index), callback := h.callback,
          isProtected := false), Entered)
  }

  /** LhBarrierIntro. */
  function Intro(u: Unit, h: Hook, e: Entry): (r: (Unit, Result))
    requires Shaped(u)
  {
    var at := Find(u.ids, e.thread);
    var free := Find(u.ids, 0);
    if e.loaderLock then (u, Refused)
    else if at.None? then
      if free.None? then (u, Refused)
      else
        var i := free.value;
        var v := u.(ids := u.ids[i := e.thread]);
        if h.index >= MAX_HOOK_COUNT then (SetInfo(v, i, ZERO_THREAD.(isProtected := true)), Asserted)
        else if !e.memory then (SetInfo(v, i, ZERO_THREAD), Refused)
        else
          var (t, r) := IntroThread(u.acl, ZERO_THREAD.(entries := Some(ZeroEntries())), h, e);
          (SetInfo(v, i, t), r)
    else
      var i := at.value;
      if u.infos[i].isProtected then (u, Refused)
      else if h.index >= MAX_HOOK_COUNT then (SetInfo(u, i, u.infos[i].(isProtected := true)), Asserted)
      else if u.infos[i].entries.None? || |u.infos[i].entries.value| <= h.index then
        (SetInfo(u, i, u.infos[i].(isProtected := true)), Crashed)
      else
        var (t, r) := IntroThread(u.acl, u.infos[i], h, e);
        (SetInfo(u, i, t), r)
  }

  /** LhBarrierOutro; `space` is what the trampoline left where the return address goes. */
  function Outro(u: Unit, h: Hook, thread: int, space: int): (r: (Unit, Result))
    requires Shaped(u)
  {
    var at := Find(u.ids, thread);
    if at.None? || u.infos[at.value].isProtected then (u, Asserted)
    else
      var t := u.infos[at.value];
      if t.entries.None? || |t.entries.value| <= h.index
        then (SetInfo(u, at.value, LeaveHandler(t).(isProtected := true)), Crashed)
      else
        var slot := t.entries.value[h.index];
        if !slot.isExecuting || space != 0 then (SetInfo(u, at.value, LeaveHandler(t).(isProtected := true)), Asserted)
        else (SetInfo(u, at.value,
                      LeaveHandler(t.(entries := Some(t.entries.value[h.index := slot.(isExecuting := false)])))),
                        Returned(slot.ret))
  }

  /** LhBarrierThreadDetach. */
  function Detach(u: Unit, thread: int): (r: (Unit, Result))
    requires Shaped(u)
  {
    var at := Find(u.ids, thread);
    if at.None? then (u, Detached)
    else (SetInfo(u, at.value, ZERO_THREAD).(ids := u.ids[at.value := 0]), Detached)
  }

  /** LhBarrierGetReturnAddress, from inside a handler or anywhere else. */
  function ReturnAddress(u: Unit, thread: int): (r: Option<int>)
    requires Shaped(u)
  {
    var at := Find(u.ids, thread);
    if at.None? then None
    else
      var t := u.infos[at.value];
      if t.current.None? || t.entries.None? || |t.entries.value| <= t.current.value then None
      else Some(t.entries.value[t.current.value].ret)
  }

  /** LhBarrierGetCallback: what the hook was installed with. */
  function Callback(u: Unit, thread: int): (r: Option<int>)
    requires Shaped(u)
  {
    var at := Find(u.ids, thread);
    if at.None? || u.infos[at.value].current.None? then None else Some(u.infos[at.value].callback)
  }

  /** Self protection taken before the negotiation is given up by every exit of it. */
  lemma FlagIgnored(acl: Acl, t: ThreadInfo, h: Hook, e: Entry)
    requires t.entries.Some? && h.index < |t.entries.value|
    ensures IntroThread(acl, t.(isProtected := true), h, e) == IntroThread(acl, t, h, e)
  {
    hide Admits;
  }
}
