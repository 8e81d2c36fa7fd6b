/** EasyHook's global hook structures updated in place: hook records linked by address, the
    callers' handles, the slot table and the patched code, against the steps of HookEngine. */
module HookRegistry {
  import opened Bytes
  import opened Wrappers
  import opened HookEngine

  const NULL: int := 0

  /** LOCAL_HOOK_INFO; `handled` tells whether HookProc is not NULL. */
  datatype Record = Record(next: int, hook: Hook, handled: bool, tracking: int)

  /** The records and handles by address, the two list heads, and what hangs behind them. */
  datatype View = View(records: map<int, Record>, links: map<int, int>, first: int, firstRemoval: int,
                       list: seq<int>, removal: seq<int>, dropped: set<int>)

  // ---- chains of records ---------------------------------------------------

  function Nodes(s: seq<int>): (r: set<int>) { set p | p in s }

  /** The address found i steps down a chain. */
  function At(s: seq<int>, i: nat): (r: int) { if i < |s| then s[i] else NULL }

  ghost predicate Distinct(s: seq<int>) { forall i, j :: 0 <= i < j < |s| ==> s[i] != s[j] }

  /** s are the records reached from `first` along Next. */
  ghost predicate Chain(m: map<int, Record>, first: int, s: seq<int>) {
    && first == At(s, 0)
    && forall i :: 0 <= i < |s| ==> s[i] in m && s[i] != NULL && m[s[i]].next == At(s, i + 1)
  }

  ghost function Hooks(m: map<int, Record>, s: seq<int>): (r: seq<Hook>)
    requires Nodes(s) <= m.Keys
    ensures |r| == |s| && forall i :: 0 <= i < |s| ==> s[i] in m && r[i] == m[s[i]].hook
  {
    assert forall i :: 0 <= i < |s| ==> s[i] in Nodes(s);
    seq(|s|, i requires 0 <= i < |s| => m[s[i]].hook)
  }

  ghost function HookSet(m: map<int, Record>, d: set<int>): (r: set<Hook>) {
    set p | p in d && p in m :: m[p].hook
  }

  // ---- what the structures keep --------------------------------------------

  ghost predicate Lists(v: View) {
    && Chain(v.records, v.first, v.list) && Chain(v.records, v.firstRemoval, v.removal)
    && v.dropped <= v.records.Keys
    && Distinct(v.list) && Distinct(v.removal)
    && Nodes(v.list) !! Nodes(v.removal) && Nodes(v.list) !! v.dropped && Nodes(v.removal) !! v.dropped
  }

  ghost predicate WellFormed(h: Hook, counter: int, size: nat) {
    h.ident < counter && 0 <= h.target && h.target + 8 <= size && |h.backup| == |h.copy| == 8 && h.index < MAX_HOOKS
  }

  ghost predicate Identified(m: map<int, Record>, counter: int, size: nat) {
    && (forall p :: p in m ==> WellFormed(m[p].hook, counter, size))
    && (forall p, q :: p in m && q in m && p != q ==> m[p].hook.ident != m[q].hook.ident)
  }

  ghost function Installed(v: View): (r: set<int>) { Nodes(v.list) + v.dropped }

  /** A handle is linked exactly while its hook still has its handler. */
  ghost predicate Tracked(v: View) {
    && (forall p :: p in Installed(v) ==> p in v.records && p != NULL && v.records[p].handled
                                          && v.records[p].tracking in v.links && v.links[v.records[p].tracking] == p)
    && (forall p :: p in Nodes(v.removal) ==> p in v.records && !v.records[p].handled)
    && (forall t :: t in v.links && v.links[t] != NULL ==>
          v.links[t] in Installed(v) && v.links[t] in v.records && v.records[v.links[t]].tracking == t)
  }

  ghost predicate Wf(v: View, counter: int, size: nat) {
    Lists(v) && Identified(v.records, counter, size) && Tracked(v)
  }

  lemma ChainAt(m: map<int, Record>, first: int, s: seq<int>, k: nat)
    requires Chain(m, first, s) && k < |s|
    ensures s[k] in m && s[k] != NULL && m[s[k]].next == At(s, k + 1)
  {
  }

  lemma ChainNodes(m: map<int, Record>, first: int, s: seq<int>)
    requires Chain(m, first, s)
    ensures Nodes(s) <= m.Keys && NULL !in Nodes(s)
  {
  }

  ghost function Abstract(v: View, code: seq<Byte>, slots: seq<int>, counter: int): (e: Engine)
    requires Wf(v, counter, |code|)
    ensures e.mem == code && e.slots == slots && e.counter == counter
  {
    ChainNodes(v.records, v.first, v.list);
    ChainNodes(v.records, v.firstRemoval, v.removal);
    Engine(code, slots, counter, Hooks(v.records, v.list), Hooks(v.records, v.removal), HookSet(v.records, v.dropped))
  }

  // ---- facts about chains --------------------------------------------------

  lemma DistinctParts(s: seq<int>, k: nat)
    requires Distinct(s) && k < |s|
    ensures Distinct(s[k + 1..]) && s[k] !in s[k + 1..] && s[k] !in s[..k]
    ensures Nodes(s[..k]) !! Nodes(s[k + 1..]) && s[k] !in Nodes(s[..k]) && s[k] !in Nodes(s[k + 1..])
    ensures Nodes(s) == Nodes(s[..k]) + {s[k]} + Nodes(s[k + 1..])
  {
    assert s == s[..k] + [s[k]] + s[k + 1..];
  }

  lemma DistinctCons(p: int, s: seq<int>)
    requires Distinct(s) && p !in s
    ensures Distinct([p] + s) && Nodes([p] + s) == {p} + Nodes(s)
  {
    var t := [p] + s;
    assert t[0] == p && t[1..] == s;
  }

  /** Records not on the chain may be written. */
  lemma ChainKept(m: map<int, Record>, n: map<int, Record>, first: int, s: seq<int>)
    requires Chain(m, first, s) && forall p :: p in s && p in m ==> p in n && n[p].next == m[p].next
    ensures Chain(n, first, s)
  {
  }

  lemma ChainTail(m: map<int, Record>, first: int, s: seq<int>, k: nat)
    requires Chain(m, first, s) && k < |s|
    ensures Chain(m, m[s[k]].next, s[k + 1..])
  {
    var t := s[k + 1..];
    forall i | 0 <= i < |t|
      ensures t[i] in m && t[i] != NULL && m[t[i]].next == At(t, i + 1)
    {
      assert t[i] == s[k + 1 + i] && At(t, i + 1) == At(s, k + 2 + i);
    }
    assert m[s[k]].next == At(s, k + 1);
  }

  lemma ChainCons(m: map<int, Record>, p: int, first: int, s: seq<int>)
    requires Chain(m, first, s) && p in m && p != NULL && m[p].next == first
    ensures Chain(m, p, [p] + s)
  {
    var t := [p] + s;
    forall i | 0 <= i < |t|
      ensures t[i] in m && t[i] != NULL && m[t[i]].next == At(t, i + 1)
    {
      if i > 0 {
        assert t[i] == s[i - 1] && At(t, i + 1) == At(s, i);
      }
    }
  }

  /** The search for a record is the search for its identity. */
  lemma HookAt(m: map<int, Record>, s: seq<int>, k: nat, counter: int, size: nat)
    requires Nodes(s) <= m.Keys && k < |s| && Distinct(s) && Identified(m, counter, size)
    ensures s[k] in m && Find(Hooks(m, s), m[s[k]].hook) == Some(k)
  {
    assert forall i :: 0 <= i < |s| ==> s[i] in Nodes(s);
    FindIs(Hooks(m, s), m[s[k]].hook, k);
  }

  lemma HookNowhere(m: map<int, Record>, s: seq<int>, p: int, counter: int, size: nat)
    requires Nodes(s) <= m.Keys && p in m && p !in s && Identified(m, counter, size)
    ensures Find(Hooks(m, s), m[p].hook).None?
  {
    forall i | 0 <= i < |s|
      ensures Hooks(m, s)[i] != m[p].hook
    {
      assert s[i] in Nodes(s) && s[i] != p;
    }
  }

  lemma HookSetUnion(m: map<int, Record>, d: set<int>, s: seq<int>, k: nat)
    requires Nodes(s) <= m.Keys && k <= |s|
    ensures HookSet(m, d + Nodes(s[..k])) == HookSet(m, d) + Elements(Hooks(m, s)[..k])
  {
    forall h | h in Elements(Hooks(m, s)[..k])
      ensures h in HookSet(m, d + Nodes(s[..k]))
    {
      var i :| 0 <= i < k && Hooks(m, s)[i] == h;
      assert s[..k][i] == s[i] && s[i] in Nodes(s[..k]);
    }
    forall h | h in HookSet(m, Nodes(s[..k]))
      ensures h in Elements(Hooks(m, s)[..k])
    {
      var p :| p in Nodes(s[..k]) && p in m && m[p].hook == h;
      var i :| 0 <= i < k && s[..k][i] == p;
      assert Hooks(m, s)[..k][i] == h;
    }
  }

  lemma HookSetMinus(m: map<int, Record>, d: set<int>, p: int, counter: int, size: nat)
    requires p in m && Identified(m, counter, size)
    ensures HookSet(m, d - {p}) == HookSet(m, d) - {m[p].hook}
  {
  }

  // ---- uninstall -----------------------------------------------------------

  /** The structures once record p, found behind k others on the hook list or not at all,
      has moved to the removal list. */
  ghost function Moved(v: View, handle: int, p: int, k: nat): (r: View)
    requires p in v.records && k <= |v.list|
  {
    var r := v.records[p].(handled := false, next := v.firstRemoval);
    var w := v.(records := v.records[p := r], links := v.links[handle := NULL], firstRemoval := p,
                removal := [p] + v.removal);
    if k < |v.list| then
      w.(first := v.records[p].next, list := v.list[k + 1..], dropped := v.dropped + Nodes(v.list[..k]))
    else
      w.(dropped := v.dropped - {p})
  }

  ghost predicate Movable(v: View, handle: int, p: int, k: nat) {
    && Lists(v) && Tracked(v) && handle in v.links && v.links[handle] == p && p != NULL && p in v.records
    && k <= |v.list| && p !in v.list[..k] && (k < |v.list| ==> v.list[k] == p)
  }

  lemma MovableNodes(v: View, handle: int, p: int, k: nat)
    requires Movable(v, handle, p, k)
    ensures p in Installed(v) && p !in v.removal
    ensures k == |v.list| ==> p !in Nodes(v.list) && p in v.dropped
    ensures k < |v.list| ==> p !in v.dropped
  {
    if k == |v.list| { assert v.list[..k] == v.list; }
    assert p in v.removal ==> p in Nodes(v.removal);
    assert forall i :: 0 <= i < |v.list| ==> v.list[i] in Nodes(v.list);
  }

  lemma MovedLists(v: View, handle: int, p: int, k: nat)
    requires Movable(v, handle, p, k)
    ensures Lists(Moved(v, handle, p, k))
  {
    var w, s := Moved(v, handle, p, k), v.list;
    MovableNodes(v, handle, p, k);
    ChainKept(v.records, w.records, v.firstRemoval, v.removal);
    ChainCons(w.records, p, v.firstRemoval, v.removal);
    DistinctCons(p, v.removal);
    if k < |s| {
      DistinctParts(s, k);
      ChainTail(v.records, v.first, s, k);
      ChainKept(v.records, w.records, v.records[p].next, s[k + 1..]);
    } else {
      assert forall q :: q in s ==> q in Nodes(s);
      ChainKept(v.records, w.records, v.first, s);
    }
    hide Chain, Distinct;
  }

  lemma MovedInstalled(v: View, handle: int, p: int, k: nat)
    requires Movable(v, handle, p, k)
    ensures Installed(Moved(v, handle, p, k)) == Installed(v) - {p}
    ensures Nodes(Moved(v, handle, p, k).removal) == {p} + Nodes(v.removal)
  {
    MovableNodes(v, handle, p, k);
    DistinctCons(p, v.removal);
    if k < |v.list| { DistinctParts(v.list, k); }
  }

  lemma MovedTracked(v: View, handle: int, p: int, k: nat)
    requires Movable(v, handle, p, k)
    ensures Tracked(Moved(v, handle, p, k))
  {
    MovableNodes(v, handle, p, k);
    MovedInstalled(v, handle, p, k);
    hide Installed, Nodes, Lists;
  }

  lemma MovedIdentified(v: View, handle: int, p: int, k: nat, counter: int, size: nat)
    requires Movable(v, handle, p, k) && Identified(v.records, counter, size)
    ensures Identified(Moved(v, handle, p, k).records, counter, size)
  {
  }

  lemma SameHooks(m: map<int, Record>, n: map<int, Record>, s: seq<int>)
    requires Nodes(s) <= m.Keys && m.Keys <= n.Keys && forall p :: p in m ==> n[p].hook == m[p].hook
    ensures Hooks(m, s) == Hooks(n, s)
  {
    forall i | 0 <= i < |s|
      ensures Hooks(m, s)[i] == Hooks(n, s)[i]
    {
      var p := s[i];
      assert p in Nodes(s);
      assert p in m;
      assert n[p].hook == m[p].hook;
    }
  }

  lemma MovedHookSet(v: View, handle: int, p: int, k: nat, d: set<int>)
    requires Movable(v, handle, p, k)
    ensures HookSet(Moved(v, handle, p, k).records, d) == HookSet(v.records, d)
  {
    var n := Moved(v, handle, p, k).records;
    assert forall q :: q in n <==> q in v.records;
    assert forall q :: q in n ==> n[q].hook == v.records[q].hook;
  }

  /** The hook list and the dropped hooks after the move, as values. */
  lemma MovedHooks(v: View, handle: int, p: int, k: nat, counter: int, size: nat)
    requires Movable(v, handle, p, k) && Identified(v.records, counter, size) && Nodes(v.list) <= v.records.Keys
    ensures var w, h, l := Moved(v, handle, p, k), v.records[p].hook, Hooks(v.records, v.list); var at := Find(l, h);
      && Nodes(w.list) <= v.records.Keys
      && at == (if k < |l| then Some(k) else None)
      && (k < |l| ==> l[k] == h && Hooks(v.records, w.list) == l[k + 1..])
      && (k == |l| ==> w.list == v.list && h in HookSet(v.records, v.dropped))
      && HookSet(v.records, w.dropped)
         == (if k < |l| then HookSet(v.records, v.dropped) + Elements(l[..k]) else HookSet(v.records, v.dropped) - {h})
  {
    var m, s := v.records, v.list;
    MovableNodes(v, handle, p, k);
    hide Lists, Tracked, Elements;
    if k < |s| {
      HookAt(m, s, k, counter, size);
      HookSetUnion(m, v.dropped, s, k);
      DistinctTail(s, k, m);
    } else {
      assert s[..k] == s;
      HookNowhere(m, s, p, counter, size);
      HookSetMinus(m, v.dropped, p, counter, size);
    }
  }

  lemma DistinctTail(s: seq<int>, k: nat, m: map<int, Record>)
    requires k < |s| && Nodes(s) <= m.Keys
    ensures Nodes(s[k + 1..]) <= m.Keys && Hooks(m, s[k + 1..]) == Hooks(m, s)[k + 1..]
  {
    var t := s[k + 1..];
    assert forall i :: 0 <= i < |t| ==> t[i] == s[k + 1 + i] && s[k + 1 + i] in Nodes(s);
  }

  lemma HooksCons(m: map<int, Record>, p: int, s: seq<int>)
    requires p in m && Nodes(s) <= m.Keys
    ensures Nodes([p] + s) <= m.Keys && Hooks(m, [p] + s) == [m[p].hook] + Hooks(m, s)
  {
    assert forall q :: q in [p] + s ==> q == p || q in Nodes(s);
  }

  /** The removal list gains the hook in front, and no record changes its hook. */
  lemma MovedValues(v: View, handle: int, p: int, k: nat)
    requires Movable(v, handle, p, k) && Nodes(v.removal) <= v.records.Keys
    requires var w := Moved(v, handle, p, k); Nodes(w.list) <= v.records.Keys
    ensures var w, m := Moved(v, handle, p, k), v.records;
      && Nodes(w.removal) <= w.records.Keys && Nodes(w.list) <= w.records.Keys
      && Hooks(w.records, w.removal) == [m[p].hook] + Hooks(m, v.removal)
      && Hooks(w.records, w.list) == Hooks(m, w.list)
      && HookSet(w.records, w.dropped) == HookSet(m, w.dropped)
  {
    var w, m := Moved(v, handle, p, k), v.records;
    assert w.removal == [p] + v.removal && w.records[p].hook == m[p].hook;
    assert m.Keys <= w.records.Keys && forall q :: q in m ==> w.records[q].hook == m[q].hook;
    MovedHookSet(v, handle, p, k, w.dropped);
    SameHooks(m, w.records, v.removal);
    SameHooks(m, w.records, w.list);
    HooksCons(w.records, p, v.removal);
    hide Hooks, HookSet, Lists, Tracked;
  }

  lemma MovedAbstract(v: View, handle: int, p: int, k: nat, code: seq<Byte>, slots: seq<int>, counter: int)
    requires Movable(v, handle, p, k) && Wf(v, counter, |code|) && Wf(Moved(v, handle, p, k), counter, |code|)
    ensures Abstract(Moved(v, handle, p, k), code, slots, counter)
      == Uninstall(Abstract(v, code, slots, counter), v.records[p].hook)
  {
    hide Hooks, HookSet, Elements, Find, Moved, Chain, Distinct, Tracked, Identified;
    var w, m, h := Moved(v, handle, p, k), v.records, v.records[p].hook;
    ChainNodes(m, v.first, v.list);
    ChainNodes(m, v.firstRemoval, v.removal);
    MovedHooks(v, handle, p, k, counter, |code|);
    MovedValues(v, handle, p, k);
    var e, f := Abstract(v, code, slots, counter), Abstract(w, code, slots, counter);
    assert f.removal == [h] + e.removal;
  }

  /** Uninstalling keeps the structures and is the step Uninstall on them. */
  lemma MovedWf(v: View, handle: int, p: int, k: nat, code: seq<Byte>, slots: seq<int>, counter: int)
    requires Wf(v, counter, |code|) && handle in v.links && v.links[handle] == p && p != NULL && p in v.records
    requires k <= |v.list| && p !in v.list[..k] && (k < |v.list| ==> v.list[k] == p)
    ensures Wf(Moved(v, handle, p, k), counter, |code|)
    ensures Abstract(Moved(v, handle, p, k), code, slots, counter)
      == Uninstall(Abstract(v, code, slots, counter), v.records[p].hook)
  {
    assert Movable(v, handle, p, k);
    hide Lists, Tracked, Identified, Movable, Moved;
    MovedLists(v, handle, p, k);
    MovedTracked(v, handle, p, k);
    MovedIdentified(v, handle, p, k, counter, |code|);
    MovedAbstract(v, handle, p, k, code, slots, counter);
  }

  lemma LinkedRecord(v: View, handle: int, counter: int, size: nat)
    requires Wf(v, counter, size) && handle in v.links && v.links[handle] != NULL
    ensures v.links[handle] in v.records && v.records[v.links[handle]].handled
    ensures Chain(v.records, v.first, v.list)
  {
  }

  // ---- uninstall all -------------------------------------------------------

  /** Uninstalling the newest hook first is part of uninstalling all. */
  lemma UninstallAllStep(e: Engine)
    requires e.list != []
    ensures UninstallAll(Uninstall(e, e.list[0])) == UninstallAll(e)
  {
    var h := e.list[0];
    FindIs(e.list, h, 0);
    assert e.list[..0] == [] && Elements([]) == {};
    var f := Uninstall(e, h);
    assert f.list == e.list[1..] && f.dropped == e.dropped;
    assert Reverse(e.list) + e.removal == Reverse(e.list[1..]) + ([h] + e.removal);
  }

  lemma ListHead(v: View, code: seq<Byte>, slots: seq<int>, counter: int)
    requires Wf(v, counter, |code|)
    ensures v.first == NULL <==> v.list == []
    ensures v.list == [] <==> Abstract(v, code, slots, counter).list == []
    ensures v.list != [] ==> v.list[0] == v.first && v.first in v.records && v.records[v.first].handled
    ensures v.list != [] ==> v.records[v.first].tracking in v.links && v.links[v.records[v.first].tracking] == v.first
    ensures v.list != [] ==> Abstract(v, code, slots, counter).list[0] == v.records[v.first].hook
  {
    if v.list != [] { assert v.list[0] in Nodes(v.list); }
  }

  /** One turn of the loop of LhUninstallAllHooks. */
  lemma MovedHead(v: View, code: seq<Byte>, slots: seq<int>, counter: int)
    requires Wf(v, counter, |code|) && v.list != []
    ensures v.first in v.records
    ensures var w := Moved(v, v.records[v.first].tracking, v.first, 0);
      && Wf(w, counter, |code|)
      && w.dropped == v.dropped && w.list == v.list[1..] && w.first == v.records[v.first].next
      && UninstallAll(Abstract(w, code, slots, counter)) == UninstallAll(Abstract(v, code, slots, counter))
  {
    hide Wf, Abstract, Uninstall, UninstallAll;
    ListHead(v, code, slots, counter);
    assert v.first != NULL;
    MovedWf(v, v.records[v.first].tracking, v.first, 0, code, slots, counter);
    UninstallAllStep(Abstract(v, code, slots, counter));
    assert Nodes(v.list[..0]) == {};
  }

  lemma NothingListed(v: View, code: seq<Byte>, slots: seq<int>, counter: int)
    requires Wf(v, counter, |code|) && v.list == []
    ensures UninstallAll(Abstract(v, code, slots, counter)) == Abstract(v, code, slots, counter)
    ensures forall t :: t in v.links && v.links[t] != NULL ==> v.links[t] in v.dropped
  {
  }

  // ---- wait ----------------------------------------------------------------

  ghost function Popped(v: View): (r: View)
    requires v.removal != [] && v.firstRemoval in v.records
  {
    v.(firstRemoval := v.records[v.firstRemoval].next, removal := v.removal[1..])
  }

  lemma RemovalHead(v: View, code: seq<Byte>, slots: seq<int>, counter: int)
    requires Wf(v, counter, |code|)
    ensures v.firstRemoval == NULL <==> v.removal == []
    ensures v.removal == [] <==> Abstract(v, code, slots, counter).removal == []
    ensures v.removal != [] ==> v.firstRemoval in v.records
    ensures v.removal != [] ==> var h := v.records[v.firstRemoval].hook;
      Abstract(v, code, slots, counter).removal[0] == h && InMem(code, h.target) && |h.backup| == 8
        && h.index < MAX_HOOKS
  {
  }

  lemma PoppedLists(v: View)
    requires Lists(v) && v.removal != []
    ensures v.firstRemoval in v.records && Lists(Popped(v))
    ensures v.firstRemoval !in Installed(v) && v.firstRemoval !in v.removal[1..]
    ensures Nodes(v.removal[1..]) <= Nodes(v.removal)
  {
    DistinctParts(v.removal, 0);
    ChainTail(v.records, v.firstRemoval, v.removal, 0);
    assert v.firstRemoval in Nodes(v.removal);
    hide Chain, Distinct;
  }

  /** Taking the head off the removal list. */
  lemma PoppedWf(v: View, code: seq<Byte>, slots: seq<int>, counter: int)
    requires Wf(v, counter, |code|) && v.removal != []
    ensures v.firstRemoval in v.records && Wf(Popped(v), counter, |code|)
    ensures Abstract(Popped(v), code, slots, counter)
      == Abstract(v, code, slots, counter).(removal := Abstract(v, code, slots, counter).removal[1..])
    ensures v.firstRemoval !in Installed(v) && v.firstRemoval !in v.removal[1..]
  {
    PoppedLists(v);
    ChainNodes(v.records, v.firstRemoval, v.removal);
    DistinctTail(v.removal, 0, v.records);
    assert Installed(Popped(v)) == Installed(v);
    hide Lists, Identified, Hooks, HookSet, Installed, Nodes;
  }

  /** The same structures over changed code and slots. */
  lemma Over(v: View, code: seq<Byte>, slots: seq<int>, code': seq<Byte>, slots': seq<int>, counter: int)
    requires Wf(v, counter, |code|) && |code'| == |code|
    ensures Abstract(v, code', slots', counter) == Abstract(v, code, slots, counter).(mem := code', slots := slots')
  {
  }

  lemma FreedLists(v: View, p: int)
    requires Lists(v) && p !in Installed(v) && p !in v.removal
    ensures Lists(v.(records := v.records - {p})) && p !in Nodes(v.removal)
    ensures Nodes(v.list) <= v.records.Keys - {p} && Nodes(v.removal) <= v.records.Keys - {p} && p !in v.dropped
  {
    var n := v.records - {p};
    assert p !in Nodes(v.list) && p !in Nodes(v.removal) && p !in v.dropped;
    ChainNodes(v.records, v.first, v.list);
    ChainNodes(v.records, v.firstRemoval, v.removal);
    ChainKept(v.records, n, v.first, v.list);
    ChainKept(v.records, n, v.firstRemoval, v.removal);
    hide Chain, Distinct;
  }

  /** Freeing a record that nothing refers to. */
  lemma FreedWf(v: View, p: int, code: seq<Byte>, slots: seq<int>, counter: int)
    requires Wf(v, counter, |code|) && p !in Installed(v) && p !in v.removal
    ensures Wf(v.(records := v.records - {p}), counter, |code|)
    ensures Abstract(v.(records := v.records - {p}), code, slots, counter) == Abstract(v, code, slots, counter)
  {
    var n := v.records - {p};
    FreedLists(v, p);
    SameHooks(n, v.records, v.list);
    SameHooks(n, v.records, v.removal);
    assert HookSet(n, v.dropped) == HookSet(v.records, v.dropped);
    hide Lists, Hooks, HookSet, Nodes;
  }

  // ---- install -------------------------------------------------------------

  ghost function Inserted(v: View, address: int, h: Hook, handle: int): (r: View) {
    v.(records := v.records[address := Record(v.first, h, true, handle)], links := v.links[handle := address],
       first := address, list := [address] + v.list)
  }

  lemma InsertedLists(v: View, address: int, h: Hook, handle: int)
    requires Lists(v) && address != NULL && address !in v.records
    ensures Lists(Inserted(v, address, h, handle))
    ensures Installed(Inserted(v, address, h, handle)) == {address} + Installed(v) && address !in Installed(v)
    ensures address !in Nodes(v.removal)
  {
    var n := Inserted(v, address, h, handle).records;
    ChainNodes(v.records, v.first, v.list);
    ChainNodes(v.records, v.firstRemoval, v.removal);
    assert address in v.list ==> address in Nodes(v.list);
    ChainKept(v.records, n, v.first, v.list);
    ChainKept(v.records, n, v.firstRemoval, v.removal);
    ChainCons(n, address, v.first, v.list);
    DistinctCons(address, v.list);
    hide Chain, Distinct;
  }

  lemma InsertedTracked(v: View, address: int, h: Hook, handle: int)
    requires Lists(v) && Tracked(v) && address != NULL && address !in v.records
    requires handle in v.links ==> v.links[handle] == NULL
    ensures Tracked(Inserted(v, address, h, handle))
  {
    InsertedLists(v, address, h, handle);
    hide Lists, Installed;
  }

  lemma InsertedIdentified(m: map<int, Record>, address: int, r: Record, counter: int, size: nat)
    requires Identified(m, counter, size) && r.hook.ident == counter && r.hook.index < MAX_HOOKS
    requires 0 <= r.hook.target && r.hook.target + 8 <= size && |r.hook.backup| == |r.hook.copy| == 8
    ensures Identified(m[address := r], counter + 1, size)
  {
  }

  lemma InsertedWf(v: View, address: int, h: Hook, handle: int, code: seq<Byte>, slots: seq<int>, counter: int)
    requires Wf(v, counter, |code|) && address != NULL && address !in v.records
    requires handle in v.links ==> v.links[handle] == NULL
    requires InMem(code, h.target) && |h.backup| == |h.copy| == 8 && h.index < MAX_HOOKS && h.ident == counter
    ensures Wf(Inserted(v, address, h, handle), counter + 1, |code|)
    ensures var e := Abstract(v, code, slots, counter);
      Abstract(Inserted(v, address, h, handle), code, slots, counter + 1)
        == e.(counter := counter + 1, list := [h] + e.list)
  {
    var n := Inserted(v, address, h, handle).records;
    InsertedLists(v, address, h, handle);
    InsertedTracked(v, address, h, handle);
    InsertedIdentified(v.records, address, n[address], counter, |code|);
    ChainNodes(v.records, v.first, v.list);
    ChainNodes(v.records, v.firstRemoval, v.removal);
    SameHooks(v.records, n, v.list);
    SameHooks(v.records, n, v.removal);
    HooksCons(n, address, v.list);
    assert HookSet(n, v.dropped) == HookSet(v.records, v.dropped);
    hide Lists, Tracked, Identified, Hooks, HookSet;
  }

  /** An identity may be used up without a hook. */
  lemma CounterWf(v: View, code: seq<Byte>, slots: seq<int>, counter: int)
    requires Wf(v, counter, |code|)
    ensures Wf(v, counter + 1, |code|)
    ensures Abstract(v, code, slots, counter + 1) == Abstract(v, code, slots, counter).(counter := counter + 1)
  {
  }

  // ---- the registry --------------------------------------------------------

  datatype Status = Success | InvalidHandle | OutOfReach | NoSlot

  class HookRegistry {
    const code: array<Byte>
    const slots: array<int>
    var counter: int
    var first: int
    var firstRemoval: int
    var records: map<int, Record>
    var links: map<int, int>
    ghost var list: seq<int>
    ghost var removal: seq<int>
    ghost var dropped: set<int>

    ghost function Structures(): (r: View)
      reads this
    {
      View(records, links, first, firstRemoval, list, removal, dropped)
    }

    ghost predicate Valid()
      reads this
    {
      slots.Length == MAX_HOOKS && Wf(Structures(), counter, code.Length)
    }

    ghost function State(): (r: Engine)
      requires Valid()
      reads this, code, slots
    {
      Abstract(Structures(), code[..], slots[..], counter)
    }

    /** LhCriticalInitialize */
    constructor (code: array<Byte>)
      ensures Valid() && this.code == code && fresh(slots) && links == map[]
      ensures State() == Engine(code[..], seq(MAX_HOOKS, _ => 0), FIRST_IDENT, [], [], {})
    {
      this.code := code;
      slots := new int[MAX_HOOKS](_ => 0);
      counter, first, firstRemoval := FIRST_IDENT, NULL, NULL;
      records, links := map[], map[];
      list, removal, dropped := [], [], {};
      new;
      assert slots[..] == seq(MAX_HOOKS, _ => 0);
    }

    /** LhIsValidHandle */
    predicate LhIsValidHandle(handle: int)
      reads this
    {
      handle in links && links[handle] in records && records[links[handle]].handled
    }

    // ---- uninstall -----------------------------------------------------------

    /** The search on the global list. Its predecessor pointer stays at the list head, so a
        hook found behind k others makes the head skip them all. */
    method RemoveFromList(hook: int) returns (ghost k: nat)
      requires Chain(records, first, list)
      modifies `first
      ensures k <= |list| && hook !in list[..k] && (k < |list| ==> list[k] == hook && hook in records)
      ensures first == if k < |list| then records[hook].next else old(first)
    {
      var current := first;
      k := 0;
      while current != NULL
        invariant k <= |list| && current == At(list, k) && first == old(first)
        invariant forall i :: 0 <= i < k ==> list[i] != hook
        decreases |list| - k
      {
        ChainAt(records, first, list, k);
        if current == hook {
          first := records[hook].next;
          break;
        }
        current := records[current].next;
        k := k + 1;
      }
    }

    /** The locked section of LhUninstallHook, for a handle that is linked. */
    method MoveToRemovals(handle: int)
      requires Valid() && handle in links && links[handle] != NULL
      modifies this
      ensures Valid() && counter == old(counter) && links == old(links)[handle := NULL]
      ensures old(links)[handle] in old(records)
      ensures State() == Uninstall(old(State()), old(records)[old(links)[handle]].hook)
    {
      hide Wf, Lists, Tracked, Identified, Chain, Uninstall, Abstract, Hooks, HookSet, Nodes;
      ghost var v := Structures();
      assert Wf(v, counter, code.Length);
      var hook := links[handle];
      LinkedRecord(v, handle, counter, code.Length);
      links := links[handle := NULL];
      records := records[hook := records[hook].(handled := false)];
      ChainKept(v.records, records, first, list);
      ghost var k := RemoveFromList(hook);
      records := records[hook := records[hook].(next := firstRemoval)];
      firstRemoval := hook;
      list, dropped, removal := if k < |list| then list[k + 1..] else list,
                                if k < |list| then dropped + Nodes(list[..k]) else dropped - {hook},
                                [hook] + removal;
      assert Structures() == Moved(v, handle, hook, k) by {
        assert records == Moved(v, handle, hook, k).records;
      }
      hide Moved;
      assert |code[..]| == code.Length;
      MovedWf(v, handle, hook, k, code[..], slots[..], counter);
    }

    /** LhUninstallHook */
    method LhUninstallHook(handle: int)
      requires Valid()
      modifies this
      ensures Valid() && counter == old(counter)
      ensures links == if handle in old(links) then old(links)[handle := NULL] else old(links)
      ensures State() == if handle in old(links) && old(links)[handle] != NULL then
                           Uninstall(old(State()), old(records)[old(links)[handle]].hook)
                         else
                           old(State())
    {
      if handle in links && links[handle] != NULL && LhIsValidHandle(handle) {
        MoveToRemovals(handle);
      } else {
        assert handle in links ==> links == links[handle := NULL];
      }
    }

    // ---- uninstall all -------------------------------------------------------

    /** LhUninstallAllHooks */
    method LhUninstallAllHooks()
      requires Valid()
      modifies this
      ensures Valid() && counter == old(counter)
      ensures State() == UninstallAll(old(State()))
      ensures forall t :: t in links && links[t] != NULL ==> links[t] in old(dropped)
    {
      hide Wf, Lists, Tracked, Identified, Chain, UninstallAll, Abstract;
      ghost var c, l, v := code[..], slots[..], Structures();
      assert |c| == code.Length;
      var current := first;
      while current != NULL
        invariant v == Structures().(first := current) && dropped == old(dropped) && counter == old(counter)
        invariant Wf(v, counter, |c|)
        invariant UninstallAll(Abstract(v, c, l, counter)) == UninstallAll(old(State()))
        decreases |list|
      {
        ListHead(v, c, l, counter);
        MovedHead(v, c, l, counter);
        ghost var w := Moved(v, v.records[v.first].tracking, v.first, 0);
        var hook := current;
        current := records[hook].next;
        var tracking := records[hook].tracking;
        if LhIsValidHandle(tracking) {
          links := links[tracking := NULL];
        }
        records := records[hook := records[hook].(handled := false, next := firstRemoval)];
        firstRemoval := hook;
        list, removal := list[1..], [hook] + removal;
        assert w == Structures().(first := current);
        v := w;
      }
      ListHead(v, c, l, counter);
      NothingListed(v, c, l, counter);
      first := NULL;
    }

    // ---- wait ----------------------------------------------------------------

    /** One eight-byte store into code. */
    method WriteCode(target: int, word: seq<Byte>)
      requires 0 <= target && target + 8 <= code.Length && |word| == 8
      modifies code
      ensures code[..] == Splice(old(code[..]), target, word)
    {
      ghost var was := code[..];
      forall i | 0 <= i < 8 {
        code[target + i] := word[i];
      }
      assert code[..] == Splice(was, target, word);
    }

    /** The inner loop of LhWaitForPendingRemovals. */
    static method AwaitIdle(shown: Counters, h: Hook, next: nat, budget: int) returns (p: Poll)
      ensures p == PollCounter(shown, h, next, budget)
    {
      var polls, timeout := next, budget;
      while true
        invariant PollCounter(shown, h, polls, timeout) == PollCounter(shown, h, next, budget)
        decreases timeout
      {
        if shown(h, polls) <= 0 { return Poll(polls + 1, timeout, true); }
        if timeout <= 0 { return Poll(polls + 1, timeout, false); }
        timeout, polls := timeout - WAIT_SLICE, polls + 1;
      }
    }

    /** The body of LhWaitForPendingRemovals, for the hook at the head of the removal list. */
    method RemoveNext(shown: Counters, next: nat, budget: int, late: bool, done: seq<Hook>)
      returns (polls: nat, timeout: int, timedOut: bool, freed: seq<Hook>)
      requires Valid() && firstRemoval != NULL
      modifies this, code, slots
      ensures Valid() && links == old(links) && counter == old(counter) && |old(removal)| > 0
      ensures removal == old(removal)[1..]
      ensures old(State()).removal != []
      ensures Waited(State(), polls, timeout, timedOut, freed)
        == DrainOne(Waited(old(State()), next, budget, late, done), shown)
    {
      hide Wf, Lists, Tracked, Identified, Chain, Abstract;
      ghost var c, l, v := code[..], slots[..], Structures();
      assert |c| == code.Length;
      RemovalHead(v, c, l, counter);
      PoppedWf(v, c, l, counter);
      polls, timeout, timedOut, freed := next, budget, late, done;
      var hook := firstRemoval;
      var h := records[hook].hook;
      firstRemoval := records[hook].next;
      removal := removal[1..];
      assert Structures() == Popped(v);
      assert code[h.target..h.target + 8] == Window(c, h.target);
      if code[h.target..h.target + 8] == h.copy {
        WriteCode(h.target, h.backup);
        var p := AwaitIdle(shown, h, next, budget);
        polls, timeout := p.next, p.budget;
        if p.idle {
          if slots[h.index] == h.ident {
            slots[h.index] := 0;
          }
          Over(Popped(v), c, l, code[..], slots[..], counter);
          FreedWf(Popped(v), hook, code[..], slots[..], counter);
          records := records - {hook};
          freed := freed + [h];
        } else {
          timedOut := true;
          Over(Popped(v), c, l, code[..], slots[..], counter);
        }
      }
    }

    /** LhWaitForPendingRemovals */
    method LhWaitForPendingRemovals(shown: Counters) returns (timedOut: bool, slept: int, freed: seq<Hook>)
      requires Valid()
      modifies this, code, slots
      ensures Valid() && links == old(links) && counter == old(counter)
      ensures var w := Wait(old(State()), shown);
        && State() == w.e && timedOut == w.timedOut && slept == WAIT_BUDGET - w.budget && freed == w.freed
    {
      hide Wf, Abstract, DrainOne;
      var polls: nat, timeout := 0, WAIT_BUDGET;
      timedOut, freed := false, [];
      while firstRemoval != NULL
        invariant Valid() && links == old(links) && counter == old(counter)
        invariant Drain(Waited(State(), polls, timeout, timedOut, freed), shown) == Wait(old(State()), shown)
        decreases |removal|
      {
        polls, timeout, timedOut, freed := RemoveNext(shown, polls, timeout, timedOut, freed);
      }
      RemovalHead(Structures(), code[..], slots[..], counter);
      slept := WAIT_BUDGET - timeout;
    }

    // ---- install -------------------------------------------------------------

    /** The search for a free slot. */
    method FindSlot() returns (at: Option<nat>)
      requires slots.Length == MAX_HOOKS
      ensures at == Find(slots[..], 0)
    {
      var index: nat := 0;
      while index < MAX_HOOKS
        invariant index <= MAX_HOOKS && 0 !in slots[..index]
      {
        if slots[index] == 0 {
          assert slots[..][..index] == slots[..index];
          FindIs(slots[..], 0, index);
          return Some(index);
        }
        index := index + 1;
      }
      assert slots[..index] == slots[..];
      return None;
    }

    /** LhInstallHook, with the record allocated at a free address. */
    method LhInstallHook(target: int, trampoline: int, handle: int, address: int) returns (status: Status)
      requires Valid() && InMem(code[..], target) && address != NULL && address !in records
      modifies this, code, slots
      ensures Valid()
      ensures status.InvalidHandle? <==> handle in old(links) && old(links)[handle] != NULL
      ensures status.OutOfReach? ==> !Fits32(trampoline - (target + 5))
      ensures status.InvalidHandle? || status.OutOfReach? ==> State() == old(State())
      ensures !status.Success? ==> links == old(links)
      ensures status.Success? || status.NoSlot? ==>
        && Fits32(trampoline - (target + 5))
        && State() == Install(old(State()), target, trampoline).0
        && (status.NoSlot? <==> Install(old(State()), target, trampoline).1.None?)
      ensures status.Success? ==>
        && links == old(links)[handle := address]
        && address in records && Install(old(State()), target, trampoline).1 == Some(records[address].hook)
    {
      hide Wf, Lists, Tracked, Identified, Chain, Abstract, Le;
      if handle in links && links[handle] != NULL { return InvalidHandle; }
      var backup := code[target..target + 8];
      if !Fits32(trampoline - (target + 5)) { return OutOfReach; }
      ghost var c, l, v := code[..], slots[..], Structures();
      assert |c| == code.Length;
      var ident := counter;
      CounterWf(v, c, l, counter);
      counter := counter + 1;
      var at := FindSlot();
      if at.None? { return NoSlot; }
      slots[at.value] := ident;
      var jumper := Jump(target, trampoline) + code[target + 5..target + 8];
      var h := Hook(target, trampoline, backup, jumper, ident, at.value);
      WriteCode(target, h.copy);
      assert h == Install(old(State()), target, trampoline).1.value;
      Over(v, c, l, code[..], slots[..], ident);
      InsertedWf(v, address, h, handle, code[..], slots[..], ident);
      records := records[address := Record(first, h, true, handle)];
      links := links[handle := address];
      first := address;
      list := [address] + list;
      assert Structures() == Inserted(v, address, h, handle);
      hide Inserted;
      status := Success;
    }
  }
}
