/** Runs that may put several hooks on one target: at every target stands a chain of jumps, the
    newest on top, and finalizing restores a target if and only if its chain comes off newest
    first. */
module HookChains {
  import opened Bytes
  import opened Wrappers
  import opened HookEngine
  import opened HookRuns
  import opened HookStacks

  /** The hooks whose jumps stand one over the other at a target, oldest first; a hook that was
      drained while it was not on top stays in its chain. */
  type Chains = map<int, seq<Hook>>

  function On(c: Chains, t: int): (s: seq<Hook>) { if t in c then c[t] else [] }

  /** A target that is clear of all others, and a jump that stands at none of its levels. */
  ghost predicate Installable(e: Engine, c: Chains, orig: seq<Byte>, t: int, p: int) {
    && InMem(e.mem, t) && InMem(orig, t) && Window(orig, t)[..5] != Jump(t, p)
    && (forall u :: u in c && c[u] != [] ==> u == t || Apart(u, t))
    && (forall h :: h in On(c, t) ==> |h.copy| == 8 && h.copy[..5] != Jump(t, p))
  }

  ghost predicate MayHappen(e: Engine, c: Chains, orig: seq<Byte>, ev: Event) {
    ev.EInstall? ==> Installable(e, c, orig, ev.target, ev.trampoline)
  }

  ghost function Happened(e: Engine, ev: Event): (f: Engine)
    requires ev.EInstall? ==> InMem(e.mem, ev.target)
  {
    match ev
    case EInstall(t, p) => Install(e, t, p).0
    case EUninstall(h) => Uninstall(e, h)
    case EUninstallAll => UninstallAll(e)
    case EWait(shown) => Wait(e, shown).e
  }

  /** Removing h takes the top off its chain when h still finds its jump. */
  function Drained(mem: seq<Byte>, c: Chains, h: Hook): (d: Chains) {
    var s := On(c, h.target);
    if InMem(mem, h.target) && |h.backup| == 8 && Window(mem, h.target) == h.copy && s != []
      then c[h.target := s[..|s| - 1]] else c
  }

  function DrainChains(w: Waited, shown: Counters, c: Chains): (d: Chains)
    decreases |w.e.removal|
  {
    if w.e.removal == [] then c else DrainChains(DrainOne(w, shown), shown, Drained(w.e.mem, c, w.e.removal[0]))
  }

  ghost function Linked(e: Engine, c: Chains, ev: Event): (d: Chains)
    requires ev.EInstall? ==> InMem(e.mem, ev.target)
  {
    match ev
    case EInstall(t, p) =>
      var h := Install(e, t, p).1;
      if h.Some? then c[t := On(c, t) + [h.value]] else c
    case EWait(shown) => DrainChains(Waited(e, 0, WAIT_BUDGET, false, []), shown, c)
    case _ => c
  }

  // ---- the invariant -------------------------------------------------------

  ghost predicate ChainOk(mem: seq<Byte>, orig: seq<Byte>, t: int, s: seq<Hook>) {
    s != [] ==>
      && InMem(mem, t) && InMem(orig, t) && Stacked(s, t, Window(orig, t))
      && Window(mem, t) == Level(s, Window(orig, t), |s|)
  }

  ghost predicate Free(c: Chains, a: int) { forall t :: t in c && c[t] != [] ==> a < t || t + 8 <= a }

  /** The code bytes are what the chains say. */
  ghost predicate CodeOk(mem: seq<Byte>, c: Chains, orig: seq<Byte>) {
    && |mem| == |orig|
    && (forall t :: t in c ==> ChainOk(mem, orig, t, c[t]))
    && (forall t, u :: t in c && u in c && t != u && c[t] != [] && c[u] != [] ==> Apart(t, u))
    && (forall a :: 0 <= a < |mem| && Free(c, a) ==> mem[a] == orig[a])
  }

  ghost predicate Rooted(e: Engine, c: Chains) { forall h :: h in Live(e) ==> h in On(c, h.target) }

  ghost predicate ListsOk(e: Engine) {
    && NoDup(e.list) && NoDup(e.removal)
    && Elements(e.list) !! Elements(e.removal) && Elements(e.list) !! e.dropped && Elements(e.removal) !! e.dropped
  }

  /** On the list a newer hook of a chain stands before an older one. */
  ghost predicate NewerFirst(list: seq<Hook>, s: seq<Hook>) {
    forall i, j, x, y :: 0 <= i < j < |s| && 0 <= x < |list| && 0 <= y < |list| ==>
      list[x] == s[i] && list[y] == s[j] ==> y < x
  }

  ghost predicate Good(e: Engine, c: Chains, orig: seq<Byte>) {
    CodeOk(e.mem, c, orig) && Rooted(e, c) && ListsOk(e) && forall t :: t in c ==> NewerFirst(e.list, c[t])
  }

  // ---- install -------------------------------------------------------------

  lemma InstallChains(e: Engine, c: Chains, orig: seq<Byte>, t: int, p: int)
    requires Good(e, c, orig) && Installable(e, c, orig, t, p)
    ensures Good(Install(e, t, p).0, Linked(e, c, EInstall(t, p)), orig)
  {
    var (f, r) := Install(e, t, p);
    var s := On(c, t);
    if r.Some? {
      var h := r.value;
      WindowUnder(e.mem, c, orig, t);
      hide Jump;
      StackGrows(s, t, Window(orig, t), h);
      InstallCode(e, c, orig, t, h);
      assert h !in Live(e);
      InstallLists(e, f, c, t, h);
      InstallOrder(e.list, c, t, h);
    } else {
      assert Live(f) == Live(e);
    }
    hide CodeOk, NewerFirst, ListsOk;
  }

  /** The top of the chain at t, or the original bytes where there is none. */
  lemma WindowUnder(mem: seq<Byte>, c: Chains, orig: seq<Byte>, t: int)
    requires CodeOk(mem, c, orig) && InMem(mem, t) && forall u :: u in c && c[u] != [] ==> u == t || Apart(u, t)
    ensures InMem(orig, t) && Stacked(On(c, t), t, Window(orig, t))
    ensures Window(mem, t) == Level(On(c, t), Window(orig, t), |On(c, t)|)
  {
    if On(c, t) == [] {
      forall i | t <= i < t + 8
        ensures mem[i] == orig[i]
      {
        assert Free(c, i);
      }
    } else {
      assert ChainOk(mem, orig, t, c[t]);
    }
  }

  lemma InstallCode(e: Engine, c: Chains, orig: seq<Byte>, t: int, h: Hook)
    requires CodeOk(e.mem, c, orig) && InMem(e.mem, t) && InMem(orig, t) && |h.copy| == 8
    requires forall u :: u in c && c[u] != [] ==> u == t || Apart(u, t)
    requires var s := On(c, t) + [h];
      Stacked(s, t, Window(orig, t)) && Level(s, Window(orig, t), |s|) == h.copy
    ensures CodeOk(Splice(e.mem, t, h.copy), c[t := On(c, t) + [h]], orig)
  {
    hide Stacked, Level;
    var m, d := Splice(e.mem, t, h.copy), c[t := On(c, t) + [h]];
    SpliceWindow(e.mem, t, h.copy, t);
    forall u | u in d
      ensures ChainOk(m, orig, u, d[u])
    {
      if u != t && d[u] != [] {
        assert ChainOk(e.mem, orig, u, c[u]);
        SpliceWindow(e.mem, t, h.copy, u);
      }
    }
    OutsideStays(e.mem, c, orig, t, h.copy, d);
  }

  /** Writing inside the window of a chain. */
  lemma OutsideStays(mem: seq<Byte>, c: Chains, orig: seq<Byte>, t: int, b: seq<Byte>, d: Chains)
    requires CodeOk(mem, c, orig) && InMem(mem, t) && |b| == 8 && t in d && d[t] != []
    requires forall u :: u != t ==> On(d, u) == On(c, u)
    ensures forall a :: 0 <= a < |mem| && Free(d, a) ==> Splice(mem, t, b)[a] == orig[a]
  {
    forall a | 0 <= a < |mem| && Free(d, a)
      ensures Splice(mem, t, b)[a] == orig[a]
    {
      assert a < t || t + 8 <= a;
      assert Free(c, a) by {
        forall u | u in c && c[u] != []
          ensures a < u || u + 8 <= a
        {
          assert On(d, u) == c[u] || u == t;
        }
      }
    }
  }

  lemma InstallLists(e: Engine, f: Engine, c: Chains, t: int, h: Hook)
    requires Rooted(e, c) && ListsOk(e) && h !in Live(e) && h.target == t
    requires f.list == [h] + e.list && f.removal == e.removal && f.dropped == e.dropped
    ensures Rooted(f, c[t := On(c, t) + [h]]) && ListsOk(f)
  {
    ElementsCons(h, e.list);
    assert h !in e.list by { assert h !in Elements(e.list); }
    NoDupCons(h, e.list);
    hide NoDup;
  }

  lemma InstallOrder(list: seq<Hook>, c: Chains, t: int, h: Hook)
    requires h !in On(c, t) && forall u :: u in c ==> NewerFirst(list, c[u])
    requires h.target == t && forall u :: u in c && u != t ==> h !in c[u]
    requires h !in list
    ensures var d := c[t := On(c, t) + [h]]; forall u :: u in d ==> NewerFirst([h] + list, d[u])
  {
    var d, l := c[t := On(c, t) + [h]], [h] + list;
    forall u | u in d
      ensures NewerFirst(l, d[u])
    {
      var s := d[u];
      forall i, j, x, y | 0 <= i < j < |s| && 0 <= x < |l| && 0 <= y < |l| && l[x] == s[i] && l[y] == s[j]
        ensures y < x
      {
        if u == t && j == |On(c, t)| {
          assert s[j] == h && s[i] in On(c, t);
        } else if u == t {
          assert NewerFirst(list, On(c, t));
          assert s[i] in On(c, t) && s[j] in On(c, t);
          assert list[x - 1] == On(c, t)[i] && list[y - 1] == On(c, t)[j];
        } else {
          assert s[i] in c[u] && s[j] in c[u];
          assert list[x - 1] == c[u][i] && list[y - 1] == c[u][j];
        }
      }
    }
  }

  // ---- uninstall -----------------------------------------------------------

  /** Hooks that move between the lists, the list keeping its order. */
  lemma MovedLists(e: Engine, c: Chains, orig: seq<Byte>, f: Engine, k: nat)
    requires Good(e, c, orig) && f.mem == e.mem && Live(f) <= Live(e) && ListsOk(f)
    requires k <= |e.list| && f.list == e.list[k..]
    ensures Good(f, c, orig)
  {
    hide CodeOk, ListsOk, Live;
    forall t | t in c
      ensures NewerFirst(f.list, c[t])
    {
      assert NewerFirst(e.list, c[t]);
      forall i, j, x, y | 0 <= i < j < |c[t]| && 0 <= x < |f.list| && 0 <= y < |f.list|
                          && f.list[x] == c[t][i] && f.list[y] == c[t][j]
        ensures y < x
      {
        assert e.list[k + x] == c[t][i] && e.list[k + y] == c[t][j];
      }
    }
  }

  lemma UninstallChains(e: Engine, c: Chains, orig: seq<Byte>, h: Hook)
    requires Good(e, c, orig)
    ensures Good(Uninstall(e, h), c, orig)
  {
    hide CodeOk, Rooted, NewerFirst;
    if HookEngine.Installed(e, h) {
      UninstalledLists(e, h);
      var at := Find(e.list, h);
      hide Uninstall, ListsOk, Live;
      MovedLists(e, c, orig, Uninstall(e, h), if at.Some? then at.value + 1 else 0);
    }
  }

  lemma UninstalledLists(e: Engine, h: Hook)
    requires ListsOk(e) && HookEngine.Installed(e, h)
    ensures var f, at := Uninstall(e, h), Find(e.list, h);
      && f.mem == e.mem && Live(f) == Live(e) && ListsOk(f)
      && f.list == e.list[if at.Some? then at.value + 1 else 0..]
  {
    var at := Find(e.list, h);
    ElementsCons(h, e.removal);
    assert h in e.list <==> h in Elements(e.list);
    assert h !in e.removal by { assert h !in Elements(e.removal); }
    NoDupCons(h, e.removal);
    if at.Some? { SplitElements(e.list, at.value); }
    hide NoDup;
  }

  lemma UninstallAllChains(e: Engine, c: Chains, orig: seq<Byte>)
    requires Good(e, c, orig)
    ensures Good(UninstallAll(e), c, orig)
  {
    var f := UninstallAll(e);
    ReverseNoDup(e.list);
    ElementsJoin(Reverse(e.list), e.removal);
    assert Elements([]) == {};
    JoinNoDup(Reverse(e.list), e.removal);
    assert Live(f) == Live(e) by { hide NoDup; }
    assert e.list[|e.list|..] == [];
    MovedLists(e, c, orig, f, |e.list|);
  }

  lemma JoinNoDup(a: seq<Hook>, b: seq<Hook>)
    requires NoDup(a) && NoDup(b) && Elements(a) !! Elements(b)
    ensures NoDup(a + b)
  {
    forall i, j | 0 <= i < j < |a + b|
      ensures (a + b)[i] != (a + b)[j]
    {
      if i < |a| <= j {
        assert a[i] in Elements(a) && b[j - |a|] in Elements(b);
      }
    }
  }

  // ---- wait ----------------------------------------------------------------

  lemma DrainOneChains(w: Waited, shown: Counters, c: Chains, orig: seq<Byte>)
    requires Good(w.e, c, orig) && w.e.removal != []
    ensures Good(DrainOne(w, shown).e, Drained(w.e.mem, c, w.e.removal[0]), orig)
  {
    hide CodeOk, Stacked, Level, NewerFirst, ListsOk, Splice, DrainOne, Live;
    var e, f, h := w.e, DrainOne(w, shown).e, w.e.removal[0];
    var t, s := h.target, On(c, h.target);
    DrainedIs(w, shown);
    DrainedLists(e, f);
    TopFinds(e.mem, c, orig, h);
    assert f.list == e.list;
    if h == s[|s| - 1] {
      assert Drained(e.mem, c, h) == c[t := c[t][..|c[t]| - 1]];
      assert f.mem == Splice(e.mem, t, h.backup);
      PoppedCode(e, c, orig, h);
      PoppedRoots(e, f, c, h);
      PoppedOrder(e.list, c, t);
    }
  }

  /** Of the hooks of a chain only the one on top finds its jump. */
  lemma TopFinds(mem: seq<Byte>, c: Chains, orig: seq<Byte>, h: Hook)
    requires CodeOk(mem, c, orig) && h in On(c, h.target)
    ensures var s := On(c, h.target);
      s != [] && InMem(mem, h.target) && |h.backup| == 8 && (Window(mem, h.target) == h.copy <==> h == s[|s| - 1])
  {
    var t, s := h.target, On(c, h.target);
    assert ChainOk(mem, orig, t, s);
    MatchesTop(s, t, Window(orig, t), |s|, h);
  }

  lemma DrainedLists(e: Engine, f: Engine)
    requires ListsOk(e) && e.removal != [] && f.list == e.list && f.removal == e.removal[1..] && f.dropped == e.dropped
    ensures var h := e.removal[0]; h in Live(e) && h !in Live(f) && Live(f) <= Live(e) && ListsOk(f)
  {
    SplitElements(e.removal, 0);
    assert e.removal[..0] == [] && Elements([]) == {};
    assert e.removal[0] in Elements(e.removal);
    hide NoDup;
  }

  /** A removal changes the bytes of its own window only, and no other list. */
  lemma DrainedIs(w: Waited, shown: Counters)
    requires w.e.removal != []
    ensures var f, h := DrainOne(w, shown).e, w.e.removal[0];
      && f.list == w.e.list && f.removal == w.e.removal[1..] && f.dropped == w.e.dropped
      && f.mem == if InMem(w.e.mem, h.target) && |h.backup| == 8 && Window(w.e.mem, h.target) == h.copy
                  then Splice(w.e.mem, h.target, h.backup) else w.e.mem
  {
    hide PollCounter, Splice, Window;
  }

  lemma PoppedCode(e: Engine, c: Chains, orig: seq<Byte>, h: Hook)
    requires CodeOk(e.mem, c, orig) && h.target in c
    requires var s := c[h.target]; s != [] && h == s[|s| - 1] && InMem(e.mem, h.target) && |h.backup| == 8
    ensures var s := c[h.target];
      CodeOk(Splice(e.mem, h.target, h.backup), c[h.target := s[..|s| - 1]], orig)
  {
    var t, s := h.target, c[h.target];
    var m, b := Splice(e.mem, t, h.backup), s[..|s| - 1];
    var d := c[t := b];
    assert ChainOk(e.mem, orig, t, s);
    SpliceWindow(e.mem, t, h.backup, t);
    StackShrinks(s, t, Window(orig, t));
    hide Stacked, Level;
    forall u | u in d
      ensures ChainOk(m, orig, u, d[u])
    {
      if u != t && d[u] != [] {
        assert ChainOk(e.mem, orig, u, c[u]);
        SpliceWindow(e.mem, t, h.backup, u);
      }
    }
    forall a | 0 <= a < |m| && Free(d, a)
      ensures m[a] == orig[a]
    {
      PoppedByte(e.mem, c, orig, t, h.backup, d, a);
    }
  }

  lemma StackShrinks(s: seq<Hook>, t: int, w: seq<Byte>)
    requires Stacked(s, t, w) && s != []
    ensures var b := s[..|s| - 1]; Stacked(b, t, w) && Level(b, w, |b|) == s[|s| - 1].backup
    ensures |s| == 1 ==> s[0].backup == w
  {
    var b := s[..|s| - 1];
    forall i | 0 <= i <= |b|
      ensures Level(b, w, i) == Level(s, w, i)
    {
      LevelBelow(s, w, i);
    }
    hide Level;
    forall i | 0 <= i < |b|
      ensures b[i].target == t && |b[i].copy| == 8 && b[i].copy != w && b[i].backup == Level(b, w, i)
    {
      assert b[i] == s[i];
    }
    OnlyLevel(s, w);
  }

  lemma LevelBelow(s: seq<Hook>, w: seq<Byte>, i: nat)
    requires i < |s|
    ensures Level(s[..|s| - 1], w, i) == Level(s, w, i)
  {
  }

  lemma OnlyLevel(s: seq<Hook>, w: seq<Byte>)
    ensures Level(s, w, 0) == w
  {
  }

  /** Bytes outside the chains that are left: outside all, or restored from the original. */
  lemma PoppedByte(mem: seq<Byte>, c: Chains, orig: seq<Byte>, t: int, b: seq<Byte>, d: Chains, a: int)
    requires CodeOk(mem, c, orig) && t in c && c[t] != [] && InMem(mem, t) && InMem(orig, t) && |b| == 8
    requires d == c[t := c[t][..|c[t]| - 1]] && 0 <= a < |mem| && Free(d, a)
    requires d[t] == [] ==> b == Window(orig, t)
    ensures Splice(mem, t, b)[a] == orig[a]
  {
    hide Splice, ChainOk, Apart;
    WindowByte(mem, t, b, orig, a);
    if a < t || t + 8 <= a {
      FreeWithout(c, d, t, a);
    }
  }

  lemma WindowByte(mem: seq<Byte>, t: int, b: seq<Byte>, orig: seq<Byte>, a: int)
    requires InMem(mem, t) && InMem(orig, t) && |b| == 8 && 0 <= a < |mem|
    ensures a < t || t + 8 <= a ==> Splice(mem, t, b)[a] == mem[a]
    ensures t <= a < t + 8 && b == Window(orig, t) ==> Splice(mem, t, b)[a] == orig[a]
  {
    if t <= a < t + 8 {
      assert Splice(mem, t, b)[a] == b[a - t] && Window(orig, t)[a - t] == orig[a];
    }
  }

  lemma FreeWithout(c: Chains, d: Chains, t: int, a: int)
    requires Free(d, a) && (a < t || t + 8 <= a) && t in c && t in d && d == c[t := d[t]]
    ensures Free(c, a)
  {
    forall u | u in c && c[u] != []
      ensures a < u || u + 8 <= a
    {
      assert u != t ==> d[u] == c[u];
    }
  }

  lemma PoppedRoots(e: Engine, f: Engine, c: Chains, h: Hook)
    requires Rooted(e, c) && Live(f) <= Live(e) && h !in Live(f)
    requires var s := On(c, h.target); s != [] && h == s[|s| - 1]
    ensures var s := On(c, h.target); Rooted(f, c[h.target := s[..|s| - 1]])
  {
    hide Live;
    var s := On(c, h.target);
    forall k | k in Live(f)
      ensures k in On(c[h.target := s[..|s| - 1]], k.target)
    {
      assert k in On(c, k.target);
    }
  }

  lemma PoppedOrder(list: seq<Hook>, c: Chains, t: int)
    requires t in c && c[t] != [] && forall u :: u in c ==> NewerFirst(list, c[u])
    ensures var d := c[t := c[t][..|c[t]| - 1]]; forall u :: u in d ==> NewerFirst(list, d[u])
  {
    var s, b := c[t], c[t][..|c[t]| - 1];
    assert NewerFirst(list, s);
    forall i, j, x, y | 0 <= i < j < |b| && 0 <= x < |list| && 0 <= y < |list| && list[x] == b[i] && list[y] == b[j]
      ensures y < x
    {
      assert list[x] == s[i] && list[y] == s[j];
    }
  }

  lemma {:induction false} DrainGood(w: Waited, shown: Counters, c: Chains, orig: seq<Byte>)
    requires Good(w.e, c, orig)
    ensures Good(Drain(w, shown).e, DrainChains(w, shown, c), orig)
    ensures forall t :: On(DrainChains(w, shown, c), t) != [] ==> On(c, t) != []
    decreases |w.e.removal|
  {
    hide Good, DrainOne;
    if w.e.removal != [] {
      DrainOneChains(w, shown, c, orig);
      DrainedIs(w, shown);
      DrainGood(DrainOne(w, shown), shown, Drained(w.e.mem, c, w.e.removal[0]), orig);
    }
  }

  // ---- runs ----------------------------------------------------------------

  lemma EventKeepsChains(e: Engine, c: Chains, orig: seq<Byte>, ev: Event)
    requires Good(e, c, orig) && MayHappen(e, c, orig, ev)
    ensures Good(Happened(e, ev), Linked(e, c, ev), orig)
  {
    hide Good, Installable;
    match ev
    case EInstall(t, p) => InstallChains(e, c, orig, t, p);
    case EUninstall(h) => UninstallChains(e, c, orig, h);
    case EUninstallAll => UninstallAllChains(e, c, orig);
    case EWait(shown) => DrainGood(Waited(e, 0, WAIT_BUDGET, false, []), shown, c, orig);
  }

  ghost predicate ChainRun(e: Engine, c: Chains, orig: seq<Byte>, evs: seq<Event>)
    decreases |evs|
  {
    evs != [] ==>
      MayHappen(e, c, orig, evs[0]) && ChainRun(Happened(e, evs[0]), Linked(e, c, evs[0]), orig, evs[1..])
  }

  ghost function RunTo(e: Engine, c: Chains, orig: seq<Byte>, evs: seq<Event>): (r: (Engine, Chains))
    requires ChainRun(e, c, orig, evs)
    decreases |evs|
  {
    if evs == [] then (e, c) else RunTo(Happened(e, evs[0]), Linked(e, c, evs[0]), orig, evs[1..])
  }

  /** Over every run, with hooks stacked on their targets or not, the code bytes are what the
      chains say. */
  lemma {:induction false} RunKeepsChains(e: Engine, c: Chains, orig: seq<Byte>, evs: seq<Event>)
    requires Good(e, c, orig) && ChainRun(e, c, orig, evs)
    ensures var (f, d) := RunTo(e, c, orig, evs); Good(f, d, orig)
    decreases |evs|
  {
    hide Good, Happened, Linked;
    if evs != [] {
      EventKeepsChains(e, c, orig, evs[0]);
      RunKeepsChains(Happened(e, evs[0]), Linked(e, c, evs[0]), orig, evs[1..]);
    }
  }

  lemma FreshGood(orig: seq<Byte>)
    ensures Good(Fresh(orig), map[], orig)
  {
  }

  // ---- finalizing ----------------------------------------------------------

  /** What the chain needs for LhUninstallAllHooks and a wait to take it off: all of it pending
      newest first, or all below its top, which is on the list. */
  predicate Undoable(e: Engine, s: seq<Hook>) {
    || NewestFirstOn(e.removal, s, |s|)
    || (s != [] && s[|s| - 1] in e.list && NewestFirstOn(e.removal, s, |s| - 1))
  }

  lemma NoneFirst(removal: seq<Hook>, s: seq<Hook>)
    ensures NewestFirstOn(removal, s, 0)
  {
  }

  lemma TopFirst(removal: seq<Hook>, s: seq<Hook>, p: nat)
    requires 0 < p <= |s|
    ensures var k := Find(removal, s[p - 1]);
      NewestFirstOn(removal, s, p) <==> k.Some? && NewestFirstOn(removal[k.value + 1..], s, p - 1)
  {
  }

  lemma JoinedFront(a: seq<Hook>, b: seq<Hook>, k: nat)
    requires k <= |b|
    ensures (a + b)[..|a| + k] == a + b[..k]
  {
  }

  lemma FindBehindAll(a: seq<Hook>, b: seq<Hook>, x: Hook)
    requires x !in a
    ensures Find(b, x).None? ==> Find(a + b, x).None?
    ensures Find(b, x).Some? ==> Find(a + b, x) == Some(|a| + Find(b, x).value)
  {
    hide Find;
    var k := Find(b, x);
    if k.Some? {
      JoinedFront(a, b, k.value);
      FindIs(a + b, x, |a| + k.value);
    }
  }

  /** With the listed hooks of the chain oldest first in front. */
  lemma OldestInFront(a: seq<Hook>, b: seq<Hook>, s: seq<Hook>)
    requires NoDup(a) && (forall h :: h in a ==> h !in b) && OldestFirst(a, s)
    ensures NewestFirstOn(a + b, s, |s|) <==>
      || NewestFirstOn(b, s, |s|)
      || (s != [] && s[|s| - 1] in a && NewestFirstOn(b, s, |s| - 1))
  {
    hide OldestFirst, NoDup;
    if s != [] {
      var x := s[|s| - 1];
      if x in a {
        TopInFront(a, b, s);
      } else {
        BehindTop(a, b, s, |s|);
      }
    }
  }

  /** Hooks in front that are not the top of the chain make no difference. */
  lemma BehindTop(a: seq<Hook>, b: seq<Hook>, s: seq<Hook>, p: nat)
    requires 0 < p <= |s| && s[p - 1] !in a
    ensures NewestFirstOn(a + b, s, p) <==> NewestFirstOn(b, s, p)
  {
    hide NewestFirstOn, Find;
    var x := s[p - 1];
    TopFirst(a + b, s, p);
    TopFirst(b, s, p);
    FindBehindAll(a, b, x);
    var k := Find(b, x);
    if k.Some? {
      assert (a + b)[|a| + k.value + 1..] == b[k.value + 1..];
    }
  }

  lemma TopInFront(a: seq<Hook>, b: seq<Hook>, s: seq<Hook>)
    requires OldestFirst(a, s) && s != [] && s[|s| - 1] in a && s[|s| - 1] !in b
    ensures NewestFirstOn(a + b, s, |s|) <==> NewestFirstOn(b, s, |s| - 1)
    ensures !NewestFirstOn(b, s, |s|)
  {
    hide NewestFirstOn, Find;
    var x := s[|s| - 1];
    var k := Find(a, x).value;
    FindInFront(a, b, x);
    TopFirst(a + b, s, |s|);
    TopFirst(b, s, |s|);
    NoOlderBehind(a, s, k);
    hide OldestFirst;
    assert (a + b)[k + 1..] == a[k + 1..] + b;
    if |s| > 1 {
      BehindTop(a[k + 1..], b, s, |s| - 1);
    } else {
      NoneFirst(a[k + 1..] + b, s);
      NoneFirst(b, s);
    }
  }

  lemma NoOlderBehind(a: seq<Hook>, s: seq<Hook>, k: nat)
    requires OldestFirst(a, s) && s != [] && k < |a| && a[k] == s[|s| - 1]
    ensures forall i :: 0 <= i < |s| - 1 ==> s[i] !in a[k + 1..]
  {
    var r := a[k + 1..];
    forall i, y | 0 <= i < |s| - 1 && 0 <= y < |r|
      ensures r[y] != s[i]
    {
      assert a[k + 1 + y] == r[y];
    }
  }

  lemma FindInFront(a: seq<Hook>, b: seq<Hook>, x: Hook)
    requires x in a
    ensures Find(a + b, x) == Find(a, x)
  {
    var k := Find(a, x).value;
    assert (a + b)[..k] == a[..k];
    FindIs(a + b, x, k);
  }

  /** Older hooks of the chain stand before newer ones. */
  ghost predicate OldestFirst(a: seq<Hook>, s: seq<Hook>) {
    forall i, j, x, y :: 0 <= i < j < |s| && 0 <= x < |a| && 0 <= y < |a| && a[x] == s[i] && a[y] == s[j] ==> x < y
  }

  lemma ReverseOrder(list: seq<Hook>, s: seq<Hook>)
    requires NewerFirst(list, s) && NoDup(list)
    ensures OldestFirst(Reverse(list), s)
  {
    var a := Reverse(list);
    forall i, j, x, y | 0 <= i < j < |s| && 0 <= x < |a| && 0 <= y < |a| && a[x] == s[i] && a[y] == s[j]
      ensures x < y
    {
      ReverseFind(list, |list| - 1 - x);
      ReverseFind(list, |list| - 1 - y);
      assert list[|list| - 1 - x] == s[i] && list[|list| - 1 - y] == s[j];
    }
  }

  /** One target: uninstall-all and a wait restore it if and only if its chain is undoable. */
  lemma FinalizeRestoresTarget(e: Engine, c: Chains, orig: seq<Byte>, shown: Counters, t: int)
    requires Good(e, c, orig) && t in c && c[t] != []
    ensures var m := Wait(UninstallAll(e), shown).e.mem;
      InMem(m, t) && InMem(orig, t) && (Window(m, t) == Window(orig, t) <==> Undoable(e, c[t]))
  {
    var s, f := c[t], UninstallAll(e);
    assert ChainOk(e.mem, orig, t, s);
    UninstallAllChains(e, c, orig);
    ChainsApart(f, c, orig, t);
    hide Window, Wait;
    RestoredIffNewestFirst(f, shown, s, t, Window(orig, t));
    assert NewerFirst(e.list, s);
    ReverseOrder(e.list, s);
    ReverseNoDup(e.list);
    ListsApart(e);
    OldestInFront(Reverse(e.list), e.removal, s);
  }

  lemma ListsApart(e: Engine)
    requires ListsOk(e)
    ensures forall h :: h in Reverse(e.list) ==> h !in e.removal
  {
    forall h | h in Reverse(e.list)
      ensures h !in e.removal
    {
      assert h in Elements(e.list) && h !in Elements(e.removal);
    }
  }

  /** What is pending belongs to the chain of t or to targets apart from it. */
  lemma ChainsApart(e: Engine, c: Chains, orig: seq<Byte>, t: int)
    requires Good(e, c, orig) && t in c && c[t] != []
    ensures OthersApart(e.removal, c[t], t)
  {
    forall h | h in e.removal
      ensures h in c[t] || Apart(h.target, t)
    {
      assert h in Elements(e.removal) && h in Live(e);
      assert h in On(c, h.target);
    }
  }

  /** All code: uninstall-all and a wait restore every byte if and only if every chain is
      undoable. */
  lemma FinalizeRestoresIff(e: Engine, c: Chains, orig: seq<Byte>, shown: Counters)
    requires Good(e, c, orig)
    ensures Wait(UninstallAll(e), shown).e.mem == orig <==> forall t :: t in c && c[t] != [] ==> Undoable(e, c[t])
  {
    var f := UninstallAll(e);
    var m := Wait(f, shown).e.mem;
    UninstallAllChains(e, c, orig);
    var w := Waited(f, 0, WAIT_BUDGET, false, []);
    DrainGood(w, shown, c, orig);
    var d := DrainChains(w, shown, c);
    assert CodeOk(m, d, orig);
    forall t | t in c && c[t] != []
      ensures InMem(m, t) && InMem(orig, t) && (Window(m, t) == Window(orig, t) <==> Undoable(e, c[t]))
    {
      FinalizeRestoresTarget(e, c, orig, shown, t);
    }
    hide Wait, Undoable, DrainChains, Good, UninstallAll;
    if forall t :: t in c && c[t] != [] ==> Undoable(e, c[t]) {
      AllWindows(m, c, d, orig);
    }
  }

  lemma AllWindows(m: seq<Byte>, c: Chains, d: Chains, orig: seq<Byte>)
    requires CodeOk(m, d, orig) && forall t :: On(d, t) != [] ==> On(c, t) != []
    requires forall t :: t in c && c[t] != [] ==> InMem(m, t) && InMem(orig, t) && Window(m, t) == Window(orig, t)
    ensures m == orig
  {
    forall a | 0 <= a < |m|
      ensures m[a] == orig[a]
    {
      if Free(c, a) {
        assert Free(d, a) by {
          forall u | u in d && d[u] != []
            ensures a < u || u + 8 <= a
          {
            assert On(d, u) != [];
          }
        }
      } else {
        var t :| t in c && c[t] != [] && t <= a < t + 8;
        assert Window(m, t)[a - t] == Window(orig, t)[a - t];
      }
    }
  }

  /** Over every run from the start, whatever hooks it stacks: finalizing restores all code if
      and only if at every target the hooks below the newest are pending newest first, and the
      newest is pending in front of them or still on the list. */
  lemma FinalizingRestoresIff(orig: seq<Byte>, evs: seq<Event>, shown: Counters)
    requires ChainRun(Fresh(orig), map[], orig, evs)
    ensures var (e, c) := RunTo(Fresh(orig), map[], orig, evs);
      Wait(UninstallAll(e), shown).e.mem == orig <==> forall t :: t in c && c[t] != [] ==> Undoable(e, c[t])
  {
    hide Good, Wait;
    FreshGood(orig);
    RunKeepsChains(Fresh(orig), map[], orig, evs);
    var (e, c) := RunTo(Fresh(orig), map[], orig, evs);
    FinalizeRestoresIff(e, c, orig, shown);
  }
}
